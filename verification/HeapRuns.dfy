/**
 Whole runs of `malloc` and `free`: what is true after any of them, in whatever order.
 */
module HeapRuns {
  import opened HeapSpec
  import opened HeapSearch
  import opened HeapMemory
  import opened HeapAllocator

  datatype Event = Malloc(n: nat, room: nat) | Free(a: nat)

  /** One call: `free` is only given blocks that are live. */
  ghost predicate Step(h: Heap, e: Event, h': Heap)
  {
    match e
    case Malloc(n, room) => 1 <= n && exists r :: MallocStep(h, n, room, h', r)
    case Free(a) => h.rover.At? && FreeStep(h, a, h')
  }

  ghost predicate Run(hs: seq<Heap>, es: seq<Event>)
  {
    && |hs| == |es| + 1
    && hs[0] == EMPTY
    && forall k :: 0 <= k < |es| ==> Step(hs[k], es[k], hs[k + 1])
  }

  // ------------------------------------------------------------ what holds in a run

  lemma MallocKeeps(h: Heap, n: nat, room: nat, h': Heap, r: Address)
    requires Wf(h) && 1 <= n && MallocStep(h, n, room, h', r)
    ensures Wf(h')
  {
    var s := Started(h);
    assert Wf(s);
    if Reuses(s, n, h', r) {
      var i :| NextFit(s, n, i) && h' == Taken(s, i, n);
      TakeKeeps(s, i, n);
    } else if Grows(s, n, room, h', r) {
      GrownKeeps(s, n);
      TakeKeeps(Grown(s, n), |Grown(s, n).tiles| - 1, n);
    }
  }

  lemma {:induction false} RunKeeps(hs: seq<Heap>, es: seq<Event>, k: nat)
    requires Run(hs, es) && k <= |es|
    ensures Wf(hs[k])
  {
    if k == 0 {
      assert Tiled([], 1, 1);
    } else {
      RunKeeps(hs, es, k - 1);
      assert Step(hs[k - 1], es[k - 1], hs[k]);
      match es[k - 1]
      case Malloc(n, room) =>
        var r :| MallocStep(hs[k - 1], n, room, hs[k], r);
        MallocKeeps(hs[k - 1], n, room, hs[k], r);
      case Free(a) =>
        var i :| IsLive(hs[k - 1].tiles, i, a) && hs[k] == Freed(hs[k - 1], i);
        ReleaseKeeps(hs[k - 1], i);
    }
  }

  /** Free and live blocks share out exactly the units obtained from `xsbrk`. */
  lemma {:induction false} Conservation(ts: seq<Tile>, s: nat, e: nat)
    requires Tiled(ts, s, e)
    ensures s + Units(ts, true) + Units(ts, false) == e
  {
    if ts != [] {
      Conservation(ts[1..], s + ts[0].len, e);
    }
  }

  /** What one step keeps holds after any run. */
  lemma {:induction false} Kept(step: (Heap, Event, Heap) -> bool, inv: Heap -> bool,
                                hs: seq<Heap>, es: seq<Event>, k: nat)
    requires |hs| == |es| + 1 && inv(hs[0]) && k <= |es|
    requires forall j :: 0 <= j < |es| ==> step(hs[j], es[j], hs[j + 1])
    requires forall h, e, h' :: step(h, e, h') && inv(h) ==> inv(h')
    ensures inv(hs[k])
  {
    if k > 0 {
      Kept(step, inv, hs, es, k - 1);
      assert step(hs[k - 1], es[k - 1], hs[k - 1 + 1]);
    }
  }

  predicate Aligned(h: Heap) { 1 <= h.end && Multiple16(h.end - 1) }

  /** The region always ends a multiple of 16 units behind its start. */
  lemma EndsAligned(hs: seq<Heap>, es: seq<Event>, k: nat)
    requires Run(hs, es) && k <= |es|
    ensures Aligned(hs[k])
  {
    forall h, e, h' | Step(h, e, h') && Aligned(h) ensures Aligned(h') { StepAligned(h, e, h'); }
    Kept(Step, Aligned, hs, es, k);
  }

  lemma StepAligned(h: Heap, e: Event, h': Heap)
    requires Step(h, e, h') && Aligned(h)
    ensures Aligned(h')
  {
    StepEnd(h, e, h');
    if h'.end != h.end { MoveAligned(h.end, h'.end, e.n); }
  }

  lemma SumAligned(a: int, b: int)
    requires a % 16 == 0 && b % 16 == 0
    ensures (a + b) % 16 == 0
  {
  }

  lemma MoveAligned(e: nat, e': nat, n: nat)
    requires 1 <= e && Multiple16(e - 1) && GrowsLeast(e, e', n)
    ensures 1 <= e' && Multiple16(e' - 1)
  {
    assert Told(true);
    SumAligned(e - 1, e' - e);
  }

  /** One call moves the end of the region only for a request that fits nowhere, and then by the
      least multiple of 16 units that holds it. */
  lemma StepEnd(h: Heap, e: Event, h': Heap)
    requires Step(h, e, h')
    ensures h'.end != h.end ==>
      e.Malloc? && NoFit(h.tiles, e.n) && GrowsLeast(h.end, h'.end, e.n) && h'.end <= e.room
  {
    match e
    case Malloc(n, room) =>
      var r :| MallocStep(h, n, room, h', r);
      MallocGrowth(h, n, room, h', r);
    case Free(a) =>
      var i :| IsLive(h.tiles, i, a) && h' == Freed(h, i);
  }

  /** Two free blocks never touch: between them lies at least one live unit. */
  lemma FreeApart(h: Heap, i: nat, j: nat)
    requires Wf(h) && i < j < |h.tiles| && !h.tiles[i].live && !h.tiles[j].live
    ensures h.tiles[i].start + h.tiles[i].len < h.tiles[j].start
  {
    assert h.tiles[i].live || h.tiles[i + 1].live;
    TiledDisjoint(h.tiles, 1, h.end, i, i + 1);
    TiledDisjoint(h.tiles, 1, h.end, i + 1, j);
    TiledBounds(h.tiles, 1, h.end);
    assert h.tiles[i + 1] in h.tiles;
  }

  /** After any run: one ring through `base`, address-ascending with a single wrap; blocks
      pairwise disjoint, free blocks apart; and no unit lost or gained. */
  lemma AfterAnyRun(hs: seq<Heap>, es: seq<Event>, k: nat)
    requires Run(hs, es) && k <= |es|
    ensures var ts, end := hs[k].tiles, hs[k].end;
      && Ring(ts)[0] == 0 && Ascending(Ring(ts))
      && (forall a :: a in FreeOf(ts) <==> exists t :: t in ts && !t.live && t.start == a)
      && (forall i, j :: 0 <= i < j < |ts| ==> ts[i].start + ts[i].len <= ts[j].start)
      && (forall i, j :: 0 <= i < j < |ts| && !ts[i].live && !ts[j].live ==> ts[i].start + ts[i].len < ts[j].start)
      && Units(ts, true) + Units(ts, false) == end - 1
  {
    RunKeeps(hs, es, k);
    var h := hs[k];
    RingAscends(h.tiles, h.end);
    Conservation(h.tiles, 1, h.end);
    FreeOfMembers(h.tiles);
    forall i, j | 0 <= i < j < |h.tiles|
      ensures h.tiles[i].start + h.tiles[i].len <= h.tiles[j].start
      ensures !h.tiles[i].live && !h.tiles[j].live ==> h.tiles[i].start + h.tiles[i].len < h.tiles[j].start
    {
      TiledDisjoint(h.tiles, 1, h.end, i, j);
      if !h.tiles[i].live && !h.tiles[j].live {
        FreeApart(h, i, j);
      }
    }
  }

  lemma {:induction false} FreeOfMembers(ts: seq<Tile>)
    ensures forall a :: a in FreeOf(ts) <==> exists t :: t in ts && !t.live && t.start == a
  {
    if ts != [] {
      FreeOfMembers(ts[1..]);
      forall a
        ensures a in FreeOf(ts) <==> exists t :: t in ts && !t.live && t.start == a
      {
        assert ts == [ts[0]] + ts[1..];
        if a in FreeOf(ts) {
          if a in FreeOf(ts[1..]) {
            var t :| t in ts[1..] && !t.live && t.start == a;
            assert t in ts;
          } else {
            assert ts[0] in ts && !ts[0].live && ts[0].start == a;
          }
        }
        if t :| t in ts && !t.live && t.start == a {
          assert t == ts[0] || t in ts[1..];
        }
      }
    }
  }

  lemma OneOrLive(ts: seq<Tile>)
    requires Coalesced(ts)
    ensures |ts| <= 1 || ts[0].live || ts[1].live
  {
    assert |ts| > 1 ==> ts[1 - 1].live || ts[1].live;
  }

  /** Whatever was allocated and in whatever order it was freed: once nothing is live, the free
      list is `base` and one block that spans the whole region. */
  lemma AllFreed(hs: seq<Heap>, es: seq<Event>, k: nat)
    requires Run(hs, es) && k <= |es|
    requires forall t :: t in hs[k].tiles ==> !t.live
    ensures 1 <= hs[k].end
    ensures if hs[k].end == 1 then hs[k].tiles == [] && Ring(hs[k].tiles) == [0]
            else hs[k].tiles == [Tile(1, hs[k].end - 1, false)] && Ring(hs[k].tiles) == [0, 1]
  {
    RunKeeps(hs, es, k);
    var ts := hs[k].tiles;
    TiledEnd(ts, 1, hs[k].end);
    OneOrLive(ts);
    assert forall i :: 0 <= i < |ts| ==> ts[i] in ts && !ts[i].live;
    if |ts| == 1 {
      assert ts == [ts[0]] && ts[1..] == [];
      FreeOfOne(ts[0]);
    }
  }

  // ------------------------------------------------------- what one call gives and takes

  /** A request gets room for its bytes, and wastes less than one unit besides the header. */
  lemma Enough(nbytes: nat)
    ensures nbytes <= (Nunits(nbytes) - 1) * 8 < nbytes + 8
  {
  }

  /** `malloc`: a new live block of n units, every other live block untouched; NULL only when
      no free block was big enough and no multiple of 16 units that holds the request was left. */
  lemma MallocGives(h: Heap, n: nat, room: nat, h': Heap, r: Address)
    requires Wf(h) && 1 <= n && MallocStep(h, n, room, h', r)
    ensures r.At? ==> 1 <= r.addr && SameLiveBut(h.tiles, h'.tiles, Tile(r.addr - 1, n, true))
    ensures r.Null? <==> NoFit(h.tiles, n) && NoRoom(h.end, n, room)
    ensures r.Null? ==> h'.tiles == h.tiles && h'.end == h.end
    ensures r.At? && NoFit(h.tiles, n) ==> GrowsLeast(h.end, h'.end, n) && h'.end <= room
    ensures !NoFit(h.tiles, n) ==> h'.end == h.end
  {
    MallocGrowth(h, n, room, h', r);
    var s := Started(h);
    assert Wf(s) && s.tiles == h.tiles;
    if Reuses(s, n, h', r) {
      ReuseGives(s, n, h', r);
    } else if Grows(s, n, room, h', r) {
      GrowsGives(s, n, room, h', r);
    } else {
      assert Refuses(s, n, room, h', r);
    }
  }

  lemma GrowsGives(s: Heap, n: nat, room: nat, h': Heap, r: Address)
    requires Wf(s) && s.rover.At? && 1 <= n && Grows(s, n, room, h', r)
    ensures r.At? && 1 <= r.addr && SameLiveBut(s.tiles, h'.tiles, Tile(r.addr - 1, n, true))
    ensures h'.end == s.end + Rounded(n) <= room && NoFit(s.tiles, n)
  {
    GrownGives(s, n, h', r.addr);
  }

  lemma ReuseGives(s: Heap, n: nat, h': Heap, r: Address)
    requires Wf(s) && s.rover.At? && 1 <= n && Reuses(s, n, h', r)
    ensures r.At? && 1 <= r.addr && SameLiveBut(s.tiles, h'.tiles, Tile(r.addr - 1, n, true))
    ensures h'.end == s.end && !NoFit(s.tiles, n)
  {
    var i := ReuseAt(s, n, h', r);
    FitGives(s, i, n, h', r.addr - 1);
  }

  lemma ReuseAt(s: Heap, n: nat, h': Heap, r: Address) returns (i: nat)
    requires s.rover.At? && Reuses(s, n, h', r)
    ensures Fits(s.tiles, i, n) && h' == Taken(s, i, n) && r == At(Given(s.tiles, i, n) + 1)
  {
    i :| NextFit(s, n, i) && h' == Taken(s, i, n) && r == At(Given(s.tiles, i, n) + 1);
  }

  lemma FitGives(s: Heap, i: nat, n: nat, h': Heap, a: nat)
    requires Wf(s) && 1 <= n && Fits(s.tiles, i, n) && h' == Taken(s, i, n) && a == Given(s.tiles, i, n)
    ensures SameLiveBut(s.tiles, h'.tiles, Tile(a, n, true)) && h'.end == s.end && !NoFit(s.tiles, n)
  {
    TakenGives(s, i, n);
  }

  lemma TakenGives(s: Heap, i: nat, n: nat)
    requires Wf(s) && 1 <= n && Fits(s.tiles, i, n)
    ensures SameLiveBut(s.tiles, Taken(s, i, n).tiles, Tile(Given(s.tiles, i, n), n, true))
    ensures Taken(s, i, n).end == s.end && !NoFit(s.tiles, n)
  {
    CarveLive(s.tiles, s.end, i, n);
  }

  lemma GrownGives(s: Heap, n: nat, h': Heap, addr: nat)
    requires Wf(s) && s.rover.At? && 1 <= n
    requires var g := Grown(s, n);
      Fits(g.tiles, |g.tiles| - 1, n) && h' == Taken(g, |g.tiles| - 1, n)
        && addr == Given(g.tiles, |g.tiles| - 1, n) + 1
    ensures 1 <= addr && SameLiveBut(s.tiles, h'.tiles, Tile(addr - 1, n, true))
    ensures h'.end == s.end + Rounded(n)
  {
    var g := Grown(s, n);
    GrownKeeps(s, n);
    GrownLive(s, n);
    TakenGives(g, |g.tiles| - 1, n);
  }

  lemma GrownLive(h: Heap, n: nat)
    requires Wf(h) && h.rover.At? && 1 <= n
    ensures forall x: Tile :: x.live ==> (x in h.tiles <==> x in Grown(h, n).tiles)
  {
    RoundedUp(n);
    var e := Extended(h, Rounded(n));
    ExtendKeeps(h, Rounded(n));
    ReleaseLive(e.tiles, e.end, |h.tiles|);
    TiledBounds(h.tiles, 1, h.end);
    assert e.tiles[|h.tiles|] !in h.tiles;
  }

  /** `free` takes exactly the given block away from the live ones. */
  lemma FreeTakes(h: Heap, a: nat, h': Heap)
    requires Wf(h) && FreeStep(h, a, h')
    ensures !LiveAt(h'.tiles, a) && h'.end == h.end
    ensures exists t: Tile :: t.start == a && SameLiveBut(h'.tiles, h.tiles, t)
  {
    var i :| IsLive(h.tiles, i, a) && h' == Freed(h, i);
    var t := h.tiles[i];
    ReleaseLive(h.tiles, h.end, i);
    assert SameLiveBut(h'.tiles, h.tiles, t);
    NotLive(h, i, h'.tiles);
  }

  lemma NotLive(h: Heap, i: nat, ts': seq<Tile>)
    requires Wf(h) && i < |h.tiles| && SameLiveBut(ts', h.tiles, h.tiles[i])
    ensures !LiveAt(ts', h.tiles[i].start)
  {
    LiveUnique(h.tiles, h.end, i, h.tiles[i].start);
    forall j | 0 <= j < |ts'|
      ensures !IsLive(ts', j, h.tiles[i].start)
    {
      if ts'[j].live && ts'[j] in h.tiles {
        var k :| 0 <= k < |h.tiles| && h.tiles[k] == ts'[j];
        assert IsLive(h.tiles, k, ts'[j].start) && ts'[j] != h.tiles[i];
      }
    }
  }

  // ------------------------------------------------------------------ where the search stands

  /** x is the highest ring element below address a. */
  ghost predicate DirectlyBelow(ts: seq<Tile>, x: nat, a: nat)
  {
    x in Ring(ts) && x < a && forall y :: y in Ring(ts) && y < a ==> y <= x
  }

  lemma PredBelow(ts: seq<Tile>, end: nat, i: nat)
    requires Tiled(ts, 1, end) && i < |ts|
    ensures DirectlyBelow(ts, RingPred(ts, i), ts[i].start)
  {
    TiledSplit(ts, i, 1, end);
    var a, b := ts[..i], ts[i..];
    assert ts == a + b && ts[i..][1..] == ts[i + 1..];
    FreeOfConcat(a, b);
    RingAscends(a, ts[i].start);
    FreeOfAscends(b, ts[i].start, end);
    assert Last(Ring(a)) in Ring(a);
    assert Ring(ts) == Ring(a) + FreeOf(b);
    LastOfBoth(Ring(a), FreeOf(b), ts[i].start);
  }

  lemma LastOfBoth(a: seq<nat>, b: seq<nat>, x: nat)
    requires Ascending(a) && a != [] && Last(a) < x && forall y :: y in b ==> x <= y
    ensures forall y :: y in a + b && y < x ==> y <= Last(a)
  {
    forall y | y in a + b && y < x
      ensures y <= Last(a)
    {
      assert y in a;
      var k :| 0 <= k < |a| && a[k] == y;
    }
  }

  /** After `free` the rover is the ring element directly below the block. */
  lemma FreeRover(h: Heap, a: nat, h': Heap)
    requires Wf(h) && FreeStep(h, a, h')
    ensures h'.rover.At? && DirectlyBelow(h.tiles, h'.rover.addr, a)
  {
    var i :| IsLive(h.tiles, i, a) && h' == Freed(h, i);
    PredBelow(h.tiles, h.end, i);
  }

  /** Going up from the rover and round, t comes first among the free blocks that hold n. */
  ghost predicate FirstFrom(ts: seq<Tile>, rover: nat, n: nat, t: Tile)
  {
    && t in ts && !t.live && n <= t.len
    && forall u :: u in ts && !u.live && n <= u.len ==>
         if rover < t.start then u.start <= rover || t.start <= u.start
         else t.start <= u.start <= rover
  }

  /** a is one unit behind where the last n units of t begin, t is the first block from the rover,
      and q lies directly below it. */
  ghost predicate TailOf(h: Heap, n: nat, t: Tile, a: nat, q: nat)
    requires h.rover.At?
  {
    FirstFrom(h.tiles, h.rover.addr, n, t) && a - 1 + n == t.start + t.len && DirectlyBelow(h.tiles, q, t.start)
  }

  /** When a free block is big enough, `malloc` takes the tail of the first one from the rover, and
      leaves the rover directly below that block. */
  lemma MallocTail(h: Heap, n: nat, room: nat, h': Heap, r: Address)
    requires Wf(h) && h.rover.At? && 1 <= n && MallocStep(h, n, room, h', r) && !NoFit(h.tiles, n)
    ensures r.At? && h'.rover.At?
    ensures exists t :: TailOf(h, n, t, r.addr, h'.rover.addr)
  {
    assert Reuses(h, n, h', r);
    var i :| NextFit(h, n, i) && h' == Taken(h, i, n) && r == At(Given(h.tiles, i, n) + 1);
    var t := h.tiles[i];
    NextFitFirst(h, n, i);
    PredBelow(h.tiles, h.end, i);
    assert TailOf(h, n, t, r.addr, h'.rover.addr);
  }

  lemma NextFitFirst(h: Heap, n: nat, i: int)
    requires Wf(h) && h.rover.At? && NextFit(h, n, i)
    ensures FirstFrom(h.tiles, h.rover.addr, n, h.tiles[i])
  {
    TiledBounds(h.tiles, 1, h.end);
    RingAscends(h.tiles, h.end);
    forall u | u in h.tiles && !u.live && n <= u.len
      ensures if h.rover.addr < h.tiles[i].start then u.start <= h.rover.addr || h.tiles[i].start <= u.start
              else h.tiles[i].start <= u.start <= h.rover.addr
    {
      var j :| 0 <= j < |h.tiles| && h.tiles[j] == u;
      assert Fits(h.tiles, j, n);
    }
  }

  /** When the region grows, the block is taken from its end. */
  lemma GrownTail(h: Heap, n: nat, room: nat, h': Heap, r: Address)
    requires Wf(h) && 1 <= n && MallocStep(h, n, room, h', r) && NoFit(h.tiles, n) && r.At?
    ensures r.addr - 1 + n == h'.end
  {
    var s := Started(h);
    assert Wf(s) && Grows(s, n, room, h', r);
    GrownKeeps(s, n);
    var g := Grown(s, n);
    TiledEnd(g.tiles, 1, g.end);
  }

  /** The first request for 8 bytes makes a region of 16 units and is given the last two of them. */
  lemma FirstRequest(room: nat, h': Heap, r: Address)
    requires 17 <= room && MallocStep(EMPTY, Nunits(8), room, h', r)
    ensures h'.end == 17 && r == At(16)
  {
    assert Nunits(8) == 2 && Tiled([], 1, 1);
    MallocGives(EMPTY, 2, room, h', r);
    assert Multiple16(16) && Told(true);
    GrownTail(EMPTY, 2, room, h', r);
  }
}
