/**
 Facts that the loops of `malloc` and `free` rest on, and what the abstract steps preserve.
 */
module HeapSearch {
  import opened HeapSpec
  import opened HeapLinks

  // -------------------------------------------------------------- the invariant

  lemma ReleaseKeeps(h: Heap, i: nat)
    requires Wf(h) && i < |h.tiles| && h.tiles[i].live
    ensures Wf(Freed(h, i))
  {
    var a, t, b := h.tiles[..i], h.tiles[i], h.tiles[i + 1..];
    TiledSplit(h.tiles, i, 1, h.end);
    ReleasedTiled(a, t, b, h.end);
    ReleasedCoalesced(a, t, b);
    ReleaseRing(a, t, b);
    assert Last(Ring(a)) in Ring(a);
  }

  lemma TakeKeeps(h: Heap, i: nat, n: nat)
    requires Wf(h) && Fits(h.tiles, i, n) && 0 < n
    ensures Wf(Taken(h, i, n))
  {
    CarveTiled(h.tiles, h.end, i, n);
    CarveCoalesced(h.tiles, i, n);
    var a, c, b := h.tiles[..i], Carved(h.tiles[i], n), h.tiles[i + 1..];
    FreeOfConcat(a + c, b);
    FreeOfConcat(a, c);
    assert Last(Ring(a)) in Ring(a);
  }

  lemma ExtendKeeps(h: Heap, n: nat)
    requires Wf(h) && h.rover.At? && 1 <= n
    ensures Wf(Extended(h, n))
  {
    var t := Tile(h.end, n, true);
    TiledEnd(h.tiles, 1, h.end);
    assert Tiled([t], h.end, h.end + n) by { assert [t][1..] == []; }
    TiledConcat(h.tiles, [t], 1, h.end + n);
    CoalescedConcat(h.tiles, [t]);
    FreeOfConcat(h.tiles, [t]);
    FreeOfOne(t);
  }

  lemma ExtendLinked(ptr: seq<int>, size: seq<int>, h: Heap, n: nat)
    requires Wf(h) && 1 <= n && Linked(ptr, size, h.tiles) && h.end + n <= |ptr| == |size|
    ensures Linked(ptr[h.end := 0], size[h.end := n], Extended(h, n).tiles)
  {
    var t := Tile(h.end, n, true);
    FreeOfConcat(h.tiles, [t]);
    FreeOfOne(t);
    RingAscends(h.tiles, h.end);
    TiledBounds(h.tiles, 1, h.end);
    assert Ring(h.tiles + [t]) == Ring(h.tiles);
    forall k | 0 <= k < |Ring(h.tiles)|
      ensures Ring(h.tiles)[k] != h.end
    {
      assert Ring(h.tiles)[k] in Ring(h.tiles);
    }
  }

  lemma RoundedUp(n: nat)
    ensures n <= Rounded(n) < n + NALLOC
  {
  }

  predicate Multiple16(m: int) { m % 16 == 0 }

  /** m is the least multiple of 16 units that holds n. */
  predicate LeastMultiple(m: int, n: int)
  {
    Multiple16(m) && n <= m < n + 16
  }

  /** The region that ended at e ends at e', and has grown by the least multiple that holds n. */
  ghost predicate GrowsLeast(e: int, e': int, n: int)
  {
    forall b {:trigger Told(b)} :: Told(b) ==> LeastMultiple(e' - e, n)
  }

  predicate Told(b: bool) { true }

  /** No multiple of 16 units that holds n is left between e and `room`. */
  ghost predicate NoRoom(e: int, n: nat, room: int)
  {
    forall m: nat :: Multiple16(m) && n <= m ==> e + m > room
  }

  /** What `morecore` does about a region that ended at e: it refuses exactly when no room is left. */
  ghost predicate Answers(e: int, e': int, n: nat, room: int, refused: bool)
  {
    (refused <==> NoRoom(e, n, room)) && (!refused ==> GrowsLeast(e, e', n))
  }

  lemma AnswersBoth(e: int, n: nat, room: int)
    ensures if e + Rounded(n) > room then Answers(e, e, n, room, true) else Answers(e, e + Rounded(n), n, room, false)
  {
    RefusedExactly(e, n, room);
  }

  lemma RoundedLeast(n: nat)
    ensures LeastMultiple(Rounded(n), n)
  {
  }

  /** Any multiple of 16 that holds n is at least that. */
  lemma NoLess(m: nat, n: nat, l: int)
    requires Multiple16(m) && n <= m && LeastMultiple(l, n)
    ensures l <= m
  {
  }

  /** `xsbrk` refuses exactly when no multiple is left. */
  lemma RefusedExactly(e: int, n: nat, room: int)
    ensures NoRoom(e, n, room) <==> e + Rounded(n) > room
    ensures GrowsLeast(e, e + Rounded(n), n)
  {
    RoundedLeast(n);
    if e + Rounded(n) > room {
      forall m: nat | Multiple16(m) && n <= m ensures e + m > room { NoLess(m, n, Rounded(n)); }
    }
  }

  lemma GrownKeeps(h: Heap, n: nat)
    requires Wf(h) && h.rover.At? && 1 <= n
    ensures Wf(Grown(h, n))
  {
    RoundedUp(n);
    ExtendKeeps(h, Rounded(n));
    ReleaseKeeps(Extended(h, Rounded(n)), |h.tiles|);
  }

  /** After `morecore` the tiles are the old ones, except that the last one is new or has grown. */
  lemma GrownTiles(h: Heap, n: nat)
    ensures var t, g := Tile(h.end, Rounded(n), true), Grown(h, n).tiles;
      && g == Front(h.tiles) + [Absorbed(h.tiles, Melted(t, []))]
      && Last(g) == Absorbed(h.tiles, Melted(t, [])) && g[..|g| - 1] == Front(h.tiles)
  {
    var t := Tile(h.end, Rounded(n), true);
    var ts := h.tiles + [t];
    assert ts[|h.tiles| + 1..] == [] && ts[..|h.tiles|] == h.tiles;
  }

  /** So it is big enough, and the second search cannot fail. */
  lemma GrownFits(h: Heap, n: nat)
    ensures Fits(Grown(h, n).tiles, |Grown(h, n).tiles| - 1, n)
  {
    RoundedUp(n);
    GrownTiles(h, n);
  }

  /** ... and no other tile is: the ones before it were too small already. */
  lemma GrownFitsOnly(h: Heap, n: nat, i: int)
    requires NoFit(h.tiles, n) && Fits(Grown(h, n).tiles, i, n)
    ensures i == |Grown(h, n).tiles| - 1
  {
    GrownTiles(h, n);
    var g := Grown(h, n).tiles;
    assert forall j :: 0 <= j < |g| - 1 ==> g[j] == h.tiles[j];
    assert !Fits(h.tiles, i, n);
  }

  lemma LiveUnique(ts: seq<Tile>, end: nat, i: nat, a: nat)
    requires Tiled(ts, 1, end) && IsLive(ts, i, a)
    ensures forall j :: IsLive(ts, j, a) ==> j == i
  {
    TiledBounds(ts, 1, end);
    forall j | IsLive(ts, j, a)
      ensures j == i
    {
      assert ts[i] in ts && ts[j] in ts;
      if j < i { TiledDisjoint(ts, 1, end, j, i); }
      if i < j { TiledDisjoint(ts, 1, end, i, j); }
    }
  }

  // --------------------------------------------------------------- free's search

  /** Both exits of the search are taken at the ring element below the block, and only there. */
  lemma SearchStop(ptr: seq<int>, a: seq<Tile>, t: Tile, b: seq<Tile>, end: nat, k: nat)
    requires Pieces(a, t, b, end) && t.live && Links(ptr, Ring(Whole(a, t, b)))
    requires k < |Ring(Whole(a, t, b))|
    ensures var r := Ring(Whole(a, t, b));
      && |Ring(a)| <= |r| && r[|Ring(a)| - 1] == Below(a)
    ensures var r := Ring(Whole(a, t, b)); var p, q := t.start, r[k]; var n := ptr[q];
      && n == r[Next(k, |r|)]
      && ((p > q && p < n) || (q >= n && (p > q || p < n)) <==> k == |Ring(a)| - 1)
  {
    RingSplit(a, t, b, end);
    var r := Ring(Whole(a, t, b));
    assert r == Ring(a) + FreeOf(b);
    var m := |Ring(a)|;
    forall j | 0 <= j < |r|
      ensures j < m ==> r[j] < t.start
      ensures j >= m ==> t.start < r[j]
    {
      if j < m { assert r[j] in Ring(a); } else { assert r[j] in FreeOf(b); }
    }
    if k + 1 < |r| { assert r[k] < r[k + 1]; }
  }

  /** The position of that element in the ring. */
  function Goal(ts: seq<Tile>, i: nat): nat
    requires i <= |ts|
  {
    |Ring(ts[..i])| - 1
  }

  lemma SearchStopAt(ptr: seq<int>, h: Heap, i: nat, k: nat)
    requires Wf(h) && i < |h.tiles| && h.tiles[i].live && Links(ptr, Ring(h.tiles)) && k < |Ring(h.tiles)|
    ensures var r := Ring(h.tiles); var p, q := h.tiles[i].start, r[k]; var n := ptr[q];
      && Goal(h.tiles, i) < |r| && r[Goal(h.tiles, i)] == RingPred(h.tiles, i)
      && n == r[Next(k, |r|)]
      && ((p > q && p < n) || (q >= n && (p > q || p < n)) <==> k == Goal(h.tiles, i))
  {
    TiledSplit(h.tiles, i, 1, h.end);
    SearchStop(ptr, h.tiles[..i], h.tiles[i], h.tiles[i + 1..], h.end, k);
  }

  lemma ReleaseLinked(ptr: seq<int>, size: seq<int>, h: Heap, i: nat)
    requires Wf(h) && i < |h.tiles| && h.tiles[i].live && Linked(ptr, size, h.tiles) && h.end <= |ptr| == |size|
    ensures var q, p := RingPred(h.tiles, i), h.tiles[i].start;
      && q < p < |ptr| && 0 <= ptr[q] < |ptr| && ptr[q] != p
      && Linked(FreedPtr(ptr, size, q, p), FreedSize(ptr, size, q, p), Release(h.tiles, i))
  {
    var a, t, b := h.tiles[..i], h.tiles[i], h.tiles[i + 1..];
    TiledSplit(h.tiles, i, 1, h.end);
    ReleaseLinks(ptr, size, a, t, b, h.end);
    ReleaseSizes(ptr, size, a, t, b, h.end);
    TestAbove(ptr, size, a, t, b, h.end);
    RingSplit(a, t, b, h.end);
    if FreeOf(b) != [] { assert FreeOf(b)[0] in FreeOf(b); }
  }

  // ------------------------------------------------------------- malloc's search

  /** Every block that is big enough is still ahead of the search, which stands at p. */
  ghost predicate Unseen(h: Heap, n: nat, p: int)
  {
    h.rover.At? && 0 <= p &&
    forall j :: Fits(h.tiles, j, n) ==>
      Walk(h.rover.addr, p, h.end) <= Walk(h.rover.addr, h.tiles[j].start, h.end)
  }

  lemma FitInRing(ts: seq<Tile>, i: nat)
    requires i < |ts| && !ts[i].live
    ensures ts[i].start in Ring(ts)
  {
    assert ts == ts[..i] + [ts[i]] + ts[i + 1..];
    FreeOfThree(ts[..i], ts[i], ts[i + 1..]);
  }

  lemma StartUnseen(ptr: seq<int>, h: Heap, n: nat) returns (k: nat)
    requires Wf(h) && h.rover.At? && Links(ptr, Ring(h.tiles))
    ensures k < |Ring(h.tiles)| && Ring(h.tiles)[k] == h.rover.addr
    ensures h.rover.addr < |ptr| && ptr[h.rover.addr] == Ring(h.tiles)[Next(k, |Ring(h.tiles)|)]
    ensures Unseen(h, n, Ring(h.tiles)[Next(k, |Ring(h.tiles)|)])
  {
    var r := Ring(h.tiles);
    k :| 0 <= k < |r| && r[k] == h.rover.addr;
    RingAscends(h.tiles, h.end);
    forall j | Fits(h.tiles, j, n)
      ensures Walk(h.rover.addr, r[Next(k, |r|)], h.end) <= Walk(h.rover.addr, h.tiles[j].start, h.end)
    {
      FitInRing(h.tiles, j);
      WalkNext(r, h.end, h.rover.addr, k, h.tiles[j].start);
    }
  }

  /** Element k of the ring can be read, and its link leads to the next one. */
  lemma RingIn(ptr: seq<int>, h: Heap, k: nat)
    requires Wf(h) && Links(ptr, Ring(h.tiles)) && k < |Ring(h.tiles)|
    ensures var r := Ring(h.tiles);
      r[k] < |ptr| && ptr[r[k]] == r[Next(k, |r|)] && r[k] < h.end && r[Next(k, |r|)] < h.end
  {
    RingAscends(h.tiles, h.end);
    assert Ring(h.tiles)[k] in Ring(h.tiles);
    assert Ring(h.tiles)[Next(k, |Ring(h.tiles)|)] in Ring(h.tiles);
  }

  /** One step of the search, past an element that is too small. */
  lemma StepUnseen(size: seq<int>, h: Heap, n: nat, k: nat)
    requires Wf(h) && h.rover.At? && Sizes(size, h.tiles) && k < |Ring(h.tiles)|
    requires Unseen(h, n, Ring(h.tiles)[k])
    requires Ring(h.tiles)[k] < |size| && size[Ring(h.tiles)[k]] < n
    requires Ring(h.tiles)[k] != h.rover.addr
    ensures var p, p' := Ring(h.tiles)[k], Ring(h.tiles)[Next(k, |Ring(h.tiles)|)];
      Unseen(h, n, p') && Walk(h.rover.addr, p, h.end) < Walk(h.rover.addr, p', h.end)
  {
    var r, e, v := Ring(h.tiles), h.end, h.rover.addr;
    var p := r[k];
    RingAscends(h.tiles, e);
    assert p in r;
    WalkNext(r, e, v, k, p);
    assert forall x :: x in r ==> x < e;
    forall j | Fits(h.tiles, j, n)
      ensures Walk(v, r[Next(k, |r|)], e) <= Walk(v, h.tiles[j].start, e)
    {
      var x := h.tiles[j].start;
      FitInRing(h.tiles, j);
      assert h.tiles[j] in h.tiles && x != p;
      WalkDiffers(v, p, x, e);
      WalkNext(r, e, v, k, x);
    }
  }

  /** Different addresses are reached at different times. */
  lemma WalkDiffers(v: nat, x: nat, y: nat, e: nat)
    requires x < e && y < e && v < e && x != y
    ensures Walk(v, x, e) != Walk(v, y, e)
  {
  }

  /** Back at the rover with nothing found, every free block is too small. */
  lemma NothingFits(size: seq<int>, h: Heap, n: nat, p: nat)
    requires Wf(h) && h.rover == At(p) && Sizes(size, h.tiles) && Unseen(h, n, p)
    requires p < |size| && size[p] < n
    ensures NoFit(h.tiles, n)
  {
    RingAscends(h.tiles, h.end);
    TiledBounds(h.tiles, 1, h.end);
    forall j | 0 <= j < |h.tiles|
      ensures !Fits(h.tiles, j, n)
    {
      assert h.tiles[j] in h.tiles;
    }
  }

  /** The ring element that is big enough is a tile, and the next fit; q is the element below it. */
  lemma FoundTile(size: seq<int>, h: Heap, k: nat, n: nat) returns (i: nat)
    requires Wf(h) && h.rover.At? && Sizes(size, h.tiles) && k < |Ring(h.tiles)| && 0 < n
    requires var p := Ring(h.tiles)[Next(k, |Ring(h.tiles)|)];
      Unseen(h, n, p) && p < |size| && n <= size[p]
    ensures NextFit(h, n, i) && h.tiles[i].start == Ring(h.tiles)[Next(k, |Ring(h.tiles)|)]
    ensures RingPred(h.tiles, i) == Ring(h.tiles)[k]
    ensures size[h.tiles[i].start] == h.tiles[i].len
  {
    var r := Ring(h.tiles);
    var kp := Next(k, |r|);
    assert kp == k + 1;
    i := FreeOfIndex(h.tiles, k);
    FreeOfPrefix(h.tiles, i);
    assert h.tiles[i] in h.tiles;
  }

  // -------------------------------------------------------------- malloc's taking

  /** The `ptr` fields after tile i was taken: an exact fit leaves the ring. */
  function TakenPtr(ptr: seq<int>, ts: seq<Tile>, i: nat, n: nat): seq<int>
    requires Fits(ts, i, n) && RingPred(ts, i) < |ptr| && ts[i].start < |ptr|
  {
    if ts[i].len == n then ptr[RingPred(ts, i) := ptr[ts[i].start]] else ptr
  }

  /** The `size` fields: otherwise the block is cut and its tail gets a header. */
  function TakenSize(size: seq<int>, ts: seq<Tile>, i: nat, n: nat): seq<int>
    requires Fits(ts, i, n) && 0 < n && ts[i].start + ts[i].len <= |size|
  {
    if ts[i].len == n then size
    else size[ts[i].start := ts[i].len - n][ts[i].start + ts[i].len - n := n]
  }

  lemma CarveLinked(ptr: seq<int>, size: seq<int>, a: seq<Tile>, t: Tile, b: seq<Tile>, end: nat, n: nat)
    requires Pieces(a, t, b, end) && Linked(ptr, size, Whole(a, t, b)) && !t.live
    requires 0 < n <= t.len && end <= |ptr| == |size|
    ensures Below(a) < |ptr| && 1 <= t.start && t.start + t.len <= |ptr|
    ensures Linked(if t.len == n then ptr[Below(a) := ptr[t.start]] else ptr,
                   if t.len == n then size else size[t.start := t.len - n][t.start + t.len - n := n],
                   a + Carved(t, n) + b)
  {
    PiecesBounds(a, t, b, end);
    RingSplit(a, t, b, end);
    if t.len == n {
      CarveExact(ptr, size, a, t, b, end);
    } else {
      CarveTail(ptr, size, a, t, b, end, n);
    }
  }

  lemma TakeLinked(ptr: seq<int>, size: seq<int>, h: Heap, i: nat, n: nat)
    requires Wf(h) && Linked(ptr, size, h.tiles) && Fits(h.tiles, i, n) && 0 < n && h.end <= |ptr| == |size|
    ensures RingPred(h.tiles, i) < |ptr| && 1 <= h.tiles[i].start && h.tiles[i].start + h.tiles[i].len <= |ptr|
    ensures Linked(TakenPtr(ptr, h.tiles, i, n), TakenSize(size, h.tiles, i, n), Carve(h.tiles, i, n))
  {
    var a, t, b := h.tiles[..i], h.tiles[i], h.tiles[i + 1..];
    TiledSplit(h.tiles, i, 1, h.end);
    CarveLinked(ptr, size, a, t, b, h.end, n);
  }

  /** The heap in which the search of `malloc` walks: after `morecore` everything before was too small. */
  ghost predicate Searching(s: Heap, n: nat, room: nat, grown: bool, h: Heap)
  {
    if grown then s.end + Rounded(n) <= room && h == Grown(s, n) && NoFit(s.tiles, n) else h == s
  }

  /** How the search from heap s ended: refused in s itself, or with block i taken in heap h. */
  ghost predicate Searched(s: Heap, n: nat, room: nat, grown: bool, h: Heap, i: nat, h': Heap, r: Address)
  {
    && Searching(s, n, room, grown, h) && h.rover.At?
    && (r.Null? ==> !grown && h' == h && h.end + Rounded(n) > room && NoFit(h.tiles, n))
    && (r.At? ==> NextFit(h, n, i) && h' == Taken(h, i, n) && r.addr == Given(h.tiles, i, n) + 1)
  }

  lemma MallocSearched(h0: Heap, n: nat, room: nat, grown: bool, h: Heap, i: nat, h': Heap, r: Address)
    requires Searched(Started(h0), n, room, grown, h, i, h', r)
    ensures MallocStep(h0, n, room, h', r)
    ensures h'.end != h0.end ==> GrowsLeast(h0.end, h'.end, n)
  {
    var s := Started(h0);
    if r.Null? {
      assert Refuses(s, n, room, h', r);
    } else if grown {
      GrownFitsOnly(s, n, i);
      assert Grows(s, n, room, h', r);
    } else {
      assert Reuses(s, n, h', r);
    }
    MallocGrowth(h0, n, room, h', r);
  }

  /** When `malloc` grows the region, it is by the least multiple of 16 units that holds the request. */
  lemma MallocGrowth(h: Heap, n: nat, room: nat, h': Heap, r: Address)
    requires MallocStep(h, n, room, h', r)
    ensures h'.end != h.end ==> GrowsLeast(h.end, h'.end, n) && h'.end <= room && NoFit(h.tiles, n)
    ensures NoFit(h.tiles, n) && r.At? ==> GrowsLeast(h.end, h'.end, n) && h'.end <= room
    ensures NoFit(h.tiles, n) ==> (r.Null? <==> NoRoom(h.end, n, room))
  {
    RefusedExactly(h.end, n, room);
    var s := Started(h);
    if Reuses(s, n, h', r) {
      var i :| NextFit(s, n, i) && h' == Taken(s, i, n);
    }
  }

  lemma MallocGrows(s: Heap, n: nat, room: nat, h: Heap)
    requires Searching(s, n, room, false, h)
    requires h.end + Rounded(n) <= room && NoFit(h.tiles, n)
    ensures Searching(s, n, room, true, Grown(h, n))
  {
  }

  /** `morecore` is called at most once. */
  lemma GrowsOnce(s: Heap, n: nat, room: nat, grown: bool, h: Heap)
    requires Searching(s, n, room, grown, h) && NoFit(h.tiles, n)
    ensures !grown
  {
    if grown {
      GrownFits(s, n);
    }
  }

  /** Everything `free` needs to know about the heap it leaves. */
  lemma FreeDone(ptr: seq<int>, size: seq<int>, h: Heap, i: nat, p: nat)
    requires Wf(h) && IsLive(h.tiles, i, p) && Linked(ptr, size, h.tiles) && h.end <= |ptr| == |size|
    ensures var q, h' := RingPred(h.tiles, i), Freed(h, i);
      && q < p < |ptr| && 0 <= ptr[q] < |ptr| && ptr[q] != p
      && Linked(FreedPtr(ptr, size, q, p), FreedSize(ptr, size, q, p), h'.tiles)
      && Wf(h') && h'.end == h.end && h'.rover == At(q) && h'.tiles != []
  {
    ReleaseLinked(ptr, size, h, i);
    ReleaseKeeps(h, i);
  }

  /** Everything `malloc` needs to know about the heap it leaves. */
  lemma TakeDone(ptr: seq<int>, size: seq<int>, h: Heap, i: nat, n: nat)
    requires Wf(h) && Linked(ptr, size, h.tiles) && Fits(h.tiles, i, n) && 0 < n && h.end <= |ptr| == |size|
    ensures RingPred(h.tiles, i) < |ptr| && 1 <= h.tiles[i].start && h.tiles[i].start + h.tiles[i].len <= |ptr|
    ensures size[h.tiles[i].start] == h.tiles[i].len
    ensures var h' := Taken(h, i, n);
      && Linked(TakenPtr(ptr, h.tiles, i, n), TakenSize(size, h.tiles, i, n), h'.tiles)
      && Wf(h') && h'.end == h.end && h'.rover == At(RingPred(h.tiles, i)) && h'.tiles != []
  {
    TakeLinked(ptr, size, h, i, n);
    TakeKeeps(h, i, n);
    assert h.tiles[i] in h.tiles;
  }
}
