/**
 The heap seen from above: the region handed out by `xsbrk` is a sequence of tiles in
 address order, each either live (returned by `malloc` and not yet freed) or free.

 Addresses are counted in header units. The static header `base` is unit 0 and the region
 starts at unit 1, so `base` lies below every block, as the linker places it.
 */
module HeapSpec {

  datatype Tile = Tile(start: nat, len: nat, live: bool)

  /** `Null` is the initial NULL, both of `allocp` and of a failed `malloc`. */
  datatype Address = Null | At(addr: nat)

  /** One abstract heap: its tiles, its rover `allocp`, and the first unit not yet obtained. */
  datatype Heap = Heap(tiles: seq<Tile>, rover: Address, end: nat)

  const UNIT := 8    // sizeof (HEADER)
  const NALLOC := 16

  // ------------------------------------------------------------------ tilings

  /** The tiles cover [s, e) without gap or overlap, each one unit long at least. */
  ghost predicate Tiled(ts: seq<Tile>, s: nat, e: nat)
  {
    if ts == [] then s == e
    else ts[0].start == s && 1 <= ts[0].len && Tiled(ts[1..], s + ts[0].len, e)
  }

  /** No two free tiles touch: `free` has coalesced everything it could. */
  ghost predicate Coalesced(ts: seq<Tile>)
  {
    forall i :: 0 < i < |ts| ==> ts[i - 1].live || ts[i].live
  }

  /** Start addresses of the free tiles, in address order. */
  function FreeOf(ts: seq<Tile>): seq<nat>
  {
    if ts == [] then []
    else (if ts[0].live then [] else [ts[0].start]) + FreeOf(ts[1..])
  }

  /** The free list as a cyclic sequence: `base` and then the free blocks, lowest first. */
  function Ring(ts: seq<Tile>): seq<nat>
  {
    [0] + FreeOf(ts)
  }

  function Last<T>(s: seq<T>): T
    requires s != []
  {
    s[|s| - 1]
  }

  function Units(ts: seq<Tile>, live: bool): nat
  {
    if ts == [] then 0
    else (if ts[0].live == live then ts[0].len else 0) + Units(ts[1..], live)
  }

  ghost predicate Wf(h: Heap)
  {
    && Tiled(h.tiles, 1, h.end)
    && Coalesced(h.tiles)
    && (h.rover.Null? ==> h.tiles == [])
    && (h.rover.At? ==> h.rover.addr in Ring(h.tiles))
  }

  const EMPTY := Heap([], Null, 1)

  // --------------------------------------------------------------- operations

  /** The whole tiling with tile t between the tiles a and the tiles b. */
  function Whole(a: seq<Tile>, t: Tile, b: seq<Tile>): seq<Tile>
  {
    a + [t] + b
  }

  /** The tile below is free: it will absorb. */
  predicate TouchesBelow(a: seq<Tile>) { a != [] && !Last(a).live }

  /** The tile above is free: it will be absorbed. */
  predicate TouchesAbove(b: seq<Tile>) { b != [] && !b[0].live }

  function Rest(b: seq<Tile>): seq<Tile> { if TouchesAbove(b) then b[1..] else b }

  function Front(a: seq<Tile>): seq<Tile> { if TouchesBelow(a) then a[..|a| - 1] else a }

  /** Tile t, free now, with a free tile above absorbed. */
  function Melted(t: Tile, b: seq<Tile>): Tile
  {
    Tile(t.start, if TouchesAbove(b) then t.len + b[0].len else t.len, false)
  }

  /** ... and itself absorbed by a free tile below. */
  function Absorbed(a: seq<Tile>, t: Tile): Tile
  {
    if TouchesBelow(a) then Tile(Last(a).start, Last(a).len + t.len, false) else t
  }

  /** The tiling after tile t was released. */
  function Released(a: seq<Tile>, t: Tile, b: seq<Tile>): seq<Tile>
  {
    Whole(Front(a), Absorbed(a, Melted(t, b)), Rest(b))
  }

  /** Tile i becomes free and melts into its free neighbours. */
  function Release(ts: seq<Tile>, i: nat): seq<Tile>
    requires i < |ts|
  {
    Released(ts[..i], ts[i], ts[i + 1..])
  }

  /** Take n units from the tail of a free tile. */
  function Carved(t: Tile, n: nat): seq<Tile>
    requires n <= t.len
  {
    if t.len == n then [t.(live := true)]
    else [t.(len := t.len - n), Tile(t.start + t.len - n, n, true)]
  }

  function Carve(ts: seq<Tile>, i: nat, n: nat): seq<Tile>
    requires i < |ts| && n <= ts[i].len
  {
    ts[..i] + Carved(ts[i], n) + ts[i + 1..]
  }

  /** The ring element before the one that tile i is, or would be. */
  function RingPred(ts: seq<Tile>, i: nat): nat
    requires i <= |ts|
  {
    Last(Ring(ts[..i]))
  }

  /** How far the search that starts behind `rover` walks before it looks at address a. */
  function Walk(rover: nat, a: nat, end: nat): int
  {
    if a > rover then a - rover else a - rover + end
  }

  predicate Fits(ts: seq<Tile>, i: int, n: nat)
  {
    0 <= i < |ts| && !ts[i].live && n <= ts[i].len
  }

  /** Next fit: tile i is the first one from the rover that is big enough. */
  ghost predicate NextFit(h: Heap, n: nat, i: int)
    requires h.rover.At?
  {
    && Fits(h.tiles, i, n)
    && forall j :: Fits(h.tiles, j, n) ==>
         Walk(h.rover.addr, h.tiles[i].start, h.end) <= Walk(h.rover.addr, h.tiles[j].start, h.end)
  }

  /** Units that `morecore` asks for: a multiple of NALLOC. */
  function Rounded(n: nat): nat { NALLOC * ((n + NALLOC - 1) / NALLOC) }

  /** The NULL rover becomes `base` on the first call. */
  function Started(h: Heap): Heap
  {
    if h.rover.Null? then h.(rover := At(0)) else h
  }

  /** Tile i is taken by `malloc` of n units. */
  function Taken(h: Heap, i: nat, n: nat): Heap
    requires Fits(h.tiles, i, n)
  {
    h.(tiles := Carve(h.tiles, i, n), rover := At(RingPred(h.tiles, i)))
  }

  /** The block that `Carve` makes live: what `malloc` returns is the unit behind its header. */
  function Given(ts: seq<Tile>, i: nat, n: nat): nat
    requires Fits(ts, i, n)
  {
    ts[i].start + ts[i].len - n
  }

  function Freed(h: Heap, i: nat): Heap
    requires i < |h.tiles|
  {
    h.(tiles := Release(h.tiles, i), rover := At(RingPred(h.tiles, i)))
  }

  /** The region after `xsbrk` gave a new block of n units, still marked live. */
  function Extended(h: Heap, n: nat): Heap
  {
    h.(tiles := h.tiles + [Tile(h.end, n, true)], end := h.end + n)
  }

  /** `morecore`: the new block at the end is freed at once. */
  function Grown(h: Heap, n: nat): Heap
  {
    Freed(Extended(h, Rounded(n)), |h.tiles|)
  }

  ghost predicate NoFit(ts: seq<Tile>, n: nat)
  {
    forall i :: !Fits(ts, i, n)
  }

  /** The next fit is taken. */
  ghost predicate Reuses(s: Heap, n: nat, h': Heap, r: Address)
    requires s.rover.At?
  {
    exists i :: NextFit(s, n, i) && h' == Taken(s, i, n) && r == At(Given(s.tiles, i, n) + 1)
  }

  /** Nothing fits and `xsbrk` refuses. */
  ghost predicate Refuses(s: Heap, n: nat, room: nat, h': Heap, r: Address)
  {
    NoFit(s.tiles, n) && s.end + Rounded(n) > room && h' == s && r == Null
  }

  /** Nothing fits, the region grows, and its last tile is taken. */
  ghost predicate Grows(s: Heap, n: nat, room: nat, h': Heap, r: Address)
  {
    var g := Grown(s, n);
    && NoFit(s.tiles, n) && s.end + Rounded(n) <= room
    && Fits(g.tiles, |g.tiles| - 1, n)
    && h' == Taken(g, |g.tiles| - 1, n) && r == At(Given(g.tiles, |g.tiles| - 1, n) + 1)
  }

  /** What `malloc` of n units does when the region may grow up to unit `room`. */
  ghost predicate MallocStep(h: Heap, n: nat, room: nat, h': Heap, r: Address)
  {
    || Reuses(Started(h), n, h', r)
    || Refuses(Started(h), n, room, h', r)
    || Grows(Started(h), n, room, h', r)
  }

  predicate IsLive(ts: seq<Tile>, i: int, a: nat)
  {
    0 <= i < |ts| && ts[i].start == a && ts[i].live
  }

  ghost predicate LiveAt(ts: seq<Tile>, a: nat)
  {
    exists i :: IsLive(ts, i, a)
  }

  /** What `free` does with the live block whose header is at `a`. */
  ghost predicate FreeStep(h: Heap, a: nat, h': Heap)
  {
    exists i :: IsLive(h.tiles, i, a) && h' == Freed(h, i)
  }

  // ---------------------------------------------------------- facts about tilings

  function EndOf(ts: seq<Tile>, s: nat): nat
  {
    if ts == [] then s else Last(ts).start + Last(ts).len
  }

  lemma {:induction false} TiledConcat(a: seq<Tile>, b: seq<Tile>, s: nat, e: nat)
    ensures Tiled(a + b, s, e) <==> Tiled(a, s, EndOf(a, s)) && Tiled(b, EndOf(a, s), e)
  {
    if a == [] {
      assert a + b == b;
    } else {
      assert (a + b)[1..] == a[1..] + b;
      TiledConcat(a[1..], b, s + a[0].len, e);
      if |a| == 1 {
        assert a[1..] == [];
      } else {
        assert Last(a) == Last(a[1..]);
        assert EndOf(a[1..], s + a[0].len) == EndOf(a, s);
      }
    }
  }

  /** The three pieces around tile i. */
  lemma TiledSplit(ts: seq<Tile>, i: nat, s: nat, e: nat)
    requires Tiled(ts, s, e) && i < |ts|
    ensures ts == ts[..i] + [ts[i]] + ts[i + 1..]
    ensures Tiled(ts[..i], s, ts[i].start) && 1 <= ts[i].len
    ensures Tiled(ts[i + 1..], ts[i].start + ts[i].len, e)
  {
    assert ts == ts[..i] + ts[i..];
    TiledConcat(ts[..i], ts[i..], s, e);
    assert ts[i..][1..] == ts[i + 1..];
  }

  /** Putting pieces together again. */
  lemma TiledJoin(a: seq<Tile>, m: seq<Tile>, b: seq<Tile>, s: nat, e1: nat, e2: nat, e: nat)
    requires Tiled(a, s, e1) && Tiled(m, e1, e2) && Tiled(b, e2, e)
    ensures Tiled(a + m + b, s, e)
  {
    TiledEnd(a, s, e1);
    TiledConcat(a, m, s, e2);
    TiledEnd(a + m, s, e2);
    TiledConcat(a + m, b, s, e);
  }

  lemma {:induction false} TiledEnd(ts: seq<Tile>, s: nat, e: nat)
    requires Tiled(ts, s, e)
    ensures EndOf(ts, s) == e && s <= e
  {
    if |ts| == 1 {
      assert ts[1..] == [];
    } else if |ts| > 1 {
      TiledEnd(ts[1..], s + ts[0].len, e);
      assert Last(ts) == Last(ts[1..]);
    }
  }

  lemma {:induction false} TiledBounds(ts: seq<Tile>, s: nat, e: nat)
    requires Tiled(ts, s, e)
    ensures s <= e
    ensures forall t :: t in ts ==> s <= t.start && 1 <= t.len && t.start + t.len <= e
  {
    if ts != [] {
      TiledBounds(ts[1..], s + ts[0].len, e);
    }
  }

  /** Two tiles at different places do not overlap. */
  lemma TiledDisjoint(ts: seq<Tile>, s: nat, e: nat, i: nat, j: nat)
    requires Tiled(ts, s, e) && i < j < |ts|
    ensures ts[i].start + ts[i].len <= ts[j].start
  {
    TiledSplit(ts, j, s, e);
    TiledBounds(ts[..j], s, ts[j].start);
    assert ts[..j][i] in ts[..j];
  }

  // ---------------------------------------------------------- facts about FreeOf

  lemma {:induction false} FreeOfConcat(a: seq<Tile>, b: seq<Tile>)
    ensures FreeOf(a + b) == FreeOf(a) + FreeOf(b)
  {
    if a == [] {
      assert a + b == b;
    } else {
      assert (a + b)[1..] == a[1..] + b;
      FreeOfConcat(a[1..], b);
    }
  }

  lemma FreeOfOne(t: Tile)
    ensures FreeOf([t]) == if t.live then [] else [t.start]
  {
    assert [t][1..] == [];
  }

  lemma FreeOfThree(a: seq<Tile>, t: Tile, b: seq<Tile>)
    ensures FreeOf(a + [t] + b) == FreeOf(a) + (if t.live then [] else [t.start]) + FreeOf(b)
  {
    FreeOfConcat(a + [t], b);
    FreeOfConcat(a, [t]);
    FreeOfOne(t);
  }

  lemma {:induction false} UnitsConcat(a: seq<Tile>, b: seq<Tile>, live: bool)
    ensures Units(a + b, live) == Units(a, live) + Units(b, live)
  {
    if a == [] {
      assert a + b == b;
    } else {
      assert (a + b)[1..] == a[1..] + b;
      UnitsConcat(a[1..], b, live);
    }
  }

  /** Entry k of the free list is a free tile. */
  lemma {:induction false} FreeOfIndex(ts: seq<Tile>, k: nat) returns (i: nat)
    requires k < |FreeOf(ts)|
    ensures i < |ts| && !ts[i].live && ts[i].start == FreeOf(ts)[k]
    ensures |FreeOf(ts[..i])| == k
  {
    if !ts[0].live && k == 0 {
      i := 0;
    } else {
      var j := FreeOfIndex(ts[1..], if ts[0].live then k else k - 1);
      i := j + 1;
      assert ts[..i] == [ts[0]] + ts[1..][..j];
      FreeOfConcat([ts[0]], ts[1..][..j]);
      FreeOfOne(ts[0]);
    }
  }

  lemma FreeOfPrefix(ts: seq<Tile>, i: nat)
    requires i <= |ts|
    ensures FreeOf(ts[..i]) <= FreeOf(ts)
  {
    assert ts == ts[..i] + ts[i..];
    FreeOfConcat(ts[..i], ts[i..]);
  }

  ghost predicate Ascending(r: seq<nat>)
  {
    forall j, k :: 0 <= j < k < |r| ==> r[j] < r[k]
  }

  /** The free list is address-ascending. */
  lemma {:induction false} FreeOfAscends(ts: seq<Tile>, s: nat, e: nat)
    requires Tiled(ts, s, e)
    ensures s <= e && Ascending(FreeOf(ts)) && forall a :: a in FreeOf(ts) ==> s <= a < e
  {
    if ts != [] {
      FreeOfAscends(ts[1..], s + ts[0].len, e);
      var f := FreeOf(ts[1..]);
      forall k | 0 <= k < |f|
        ensures ts[0].start < f[k]
      {
        assert f[k] in f;
      }
    }
  }

  lemma RingAscends(ts: seq<Tile>, e: nat)
    requires Tiled(ts, 1, e)
    ensures 1 <= e && Ascending(Ring(ts)) && forall a :: a in Ring(ts) ==> a < e
  {
    FreeOfAscends(ts, 1, e);
    forall k | 0 <= k < |FreeOf(ts)|
      ensures 0 < FreeOf(ts)[k]
    {
      assert FreeOf(ts)[k] in FreeOf(ts);
    }
  }

  // ------------------------------------------------------- what the steps preserve

  lemma CarveTiled(ts: seq<Tile>, e: nat, i: nat, n: nat)
    requires Tiled(ts, 1, e) && Fits(ts, i, n) && 0 < n
    ensures Tiled(Carve(ts, i, n), 1, e)
  {
    TiledSplit(ts, i, 1, e);
    TiledJoin(ts[..i], Carved(ts[i], n), ts[i + 1..], 1, ts[i].start, ts[i].start + ts[i].len, e);
  }

  lemma FrontTiled(a: seq<Tile>, t: Tile, e: nat)
    requires Tiled(a, 1, t.start) && 1 <= t.len
    ensures Tiled(Front(a), 1, Absorbed(a, t).start)
    ensures Absorbed(a, t).start + Absorbed(a, t).len == t.start + t.len && 1 <= Absorbed(a, t).len
  {
    if TouchesBelow(a) {
      TiledSplit(a, |a| - 1, 1, t.start);
      TiledEnd(a, 1, t.start);
    }
  }

  lemma ReleasedTiled(a: seq<Tile>, t: Tile, b: seq<Tile>, e: nat)
    requires Tiled(a, 1, t.start) && 1 <= t.len && Tiled(b, t.start + t.len, e)
    ensures Tiled(Released(a, t, b), 1, e)
  {
    var m := Melted(t, b);
    var x := Absorbed(a, m);
    FrontTiled(a, m, e);
    assert [x][1..] == [];
    TiledJoin(Front(a), [x], Rest(b), 1, x.start, x.start + x.len, e);
  }

  /** Where the pieces meet, one side is live. */
  lemma CoalescedConcat(a: seq<Tile>, b: seq<Tile>)
    ensures Coalesced(a + b) <==>
      Coalesced(a) && Coalesced(b) && (a != [] && b != [] ==> Last(a).live || b[0].live)
  {
    var c := a + b;
    if Coalesced(c) {
      forall i | 0 < i < |a| ensures a[i - 1].live || a[i].live { assert c[i - 1].live || c[i].live; }
      forall i | 0 < i < |b| ensures b[i - 1].live || b[i].live { assert c[|a| + i - 1].live || c[|a| + i].live; }
      if a != [] && b != [] { assert c[|a| - 1].live || c[|a|].live; }
    } else {
      var i :| 0 < i < |c| && !(c[i - 1].live || c[i].live);
      if i < |a| {
        assert !(a[i - 1].live || a[i].live);
      } else if i > |a| {
        assert !(b[i - |a| - 1].live || b[i - |a|].live);
      }
    }
  }

  lemma CarveCoalesced(ts: seq<Tile>, i: nat, n: nat)
    requires Coalesced(ts) && Fits(ts, i, n)
    ensures Coalesced(Carve(ts, i, n))
  {
    var a, b, c := ts[..i], ts[i + 1..], Carved(ts[i], n);
    assert ts == a + [ts[i]] + b;
    CoalescedConcat(a + [ts[i]], b);
    CoalescedConcat(a, [ts[i]]);
    CoalescedConcat(a + c, b);
    CoalescedConcat(a, c);
  }

  lemma CoalescedWhole(a: seq<Tile>, t: Tile, b: seq<Tile>)
    ensures Coalesced(Whole(a, t, b)) <==>
      Coalesced(a) && Coalesced(b) && (!t.live ==> !TouchesBelow(a) && !TouchesAbove(b))
  {
    CoalescedConcat(a + [t], b);
    CoalescedConcat(a, [t]);
  }

  /** Coalescing is complete: whatever was free around tile t, no two free tiles touch afterwards. */
  lemma ReleasedCoalesced(a: seq<Tile>, t: Tile, b: seq<Tile>)
    requires Coalesced(Whole(a, t, b)) && t.live
    ensures Coalesced(Released(a, t, b))
  {
    CoalescedWhole(a, t, b);
    if TouchesAbove(b) {
      assert b == [b[0]] + b[1..];
      CoalescedConcat([b[0]], b[1..]);
    }
    if TouchesBelow(a) {
      assert a == a[..|a| - 1] + [Last(a)];
      CoalescedConcat(a[..|a| - 1], [Last(a)]);
    }
    CoalescedWhole(Front(a), Absorbed(a, Melted(t, b)), Rest(b));
  }
}
