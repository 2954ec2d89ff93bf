/**
 The memory inside the blocks: what `malloc` and `free` leave alone, and what a caller may write.
 */
module HeapMemory {
  import opened HeapSpec
  import opened HeapLinks
  import opened HeapSearch

  /** Every unit is two words; a header has `ptr` and `size` there. */
  datatype Memory = Memory(ptr: seq<int>, size: seq<int>)

  predicate Live(ts: seq<Tile>, t: Tile) { t in ts && t.live }

  /** A unit of the block behind its header. */
  predicate Inside(t: Tile, a: int) { t.start < a < t.start + t.len }

  /** No unit inside a block that is live in ts differs. */
  ghost predicate Spared(ts: seq<Tile>, m: Memory, m': Memory)
  {
    && |m'.ptr| == |m.ptr| && |m'.size| == |m.size|
    && forall t, a {:trigger Inside(t, a)} ::
         Live(ts, t) && Inside(t, a) && a < |m.ptr| && a < |m.size| ==> m'.ptr[a] == m.ptr[a] && m'.size[a] == m.size[a]
  }

  /** ... and all these blocks are still live. */
  ghost predicate Undisturbed(ts: seq<Tile>, m: Memory, ts': seq<Tile>, m': Memory)
  {
    Spared(ts, m, m') && forall t {:trigger Live(ts', t)} :: Live(ts, t) ==> Live(ts', t)
  }

  lemma StillUndisturbed(ts0: seq<Tile>, m0: Memory, ts1: seq<Tile>, m1: Memory, ts2: seq<Tile>, m2: Memory)
    requires Undisturbed(ts0, m0, ts1, m1) && Undisturbed(ts1, m1, ts2, m2)
    ensures Undisturbed(ts0, m0, ts2, m2)
  {
    forall t, a | Live(ts0, t) && Inside(t, a) && a < |m0.ptr| && a < |m0.size|
      ensures m2.ptr[a] == m0.ptr[a] && m2.size[a] == m0.size[a]
    {
      assert Live(ts1, t);
    }
    forall t | Live(ts0, t) ensures Live(ts2, t) {
      assert Live(ts1, t);
    }
  }

  // -------------------------------------------------------------------- where headers are

  /** Unit a is inside no live block. */
  ghost predicate Apart(ts: seq<Tile>, a: int)
  {
    forall t {:trigger Live(ts, t)} :: Live(ts, t) ==> !Inside(t, a)
  }

  /** Tiles start outside of all others, and units of a free tile are inside no live one. */
  lemma TileApart(ts: seq<Tile>, end: nat, i: nat, a: nat)
    requires Tiled(ts, 1, end) && i < |ts|
    requires a == ts[i].start || (!ts[i].live && ts[i].start <= a < ts[i].start + ts[i].len)
    ensures Apart(ts, a)
  {
    TiledBounds(ts, 1, end);
    forall t | Live(ts, t) ensures !Inside(t, a) {
      var j :| 0 <= j < |ts| && ts[j] == t;
      assert ts[i] in ts;
      if j < i { TiledDisjoint(ts, 1, end, j, i); }
      if i < j { TiledDisjoint(ts, 1, end, i, j); }
    }
  }

  lemma RingApart(ts: seq<Tile>, end: nat, k: nat)
    requires Tiled(ts, 1, end) && k < |Ring(ts)|
    ensures Apart(ts, Ring(ts)[k])
  {
    TiledBounds(ts, 1, end);
    if k > 0 {
      var i := FreeOfIndex(ts, k - 1);
      TileApart(ts, end, i, ts[i].start);
    }
  }

  lemma BelowApart(ts: seq<Tile>, end: nat, i: nat)
    requires Tiled(ts, 1, end) && i <= |ts|
    ensures Apart(ts, RingPred(ts, i))
  {
    FreeOfPrefix(ts, i);
    var k := |FreeOf(ts[..i])|;
    assert Ring(ts)[k] == Ring(ts[..i])[k];
    RingApart(ts, end, k);
  }

  /** The memory differs at most at three units. */
  ghost predicate OnlyAt(m: Memory, m': Memory, x: int, y: int, z: int)
  {
    && |m'.ptr| == |m.ptr| && |m'.size| == |m.size|
    && (forall a :: 0 <= a < |m.ptr| && a != x && a != y && a != z ==> m'.ptr[a] == m.ptr[a])
    && (forall a :: 0 <= a < |m.size| && a != x && a != y && a != z ==> m'.size[a] == m.size[a])
  }

  lemma HeadersSpare(ts: seq<Tile>, m: Memory, m': Memory, x: int, y: int, z: int)
    requires OnlyAt(m, m', x, y, z) && Apart(ts, x) && Apart(ts, y) && Apart(ts, z)
    ensures Spared(ts, m, m')
  {
  }

  // ------------------------------------------------------------------------ the operations

  /** `free` writes headers only. */
  lemma FreeSpares(m: Memory, h: Heap, i: nat, q: nat, p: nat)
    requires Wf(h) && IsLive(h.tiles, i, p) && q == RingPred(h.tiles, i)
    requires q < |m.ptr| == |m.size| && p < |m.ptr| && 0 <= m.ptr[q] < |m.ptr|
    ensures Spared(h.tiles, m, Memory(FreedPtr(m.ptr, m.size, q, p), FreedSize(m.ptr, m.size, q, p)))
  {
    BelowApart(h.tiles, h.end, i);
    TileApart(h.tiles, h.end, i, p);
    var m' := Memory(FreedPtr(m.ptr, m.size, q, p), FreedSize(m.ptr, m.size, q, p));
    HeadersSpare(h.tiles, m, m', q, p, p);
  }

  /** The live blocks in one heap are those in the other, but for t. */
  ghost predicate SameLiveBut(ts: seq<Tile>, ts': seq<Tile>, t: Tile)
  {
    && t.live && t !in ts && t in ts'
    && forall x: Tile :: x.live && x != t ==> (x in ts <==> x in ts')
  }

  lemma CarveLive(ts: seq<Tile>, end: nat, i: nat, n: nat)
    requires Tiled(ts, 1, end) && Fits(ts, i, n) && 0 < n
    ensures SameLiveBut(ts, Carve(ts, i, n), Tile(Given(ts, i, n), n, true))
  {
    var a, b, c, t := ts[..i], ts[i + 1..], Carved(ts[i], n), Tile(Given(ts, i, n), n, true);
    assert ts == a + [ts[i]] + b;
    assert t == c[|c| - 1];
    TiledSplit(ts, i, 1, end);
    TiledBounds(a, 1, ts[i].start);
    TiledBounds(b, ts[i].start + ts[i].len, end);
    assert t !in a && t !in b;
  }

  lemma ReleaseLive(ts: seq<Tile>, end: nat, i: nat)
    requires Tiled(ts, 1, end) && i < |ts| && ts[i].live
    ensures SameLiveBut(Release(ts, i), ts, ts[i])
  {
    var a, t, b := ts[..i], ts[i], ts[i + 1..];
    TiledSplit(ts, i, 1, end);
    TiledBounds(a, 1, t.start);
    TiledBounds(b, t.start + t.len, end);
    assert ts == Whole(a, t, b);
    assert a == if TouchesBelow(a) then Front(a) + [Last(a)] else Front(a);
    assert b == if TouchesAbove(b) then [b[0]] + Rest(b) else Rest(b);
    assert t !in Front(a) && t !in Rest(b);
  }

  /** Taking a block writes headers and units of the free block that it comes from. */
  lemma TakeSpares(m: Memory, h: Heap, i: nat, n: nat, m': Memory)
    requires Wf(h) && Fits(h.tiles, i, n) && 0 < n && h.end <= |m.ptr| == |m.size|
    requires RingPred(h.tiles, i) < |m.ptr| && h.tiles[i].start + h.tiles[i].len <= |m.ptr|
    requires m' == Memory(TakenPtr(m.ptr, h.tiles, i, n), TakenSize(m.size, h.tiles, i, n))
    ensures Undisturbed(h.tiles, m, Taken(h, i, n).tiles, m')
  {
    var t := h.tiles[i];
    BelowApart(h.tiles, h.end, i);
    TileApart(h.tiles, h.end, i, t.start);
    TileApart(h.tiles, h.end, i, Given(h.tiles, i, n));
    HeadersSpare(h.tiles, m, m', RingPred(h.tiles, i), t.start, Given(h.tiles, i, n));
    CarveLive(h.tiles, h.end, i, n);
  }

  /** The memory after `malloc` took n units of the free block at p behind ring element q. */
  function Took(m: Memory, q: nat, p: nat, n: nat): Memory
    requires q < |m.ptr| == |m.size| && p < |m.ptr| && 0 < n <= m.size[p] && p + m.size[p] <= |m.size|
  {
    if m.size[p] == n then m.(ptr := m.ptr[q := m.ptr[p]])
    else m.(size := m.size[p := m.size[p] - n][p + m.size[p] - n := n])
  }

  lemma TookDone(m: Memory, h: Heap, i: nat, n: nat, q: nat, p: nat)
    requires Wf(h) && Linked(m.ptr, m.size, h.tiles) && Fits(h.tiles, i, n) && 0 < n && h.end <= |m.ptr| == |m.size|
    requires q == RingPred(h.tiles, i) && p == h.tiles[i].start
    ensures q < |m.ptr| && p < |m.ptr| && n <= m.size[p] && p + m.size[p] <= |m.size|
    ensures p + m.size[p] - n == Given(h.tiles, i, n)
    ensures var h', m' := Taken(h, i, n), Took(m, q, p, n);
      && Linked(m'.ptr, m'.size, h'.tiles) && Undisturbed(h.tiles, m, h'.tiles, m')
      && Wf(h') && h'.end == h.end && h'.rover == At(q) && h'.tiles != []
  {
    TakeDone(m.ptr, m.size, h, i, n);
    TakeSpares(m, h, i, n, Memory(TakenPtr(m.ptr, h.tiles, i, n), TakenSize(m.size, h.tiles, i, n)));
  }

  /** The memory after `morecore` put a header behind the region. */
  function Headed(m: Memory, up: nat, n: nat): Memory
    requires up < |m.ptr| == |m.size|
  {
    Memory(m.ptr[up := 0], m.size[up := n])
  }

  lemma HeadedDone(m: Memory, h: Heap, n: nat)
    requires Wf(h) && h.rover.At? && 1 <= n && Linked(m.ptr, m.size, h.tiles) && h.end + n <= |m.ptr| == |m.size|
    ensures var g, m1 := Extended(h, n), Headed(m, h.end, n);
      Wf(g) && Linked(m1.ptr, m1.size, g.tiles) && IsLive(g.tiles, |h.tiles|, h.end)
  {
    ExtendLinked(m.ptr, m.size, h, n);
    ExtendKeeps(h, n);
  }

  /** Freed at once, it is the growth of the heap, whichever tile `free` found it to be. */
  lemma GrowDone(m: Memory, h: Heap, n: nat, i: nat, m2: Memory)
    requires Wf(h) && h.rover.At? && 1 <= n && h.end < |m.ptr| == |m.size|
    requires IsLive(Extended(h, n).tiles, i, h.end) && Spared(Extended(h, n).tiles, Headed(m, h.end, n), m2)
    ensures i == |h.tiles| && Undisturbed(h.tiles, m, Freed(Extended(h, n), i).tiles, m2)
  {
    ExtendKeeps(h, n);
    LiveUnique(Extended(h, n).tiles, h.end + n, |h.tiles|, h.end);
    GrowSpares(m, h, n, Headed(m, h.end, n), m2);
  }

  /** Growing writes behind the region, and then only headers. */
  lemma GrowSpares(m: Memory, h: Heap, n: nat, m1: Memory, m2: Memory)
    requires Wf(h) && h.rover.At? && 1 <= n && h.end < |m.ptr| == |m.size|
    requires OnlyAt(m, m1, h.end, h.end, h.end) && Spared(Extended(h, n).tiles, m1, m2)
    ensures Undisturbed(h.tiles, m, Freed(Extended(h, n), |h.tiles|).tiles, m2)
  {
    var g, t := Extended(h, n), Tile(h.end, n, true);
    ExtendKeeps(h, n);
    TiledBounds(h.tiles, 1, h.end);
    HeadersSpare(h.tiles, m, m1, h.end, h.end, h.end);
    ReleaseLive(g.tiles, g.end, |h.tiles|);
    assert g.tiles[|h.tiles|] == t;
    forall u | Live(h.tiles, u) ensures Live(g.tiles, u) && u != t {
      assert u in g.tiles;
    }
    assert Undisturbed(h.tiles, m, g.tiles, m1);
  }

  /** A caller may write any unit inside a live block: the headers still describe the heap. */
  lemma CallerWrites(m: Memory, h: Heap, t: Tile, a: nat, x: int, y: int)
    requires Wf(h) && Linked(m.ptr, m.size, h.tiles) && h.end <= |m.ptr| == |m.size|
    requires Live(h.tiles, t) && Inside(t, a)
    ensures a < |m.ptr| && Linked(m.ptr[a := x], m.size[a := y], h.tiles)
  {
    TiledBounds(h.tiles, 1, h.end);
    var r := Ring(h.tiles);
    forall k | 0 <= k < |r| ensures r[k] != a {
      RingApart(h.tiles, h.end, k);
    }
    forall u | u in h.tiles ensures u.start != a {
      var j :| 0 <= j < |h.tiles| && h.tiles[j] == u;
      TileApart(h.tiles, h.end, j, u.start);
    }
  }
}
