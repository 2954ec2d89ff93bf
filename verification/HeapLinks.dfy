/**
 How the `ptr` and `size` header fields represent a tiling, and what each relinking in
 `malloc` and `free` does to that representation.
 */
module HeapLinks {
  import opened HeapSpec

  function Next(k: nat, n: nat): nat
    requires k < n
  {
    if k + 1 == n then 0 else k + 1
  }

  /** The ptr fields of the ring elements form that ring. */
  ghost predicate Links(ptr: seq<int>, r: seq<nat>)
  {
    && (forall k :: 0 <= k < |r| ==> r[k] < |ptr|)
    && (forall k :: 0 <= k < |r| ==> ptr[r[k]] == r[Next(k, |r|)])
  }

  ghost predicate Sizes(size: seq<int>, ts: seq<Tile>)
  {
    && |size| > 0 && size[0] == 0
    && (forall t :: t in ts ==> 0 < t.start < |size| && size[t.start] == t.len)
  }

  /** The headers in memory describe the tiles. */
  ghost predicate Linked(ptr: seq<int>, size: seq<int>, ts: seq<Tile>)
  {
    Links(ptr, Ring(ts)) && Sizes(size, ts)
  }

  // ------------------------------------------------------------ on bare rings

  lemma LinksInsert(ptr: seq<int>, a: seq<nat>, b: seq<nat>, p: nat)
    requires a != [] && Links(ptr, a + b) && Ascending(a + b) && p < |ptr| && p !in a + b
    ensures Last(a) < |ptr|
    ensures Links(ptr[p := ptr[Last(a)]][Last(a) := p], a + [p] + b)
  {
    var r, r' := a + b, a + [p] + b;
    assert r[|a| - 1] == Last(a);
    var ptr' := ptr[p := ptr[Last(a)]][Last(a) := p];
    forall k | 0 <= k < |r'|
      ensures r'[k] < |ptr| && ptr'[r'[k]] == r'[Next(k, |r'|)]
    {
      if k < |a| {
        assert r'[k] == r[k];
      } else if k > |a| {
        assert r'[k] == r[k - 1];
      }
    }
  }

  lemma LinksRemove(ptr: seq<int>, a: seq<nat>, x: nat, b: seq<nat>)
    requires a != [] && Links(ptr, a + [x] + b) && Ascending(a + [x] + b)
    ensures Last(a) < |ptr| && x < |ptr|
    ensures Links(ptr[Last(a) := ptr[x]], a + b)
  {
    var r, r' := a + [x] + b, a + b;
    assert r[|a| - 1] == Last(a) && r[|a|] == x;
    forall k | 0 <= k < |r'|
      ensures r'[k] < |ptr| && ptr[Last(a) := ptr[x]][r'[k]] == r'[Next(k, |r'|)]
    {
      if k < |a| {
        assert r'[k] == r[k];
      } else {
        assert r'[k] == r[k + 1];
      }
    }
  }

  // ------------------------------------------------- around a tile: a below, b above

  /** The ring element below t: the q that `free` searches for. */
  function Below(a: seq<Tile>): nat
  {
    Last(Ring(a))
  }

  ghost predicate Pieces(a: seq<Tile>, t: Tile, b: seq<Tile>, end: nat)
  {
    Tiled(a, 1, t.start) && 1 <= t.len && Tiled(b, t.start + t.len, end)
  }

  lemma PiecesBounds(a: seq<Tile>, t: Tile, b: seq<Tile>, end: nat)
    requires Pieces(a, t, b, end)
    ensures 1 <= t.start && t.start + t.len <= end
    ensures forall x :: x in a ==> 1 <= x.start && x.start + x.len <= t.start
    ensures forall x :: x in b ==> t.start + t.len <= x.start < end
  {
    TiledBounds(a, 1, t.start);
    TiledBounds(b, t.start + t.len, end);
  }

  /** The ring is cut at tile t. */
  lemma RingSplit(a: seq<Tile>, t: Tile, b: seq<Tile>, end: nat)
    requires Pieces(a, t, b, end)
    ensures Ring(Whole(a, t, b)) == Ring(a) + (if t.live then [] else [t.start]) + FreeOf(b)
    ensures Ascending(Ring(Whole(a, t, b)))
    ensures forall x :: x in Ring(a) ==> x < t.start
    ensures forall x :: x in FreeOf(b) ==> t.start + t.len <= x < end
    ensures Below(a) < t.start < end
  {
    PiecesBounds(a, t, b, end);
    FreeOfThree(a, t, b);
    assert [t][1..] == [];
    TiledJoin(a, [t], b, 1, t.start, t.start + t.len, end);
    RingAscends(Whole(a, t, b), end);
    RingAscends(a, t.start);
    FreeOfAscends(b, t.start + t.len, end);
    assert Ring(a)[|Ring(a)| - 1] in Ring(a);
  }

  lemma CarveExact(ptr: seq<int>, size: seq<int>, a: seq<Tile>, t: Tile, b: seq<Tile>, end: nat)
    requires Pieces(a, t, b, end) && Linked(ptr, size, Whole(a, t, b)) && !t.live
    ensures Below(a) < |ptr| && t.start < |ptr|
    ensures Linked(ptr[Below(a) := ptr[t.start]], size, a + Carved(t, t.len) + b)
  {
    RingSplit(a, t, b, end);
    LinksRemove(ptr, Ring(a), t.start, FreeOf(b));
    var u := t.(live := true);
    FreeOfThree(a, u, b);
    assert Ring(a + [u] + b) == Ring(a) + FreeOf(b);
    assert t in Whole(a, t, b);
  }

  lemma CarveTail(ptr: seq<int>, size: seq<int>, a: seq<Tile>, t: Tile, b: seq<Tile>, end: nat, n: nat)
    requires Pieces(a, t, b, end) && Linked(ptr, size, Whole(a, t, b)) && !t.live
    requires 0 < n < t.len && end <= |size|
    ensures t.start + t.len - n < |size| && t.start < |size|
    ensures Linked(ptr, size[t.start := t.len - n][t.start + t.len - n := n], a + Carved(t, n) + b)
  {
    PiecesBounds(a, t, b, end);
    var c := Carved(t, n);
    assert c == [c[0]] + [c[1]];
    FreeOfConcat([c[0]], [c[1]]);
    FreeOfOne(c[0]);
    FreeOfOne(c[1]);
    FreeOfConcat(a + c, b);
    FreeOfConcat(a, c);
    FreeOfThree(a, t, b);
    assert Ring(a + c + b) == Ring(Whole(a, t, b));
  }

  // ------------------------------------------------------------------- release

  lemma FrontFree(a: seq<Tile>)
    requires TouchesBelow(a)
    ensures FreeOf(a) == FreeOf(Front(a)) + [Last(a).start]
  {
    assert a == Front(a) + [Last(a)];
    FreeOfConcat(Front(a), [Last(a)]);
    FreeOfOne(Last(a));
  }

  /** The ring after the release: t enters it unless it was absorbed, a free tile above t leaves it. */
  lemma ReleaseRing(a: seq<Tile>, t: Tile, b: seq<Tile>)
    ensures Ring(Released(a, t, b)) ==
      Ring(a) + (if TouchesBelow(a) then [] else [t.start]) + FreeOf(Rest(b))
  {
    var x := Absorbed(a, Melted(t, b));
    FreeOfThree(Front(a), x, Rest(b));
    if TouchesBelow(a) {
      FrontFree(a);
    }
  }

  /** The relinking statements of `free`, for header p and the ring element q below it. */
  function FreedPtr(ptr: seq<int>, size: seq<int>, q: nat, p: nat): seq<int>
    requires q < |ptr| && p < |ptr| && p < |size| && q < |size| && 0 <= ptr[q] < |ptr|
  {
    var ptr1 := ptr[p := if p + size[p] == ptr[q] then ptr[ptr[q]] else ptr[q]];
    ptr1[q := if q + size[q] == p then ptr1[p] else p]
  }

  function FreedSize(ptr: seq<int>, size: seq<int>, q: nat, p: nat): seq<int>
    requires q < |ptr| && p < |ptr| && p < |size| && q < |size| && 0 <= ptr[q] < |size|
  {
    var size1 := if p + size[p] == ptr[q] then size[p := size[p] + size[ptr[q]]] else size;
    if q + size1[q] == p then size1[q := size1[q] + size1[p]] else size1
  }

  /** The test against q->ptr finds out exactly whether the tile above is free. */
  lemma TestAbove(ptr: seq<int>, size: seq<int>, a: seq<Tile>, t: Tile, b: seq<Tile>, end: nat)
    requires Pieces(a, t, b, end) && Linked(ptr, size, Whole(a, t, b)) && t.live
    ensures Below(a) < |ptr| && t.start < |size|
    ensures ptr[Below(a)] == if FreeOf(b) == [] then 0 else FreeOf(b)[0]
    ensures t.start + size[t.start] == ptr[Below(a)] <==> TouchesAbove(b)
    ensures TouchesAbove(b) ==> ptr[Below(a)] == b[0].start
  {
    RingSplit(a, t, b, end);
    var r, k := Ring(Whole(a, t, b)), |FreeOf(a)|;
    assert r == Ring(a) + FreeOf(b);
    assert r[k] == Below(a) && ptr[r[k]] == r[Next(k, |r|)];
    assert t in Whole(a, t, b);
    if b != [] && b[0].live {
      assert FreeOf(b) == FreeOf(b[1..]);
      FreeOfAscends(b[1..], b[0].start + b[0].len, end);
      if FreeOf(b) != [] {
        assert FreeOf(b)[0] in FreeOf(b[1..]);
      }
    }
  }

  /** The test q + q->size == p finds out exactly whether the tile below is free. */
  lemma TestBelow(size: seq<int>, a: seq<Tile>, t: Tile, b: seq<Tile>, end: nat)
    requires Pieces(a, t, b, end) && Sizes(size, Whole(a, t, b))
    ensures Below(a) < |size|
    ensures Below(a) + size[Below(a)] == t.start <==> TouchesBelow(a)
    ensures TouchesBelow(a) ==> Below(a) == Last(a).start
  {
    PiecesBounds(a, t, b, end);
    TiledEnd(a, 1, t.start);
    if TouchesBelow(a) {
      FrontFree(a);
      assert Last(a) in Whole(a, t, b);
    } else if FreeOf(a) != [] {
      FarBelow(size, a, t, b);
    }
  }

  /** q is a free tile further down: the live tile Last(a) separates it from t. */
  lemma FarBelow(size: seq<int>, a: seq<Tile>, t: Tile, b: seq<Tile>)
    requires Tiled(a, 1, t.start) && Sizes(size, Whole(a, t, b)) && FreeOf(a) != [] && !TouchesBelow(a)
    ensures a != [] && Below(a) < |size| && Below(a) + size[Below(a)] < t.start
  {
    var k := |a| - 1;
    var j := FreeOfIndex(a, |FreeOf(a)| - 1);
    assert a[j].start == Below(a);
    assert a[j] in Whole(a, t, b);
    TiledDisjoint(a, 1, t.start, j, k);
    TiledBounds(a, 1, t.start);
    assert a[k] in a;
  }

  lemma FreedPtrMeaning(ptr: seq<int>, size: seq<int>, a: seq<Tile>, t: Tile, b: seq<Tile>, end: nat)
    requires Pieces(a, t, b, end) && Linked(ptr, size, Whole(a, t, b)) && t.live && end <= |ptr| == |size|
    ensures var q, p := Below(a), t.start;
      && q < p < |ptr| && 0 <= ptr[q] < |ptr| && ptr[q] != p
      && (TouchesAbove(b) ==> ptr[q] == b[0].start)
      && var ptr1 := if TouchesAbove(b) then ptr[q := ptr[ptr[q]]] else ptr;
         FreedPtr(ptr, size, q, p) == ptr1[p := ptr1[q]][q := if TouchesBelow(a) then ptr1[q] else p]
  {
    TestAbove(ptr, size, a, t, b, end);
    TestBelow(size, a, t, b, end);
    RingSplit(a, t, b, end);
    if FreeOf(b) != [] { assert FreeOf(b)[0] in FreeOf(b); }
  }

  lemma ReleaseLinks(ptr: seq<int>, size: seq<int>, a: seq<Tile>, t: Tile, b: seq<Tile>, end: nat)
    requires Pieces(a, t, b, end) && Linked(ptr, size, Whole(a, t, b)) && t.live && end <= |ptr| == |size|
    ensures var q, p := Below(a), t.start;
      && q < p < |ptr| && 0 <= ptr[q] < |ptr|
      && Links(FreedPtr(ptr, size, q, p), Ring(Released(a, t, b)))
  {
    FreedPtrMeaning(ptr, size, a, t, b, end);
    ReleaseRing(a, t, b);
    RingSplit(a, t, b, end);
    var q, p, r, f := Below(a), t.start, Ring(a), FreeOf(Rest(b));
    assert Ring(Whole(a, t, b)) == r + FreeOf(b);
    var ptr1 := ptr;
    if TouchesAbove(b) {
      RemoveAbove(ptr, r, b[0].start, f, FreeOf(b));
      ptr1 := ptr[q := ptr[ptr[q]]];
    }
    RelinkQ(ptr1, FreedPtr(ptr, size, q, p), r, f, p, TouchesBelow(a));
  }

  /** The free tile above leaves the ring. */
  lemma RemoveAbove(ptr: seq<int>, r: seq<nat>, x: nat, f: seq<nat>, g: seq<nat>)
    requires r != [] && g == [x] + f && Links(ptr, r + g) && Ascending(r + g)
    ensures Last(r) < |ptr| && x < |ptr|
    ensures Links(ptr[Last(r) := ptr[x]], r + f) && Ascending(r + f)
    ensures forall y :: y in f ==> y in g
  {
    assert r + g == r + [x] + f;
    LinksRemove(ptr, r, x, f);
    AscendingWithout(r, g);
    assert g[1..] == f;
  }

  /** With the tile above dealt with: p is linked behind q, or left out when q absorbed it. */
  lemma RelinkQ(ptr: seq<int>, ptr': seq<int>, r: seq<nat>, f: seq<nat>, p: nat, absorbed: bool)
    requires r != [] && Links(ptr, r + f) && Ascending(r + f) && p < |ptr| && p !in r + f && Last(r) < |ptr|
    requires ptr' == ptr[p := ptr[Last(r)]][Last(r) := if absorbed then ptr[Last(r)] else p]
    ensures Links(ptr', r + (if absorbed then [] else [p]) + f)
  {
    if absorbed {
      assert r + [] + f == r + f;
      assert forall k :: 0 <= k < |r + f| ==> ptr'[(r + f)[k]] == ptr[(r + f)[k]];
    } else {
      LinksInsert(ptr, r, f, p);
    }
  }

  lemma AscendingWithout(a: seq<nat>, b: seq<nat>)
    requires Ascending(a + b) && b != []
    ensures Ascending(a + b[1..])
  {
    var r, r' := a + b, a + b[1..];
    forall j, k | 0 <= j < k < |r'|
      ensures r'[j] < r'[k]
    {
      assert r'[j] == r[if j < |a| then j else j + 1];
      assert r'[k] == r[if k < |a| then k else k + 1];
    }
  }

  lemma ReleaseSizes(ptr: seq<int>, size: seq<int>, a: seq<Tile>, t: Tile, b: seq<Tile>, end: nat)
    requires Pieces(a, t, b, end) && Linked(ptr, size, Whole(a, t, b)) && t.live && end <= |ptr| == |size|
    ensures var q, p := Below(a), t.start;
      && q < p < |ptr| && 0 <= ptr[q] < |ptr|
      && Sizes(FreedSize(ptr, size, q, p), Released(a, t, b))
  {
    TestAbove(ptr, size, a, t, b, end);
    TestBelow(size, a, t, b, end);
    RingSplit(a, t, b, end);
    if FreeOf(b) != [] { assert FreeOf(b)[0] in FreeOf(b); }
    var q, p := Below(a), t.start;
    SizesAfter(size, FreedSize(ptr, size, q, p), a, t, b, end);
  }

  function NewSize(size: seq<int>, a: seq<Tile>, t: Tile, b: seq<Tile>, k: nat): int
    requires k < |size|
  {
    if TouchesBelow(a) && k == Last(a).start then Last(a).len + Melted(t, b).len
    else if k == t.start then Melted(t, b).len
    else size[k]
  }

  /** Only the header of the tile that grew has changed, and perhaps the header that vanished. */
  lemma SizesAfter(size: seq<int>, size': seq<int>, a: seq<Tile>, t: Tile, b: seq<Tile>, end: nat)
    requires Pieces(a, t, b, end) && Sizes(size, Whole(a, t, b)) && end <= |size| == |size'|
    requires forall k :: 0 <= k < |size| ==> size'[k] == NewSize(size, a, t, b, k)
    ensures Sizes(size', Released(a, t, b))
  {
    PiecesBounds(a, t, b, end);
    var x := Absorbed(a, Melted(t, b));
    FrontTiled(a, Melted(t, b), end);
    TiledBounds(Front(a), 1, x.start);
    forall y | y in Released(a, t, b)
      ensures 0 < y.start < |size'| && size'[y.start] == y.len
    {
      if y in Front(a) || y in Rest(b) {
        assert y in Whole(a, t, b);
      } else {
        assert y == x;
      }
    }
  }

  // ------------------------------------------------------------ walking the ring

  /** Advancing from ring element k reaches the next stop of the walk behind the rover. */
  lemma WalkNext(r: seq<nat>, end: nat, rover: nat, k: nat, a: nat)
    requires Ascending(r) && r != [] && r[0] == 0 && k < |r| && rover in r && a in r
    requires forall x :: x in r ==> x < end
    ensures var p, n := r[k], r[Next(k, |r|)];
      && (p != rover ==> Walk(rover, p, end) < Walk(rover, n, end))
      && (p != rover && Walk(rover, p, end) < Walk(rover, a, end) ==> Walk(rover, n, end) <= Walk(rover, a, end))
      && (p == rover ==> Walk(rover, n, end) <= Walk(rover, a, end))
  {
    var ia :| 0 <= ia < |r| && r[ia] == a;
    var ir :| 0 <= ir < |r| && r[ir] == rover;
    var n := Next(k, |r|);
    assert r[k] in r && r[n] in r;
    assert ir < k ==> r[ir] < r[k];
    assert k < ir ==> r[k] < r[ir];
    assert ia < k ==> r[ia] < r[k];
    assert k < ia ==> r[k] < r[ia];
    assert n < ia ==> r[n] < r[ia];
    assert n < ir ==> r[n] < r[ir];
  }
}
