/**
 The allocator itself: header fields in memory, relinked in place by pointer-walking loops.
 Addresses are unit numbers; -1 is the NULL of `allocp` and `heap_end`.
 */
module HeapAllocator {
  import opened HeapSpec
  import opened HeapLinks
  import opened HeapSearch
  import opened HeapMemory

  const NULL := -1

  /** Units for a request, with its header. */
  function Nunits(nbytes: nat): nat { (nbytes + UNIT - 1) / UNIT + 1 }

  class Allocator {
    const ptr: array<int>
    const size: array<int>
    var allocp: int
    var heapEnd: int
    ghost var tiles: seq<Tile>

    ghost predicate Valid()
      reads this, ptr, size
    {
      && ptr != size && ptr.Length == size.Length
      && NULL <= allocp && (heapEnd == NULL || 1 <= heapEnd)
      && (heapEnd == NULL ==> tiles == [])
      && Wf(View())
      && View().end <= ptr.Length
      && (allocp != NULL ==> Linked(ptr[..], size[..], tiles))
    }

    /** The abstract heap that the headers represent. */
    ghost function View(): Heap
      reads this
    {
      Heap(tiles,
           if allocp < 0 then Null else At(allocp),
           if heapEnd < 0 then 1 else heapEnd)
    }

    ghost function Mem(): Memory
      reads ptr, size
    {
      Memory(ptr[..], size[..])
    }

    /** `units` is the memory from `base` up to the highest stack pointer. */
    constructor (units: nat)
      requires 1 <= units
      ensures Valid() && View() == EMPTY && ptr.Length == units && fresh(ptr) && fresh(size)
    {
      ptr, size := new int[units], new int[units];
      allocp, heapEnd, tiles := NULL, NULL, [];
      new;
      assert Tiled([], 1, 1);
    }

    /** xsbrk: the old end of the region, or NULL when the region would run into the stack. */
    method Xsbrk(incr: nat, sp: nat) returns (r: int)
      requires heapEnd == NULL || 1 <= heapEnd
      modifies `heapEnd
      ensures var e := if old(heapEnd) == NULL then 1 else old(heapEnd);
        if e + incr > sp then r == NULL && heapEnd == e
        else r == e && heapEnd == e + incr
    {
      if heapEnd == NULL { heapEnd := 1; }
      var prev := heapEnd;
      if heapEnd + incr > sp { return NULL; }
      heapEnd := heapEnd + incr;
      return prev;
    }

    /** The search loop of free: the ring element below the block at p. */
    method FindBelow(p: nat, ghost i: nat) returns (q: nat)
      requires Valid() && allocp != NULL && IsLive(tiles, i, p)
      ensures q == RingPred(tiles, i)
    {
      ghost var h, r := View(), Ring(tiles);
      ghost var k: nat :| k < |r| && r[k] == allocp;
      SearchStopAt(ptr[..], h, i, k);
      q := allocp;
      while !(p > q && p < ptr[q])
        invariant k < |r| && q == r[k] && q < ptr.Length
        decreases if k <= Goal(h.tiles, i) then Goal(h.tiles, i) - k else |r| + Goal(h.tiles, i) - k
      {
        SearchStopAt(ptr[..], h, i, k);
        if q >= ptr[q] && (p > q || p < ptr[q]) { break; }
        q := ptr[q];
        k := Next(k, |r|);
      }
      SearchStopAt(ptr[..], h, i, k);
    }

    /** The relinking of free: block p behind ring element q, coalescing both ways. */
    method LinkIn(q: nat, p: nat)
      requires ptr != size && ptr.Length == size.Length && q < p < ptr.Length
      requires 0 <= ptr[q] < ptr.Length && ptr[q] != p
      modifies ptr, size
      ensures ptr[..] == FreedPtr(old(ptr[..]), old(size[..]), q, p)
      ensures size[..] == FreedSize(old(ptr[..]), old(size[..]), q, p)
    {
      if p + size[p] == ptr[q] {
        size[p] := size[p] + size[ptr[q]];
        ptr[p] := ptr[ptr[q]];
      } else {
        ptr[p] := ptr[q];
      }
      if q + size[q] == p {
        size[q] := size[q] + size[p];
        ptr[q] := ptr[p];
      } else {
        ptr[q] := p;
      }
    }

    /** free: find the ring element below the block, link the block in, coalesce both ways.
        `i` is the tile that the block is. */
    method Free(ap: nat) returns (ghost i: nat)
      requires Valid() && allocp != NULL && 1 <= ap
      requires LiveAt(tiles, ap - 1)
      modifies this, ptr, size
      ensures Valid() && allocp != NULL
      ensures IsLive(old(tiles), i, ap - 1) && View() == Freed(old(View()), i)
      ensures Spared(old(tiles), old(Mem()), Mem())
    {
      var p := ap - 1;
      ghost var h := View();
      i :| IsLive(tiles, i, p);
      var q := FindBelow(p, i);
      FreeDone(ptr[..], size[..], h, i, p);
      FreeSpares(Mem(), h, i, q, p);
      LinkIn(q, p);
      allocp := q;
      tiles := Freed(h, i).tiles;
      assert View() == Freed(h, i);
    }

    /** The block that `xsbrk` gave gets a header and is freed; h is the heap without it. */
    method Donate(up: nat, rnu: nat, ghost h: Heap)
      requires ptr != size && ptr.Length == size.Length && 0 <= allocp && heapEnd == up + rnu <= ptr.Length && 1 <= rnu
      requires h == Heap(tiles, At(allocp), up) && Wf(h) && Linked(ptr[..], size[..], tiles)
      modifies this, ptr, size
      ensures Valid() && allocp != NULL && View() == Freed(Extended(h, rnu), |h.tiles|)
      ensures Undisturbed(old(tiles), old(Mem()), tiles, Mem())
    {
      ghost var m := Mem();
      ptr[up] := 0;
      size[up] := rnu;
      assert Mem() == Headed(m, up, rnu);
      HeadedDone(m, h, rnu);
      tiles := tiles + [Tile(up, rnu, true)];
      assert View() == Extended(h, rnu) && IsLive(tiles, |h.tiles|, up);
      ghost var i := Free(up + 1);
      GrowDone(m, h, rnu, i, Mem());
    }

    /** morecore: obtain a multiple of NALLOC units and give them to `free`. */
    method Morecore(nu: nat, sp: nat) returns (r: int)
      requires Valid() && allocp != NULL && 1 <= nu && sp <= ptr.Length
      modifies this, ptr, size
      ensures Valid() && allocp != NULL
      ensures if old(View()).end + Rounded(nu) > sp then r == NULL && View() == old(View())
              else r == allocp && View() == Grown(old(View()), nu)
      ensures Answers(old(View()).end, View().end, nu, sp, r == NULL)
      ensures Undisturbed(old(tiles), old(Mem()), tiles, Mem())
    {
      ghost var h := View();
      var rnu := NALLOC * ((nu + NALLOC - 1) / NALLOC);
      RoundedUp(nu);
      AnswersBoth(h.end, nu, sp);
      var up := Xsbrk(rnu, sp);
      if up == NULL { return NULL; }
      Donate(up, rnu, h);
      return allocp;
    }

    /** The taking of block p behind ring element q: all of it, or its tail. */
    method Take(q: nat, p: nat, nunits: nat) returns (r: nat)
      requires ptr != size && ptr.Length == size.Length && q < ptr.Length && p < ptr.Length
      requires 0 < nunits <= size[p] && p + size[p] <= size.Length
      modifies ptr, size
      ensures Mem() == Took(old(Mem()), q, p, nunits)
      ensures r == p + old(size[p]) - nunits
    {
      r := p;
      if size[r] == nunits {
        ptr[q] := ptr[r];
      } else {
        size[r] := size[r] - nunits;
        r := r + size[r];
        size[r] := nunits;
      }
    }

    /** Taking tile i, as a step on the heap. */
    method TakeTile(q: nat, p: nat, nunits: nat, ghost i: nat) returns (r: nat)
      requires Valid() && allocp != NULL && Fits(tiles, i, nunits) && 0 < nunits
      requires q == RingPred(tiles, i) && p == tiles[i].start
      modifies this, ptr, size
      ensures Valid() && allocp != NULL
      ensures View() == Taken(old(View()), i, nunits) && r == Given(old(tiles), i, nunits) + 1
      ensures Undisturbed(old(tiles), old(Mem()), tiles, Mem())
    {
      ghost var h, m := View(), Mem();
      TookDone(m, h, i, nunits, q, p);
      r := Take(q, p, nunits);
      allocp := q;
      tiles := Taken(h, i, nunits).tiles;
      assert View() == Taken(h, i, nunits);
      r := r + 1;
    }

    /** The search stands behind element k of the ring, at the next one. */
    ghost predicate Stands(q: int, p: int, k: nat)
      reads this
    {
      k < |Ring(tiles)| && 0 <= q == Ring(tiles)[k] && 0 <= p == Ring(tiles)[Next(k, |Ring(tiles)|)]
    }

    /** The search for nunits, which began in heap s with memory m0, stands at p. */
    ghost predicate Looking(s: Heap, m0: Memory, nunits: nat, sp: nat, grown: bool, q: int, p: int, k: nat)
      reads this, ptr, size
    {
      && Valid() && allocp != NULL && Searching(s, nunits, sp, grown, View()) && Stands(q, p, k)
      && Unseen(View(), nunits, p) && Undisturbed(s.tiles, m0, tiles, Mem())
    }

    /** How far the search may still walk before it is back at the rover. */
    ghost function Ahead(p: int): int
      reads this
      requires 0 <= p && 0 <= allocp
    {
      View().end - Walk(allocp, p, View().end)
    }

    /** Back at the rover without a fit: the region grows, and the search starts again in it, or it is refused. */
    method SearchOn(p: nat, nunits: nat, sp: nat, ghost s: Heap, ghost m0: Memory, ghost grown: bool)
      returns (r: int, ghost k: nat)
      requires Valid() && p == allocp && sp <= ptr.Length && 0 < nunits && p < size.Length && size[p] < nunits
      requires Searching(s, nunits, sp, grown, View()) && Unseen(View(), nunits, p)
      requires Undisturbed(s.tiles, m0, tiles, Mem())
      modifies this, ptr, size
      ensures Valid() && allocp != NULL && !grown && Undisturbed(s.tiles, m0, tiles, Mem())
      ensures r == NULL ==> Searched(s, nunits, sp, grown, old(View()), 0, View(), Null)
      ensures r != NULL ==> 0 <= r < ptr.Length && Looking(s, m0, nunits, sp, true, r, ptr[r], k)
    {
      ghost var h, m := View(), Mem();
      k := 0;
      NothingFits(size[..], h, nunits, p);
      GrowsOnce(s, nunits, sp, grown, h);
      r := Morecore(nunits, sp);
      StillUndisturbed(s.tiles, m0, h.tiles, m, tiles, Mem());
      if r != NULL {
        MallocGrows(s, nunits, sp, h);
        k := StartUnseen(ptr[..], View(), nunits);
      }
    }

    /** The element where the search stands is big enough: it is the next fit, and taken. */
    method TakeHere(q: nat, p: nat, nunits: nat, sp: nat, ghost s: Heap, ghost m0: Memory, ghost grown: bool,
                    ghost k: nat)
      returns (r: int, ghost i: nat)
      requires Looking(s, m0, nunits, sp, grown, q, p, k) && 0 < nunits && p < size.Length && size[p] >= nunits
      modifies this, ptr, size
      ensures Valid() && NULL < r && Undisturbed(s.tiles, m0, tiles, Mem())
      ensures Searched(s, nunits, sp, grown, old(View()), i, View(), At(r))
    {
      ghost var h, m := View(), Mem();
      i := FoundTile(size[..], h, k, nunits);
      r := TakeTile(q, p, nunits, i);
      StillUndisturbed(s.tiles, m0, h.tiles, m, tiles, Mem());
    }

    /** Past an element that is too small. */
    method WalkOn(q: nat, p: nat, nunits: nat, sp: nat, ghost s: Heap, ghost m0: Memory, ghost grown: bool,
                  ghost k: nat)
      returns (p': int)
      requires Looking(s, m0, nunits, sp, grown, q, p, k) && p < ptr.Length && size[p] < nunits && p != allocp
      ensures Looking(s, m0, nunits, sp, grown, p, p', Next(k, |Ring(tiles)|)) && 0 <= Ahead(p') < Ahead(p)
    {
      StepUnseen(size[..], View(), nunits, Next(k, |Ring(tiles)|));
      RingIn(ptr[..], View(), Next(k, |Ring(tiles)|));
      p' := ptr[p];
    }

    /** The search loop of malloc: next fit around the ring; the region grows at most once.
        `h` is the heap in which the block i was found. */
    method Search(nunits: nat, sp: nat) returns (r: int, ghost grown: bool, ghost h: Heap, ghost i: nat)
      requires Valid() && allocp != NULL && sp <= ptr.Length && 0 < nunits
      modifies this, ptr, size
      ensures Valid() && NULL <= r
      ensures Searched(old(View()), nunits, sp, grown, h, i, View(), if r == NULL then Null else At(r))
      ensures Undisturbed(old(tiles), old(Mem()), tiles, Mem())
    {
      var q := allocp;
      grown, h, i := false, View(), 0;
      var p := ptr[q];
      ghost var k: nat := StartUnseen(ptr[..], h, nunits);
      ghost var s, m0 := View(), Mem();
      while true
        invariant Looking(s, m0, nunits, sp, grown, q, p, k) && h == View()
        decreases !grown, Ahead(p)
      {
        RingIn(ptr[..], h, Next(k, |Ring(tiles)|));
        if size[p] >= nunits {
          r, i := TakeHere(q, p, nunits, sp, s, m0, grown, k);
          return;
        }
        if p == allocp {
          p, k := SearchOn(p, nunits, sp, s, m0, grown);
          if p == NULL {
            r := NULL;
            return;
          }
          grown, h := true, View();
          q := p;
          p := ptr[p];
        } else {
          var p' := WalkOn(q, p, nunits, sp, s, m0, grown, k);
          q, p, k := p, p', Next(k, |Ring(tiles)|);
        }
      }
    }

    /** No free list yet: `base` alone is one. */
    method StartList()
      requires Valid() && allocp == NULL
      modifies this, ptr, size
      ensures Valid() && allocp != NULL && View() == Started(old(View())) && tiles == []
    {
      ptr[0] := 0;
      allocp := 0;
      size[0] := 0;
      assert Ring(tiles) == [0];
    }

    /** malloc: start the free list on the first call, then search. */
    method Malloc(nbytes: nat, sp: nat) returns (r: int)
      requires Valid() && sp <= ptr.Length
      modifies this, ptr, size
      ensures Valid() && NULL <= r
      ensures MallocStep(old(View()), Nunits(nbytes), sp, View(), if r == NULL then Null else At(r))
      ensures View().end != old(View()).end ==> GrowsLeast(old(View()).end, View().end, Nunits(nbytes))
      ensures Undisturbed(old(tiles), old(Mem()), tiles, Mem())
    {
      ghost var h0 := View();
      var nunits := (nbytes + UNIT - 1) / UNIT + 1;
      if allocp == NULL { StartList(); }
      ghost var grown, h, i;
      r, grown, h, i := Search(nunits, sp);
      MallocSearched(h0, nunits, sp, grown, h, i, View(), if r == NULL then Null else At(r));
    }
  }
}
