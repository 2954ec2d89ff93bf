/**
 The FAT12 table of the emulated disk (work/boot/fat12emul.cpp): 12-bit entries packed two to
 three bytes, and the cluster chain that `Prepare` writes.
 */
module FatTable {
  import opened Words

  type Entry = e: int | 0 <= e < 4096

  const FAT_AT := 512      // offset of the table in the IO area
  const FAT_BYTES := 1024
  const ENTRIES := 682     // whole entries that fit into the table
  const MEDIA: Entry := 0xFF8
  const LAST: Entry := 0xFFF
  const FIRST := 3         // first cluster of the image

  /** Entry n fits into a table that starts at `at`. */
  predicate InTable(s: seq<Byte>, at: nat, n: nat)
  {
    at + 3 * (n / 2) + 3 <= |s|
  }

  /** The two entries of a triple of bytes. */
  function Low(u0: Byte, u1: Byte): Entry { var hi: int := u1 % 16; u0 + 256 * hi }

  function High(u1: Byte, u2: Byte): Entry { var lo: int := u1 / 16; lo + 16 * u2 }

  /** The middle byte with its lower or its upper half replaced. */
  function LowHalf(u1: Byte, t: Entry): Byte { 16 * (u1 / 16) + t / 256 }

  function HighHalf(u1: Byte, t: Entry): Byte { u1 % 16 + 16 * (t % 16) }

  lemma Halves(u0: Byte, u1: Byte, u2: Byte, t: Entry)
    ensures Low(t % 256, LowHalf(u1, t)) == t && High(LowHalf(u1, t), u2) == High(u1, u2)
    ensures High(HighHalf(u1, t), t / 16) == t && Low(u0, HighHalf(u1, t)) == Low(u0, u1)
  {
    assert LowHalf(u1, t) / 16 == u1 / 16 && LowHalf(u1, t) % 16 == t / 256;
    assert HighHalf(u1, t) / 16 == t % 16 && HighHalf(u1, t) % 16 == u1 % 16;
  }

  /** read_fat_entry_n: the low or the high 12 bits of a triple. */
  function ReadEntry(s: seq<Byte>, at: nat, n: nat): Entry
    requires InTable(s, at, n)
  {
    var i := at + 3 * (n / 2);
    if n % 2 == 1 then High(s[i + 1], s[i + 2]) else Low(s[i], s[i + 1])
  }

  /** write_fat_entry_n: the other entry of the triple shares the middle byte. */
  function WriteEntry(s: seq<Byte>, at: nat, n: nat, t: Entry): (r: seq<Byte>)
    requires InTable(s, at, n)
    ensures |r| == |s|
  {
    var i := at + 3 * (n / 2);
    if n % 2 == 1 then s[i + 1 := HighHalf(s[i + 1], t)][i + 2 := t / 16]
    else s[i := t % 256][i + 1 := LowHalf(s[i + 1], t)]
  }

  /** Three bytes hold two entries, the even one in the low 12 bits of the number that they make. */
  lemma EntryPair(s: seq<Byte>, at: nat, k: nat)
    requires InTable(s, at, 2 * k)
    ensures var i := at + 3 * k;
      && InTable(s, at, 2 * k + 1)
      && Triple(s[i], s[i + 1], s[i + 2]) == Pair(ReadEntry(s, at, 2 * k), ReadEntry(s, at, 2 * k + 1))
  {
    var i := at + 3 * k;
    PairOf(s[i], s[i + 1], s[i + 2]);
  }

  lemma PairOf(u0: Byte, u1: Byte, u2: Byte)
    ensures Triple(u0, u1, u2) == Pair(Low(u0, u1), High(u1, u2))
  {
  }

  function Triple(u0: nat, u1: nat, u2: nat): nat { u0 + 0x100 * u1 + 0x1_0000 * u2 }

  function Pair(low: nat, high: nat): nat { low + 0x1000 * high }

  /** Writing an entry leaves all others readable unchanged, and all bytes outside its triple. */
  lemma EntryWritten(s: seq<Byte>, at: nat, n: nat, t: Entry, k: nat)
    requires InTable(s, at, n) && InTable(s, at, k)
    ensures ReadEntry(WriteEntry(s, at, n, t), at, k) == if k == n then t else ReadEntry(s, at, k)
  {
    var i := at + 3 * (n / 2);
    Halves(s[i], s[i + 1], s[i + 2], t);
    Triples(n, k);
  }

  /** Entries share their triple only with their neighbour. */
  lemma Triples(n: nat, k: nat)
    ensures k / 2 == n / 2 || 3 * (k / 2) + 3 <= 3 * (n / 2) || 3 * (n / 2) + 3 <= 3 * (k / 2)
    ensures k / 2 == n / 2 && k % 2 == n % 2 <==> k == n
  {
  }

  method WriteEntryAt(b: array<Byte>, at: nat, n: nat, t: Entry)
    requires InTable(b[..], at, n)
    modifies b
    ensures b[..] == WriteEntry(old(b[..]), at, n, t)
  {
    var i := at + 3 * (n / 2);
    if n % 2 == 1 {
      b[i + 1] := HighHalf(b[i + 1], t);
      b[i + 2] := t / 16;
    } else {
      b[i] := t % 256;
      b[i + 1] := LowHalf(b[i + 1], t);
    }
  }

  // -------------------------------------------------------------------- the chain

  /** What entry n of the finished table is, for an image of `max` clusters. */
  function Planned(n: nat, max: nat): int
  {
    if n == 0 then MEDIA
    else if n < FIRST || n == max + 2 then LAST
    else n + 1
  }

  /** Where the triples of the first n entries end. */
  function EndOf(n: nat): nat { FAT_AT + 3 * ((n + 1) / 2) }

  /** Everything outside the triples of the first n entries is left alone. */
  ghost predicate SameOutside(s: seq<Byte>, t: seq<Byte>, n: nat)
  {
    |s| == |t| && EndOf(n) <= |s| && s[..FAT_AT] == t[..FAT_AT] && s[EndOf(n)..] == t[EndOf(n)..]
  }

  /** The first n entries of the table are as planned. */
  ghost predicate Filled(s: seq<Byte>, max: nat, n: nat)
  {
    FAT_AT + FAT_BYTES <= |s| && n <= ENTRIES && forall k :: 0 <= k < n ==> ReadEntry(s, FAT_AT, k) == Planned(k, max)
  }

  lemma FilledStep(s: seq<Byte>, max: nat, n: nat, t: Entry)
    requires Filled(s, max, n) && n < ENTRIES && t == Planned(n, max)
    ensures Filled(WriteEntry(s, FAT_AT, n, t), max, n + 1)
    ensures SameOutside(s, WriteEntry(s, FAT_AT, n, t), n + 1)
  {
    forall k | 0 <= k < n + 1
      ensures ReadEntry(WriteEntry(s, FAT_AT, n, t), FAT_AT, k) == Planned(k, max)
    {
      EntryWritten(s, FAT_AT, n, t, k);
    }
  }

  lemma OutsideStep(s: seq<Byte>, t: seq<Byte>, u: seq<Byte>, n: nat)
    requires SameOutside(s, t, n) && SameOutside(t, u, n + 1)
    ensures SameOutside(s, u, n + 1)
  {
    var d := EndOf(n + 1) - EndOf(n);
    assert s[EndOf(n + 1)..] == s[EndOf(n)..][d..] == t[EndOf(n)..][d..] == t[EndOf(n + 1)..];
  }

  /** One planned entry more in the table that was s. */
  method Append(io: array<Byte>, max: nat, n: nat, t: Entry, ghost s: seq<Byte>)
    requires Filled(io[..], max, n) && n < ENTRIES && t == Planned(n, max) && SameOutside(s, io[..], n)
    modifies io
    ensures Filled(io[..], max, n + 1) && SameOutside(s, io[..], n + 1)
  {
    FilledStep(io[..], max, n, t);
    OutsideStep(s, io[..], WriteEntry(io[..], FAT_AT, n, t), n);
    WriteEntryAt(io, FAT_AT, n, t);
  }

  /** The part of `Prepare` that fills the table, for any number of clusters that fits into it. */
  method FillTable(io: array<Byte>, max: nat) returns (n: nat)
    requires FAT_AT + FAT_BYTES <= io.Length && FIRST + max <= ENTRIES
    modifies io
    ensures n == FIRST + max
    ensures Filled(io[..], max, n) && SameOutside(old(io[..]), io[..], n)
  {
    ghost var s := io[..];
    Append(io, max, 0, MEDIA, s);
    Append(io, max, 1, LAST, s);
    Append(io, max, 2, LAST, s);
    n := 3;
    if max > 0 {
      for i := 0 to max - 1
        invariant n == 3 + i && Filled(io[..], max, n) && SameOutside(s, io[..], n)
      {
        Append(io, max, n, n + 1, s);
        n := n + 1;
      }
      Append(io, max, n, LAST, s);
      n := n + 1;
    }
  }

  /** What stands in the table for cluster c; nothing behind the table. */
  function Successor(s: seq<Byte>, c: nat): int
  {
    if InTable(s, FAT_AT, c) then ReadEntry(s, FAT_AT, c) else -1
  }

  /** Following successors from cluster c; `limit` bounds the clusters followed. */
  function Follow(next: nat -> int, c: nat, limit: nat): seq<nat>
    decreases limit
  {
    if limit == 0 || next(c) < 0 then []
    else [c] + if next(c) == LAST then [] else Follow(next, next(c), limit - 1)
  }

  /** The chain from cluster c in the table, as a host follows it. */
  function Chain(s: seq<Byte>, c: nat, limit: nat): seq<nat>
  {
    Follow((k: nat) => Successor(s, k), c, limit)
  }

  /** n consecutive clusters from c on. */
  function From(c: nat, n: nat): (r: seq<nat>)
    ensures |r| == n && forall i :: 0 <= i < n ==> r[i] == c + i
    decreases n
  {
    if n == 0 then [] else [c] + From(c + 1, n - 1)
  }

  lemma EntryAt(s: seq<Byte>, max: nat, c: nat, n: nat)
    requires Filled(s, max, n) && c < n
    ensures InTable(s, FAT_AT, c) && ReadEntry(s, FAT_AT, c) == Planned(c, max)
  {
  }

  /** From c each cluster leads to the next one, and `last` ends. */
  ghost predicate Row(next: nat -> int, c: nat, last: nat)
  {
    c <= last < LAST && forall k :: c <= k <= last ==> next(k) == if k == last then LAST else k + 1
  }

  lemma {:induction false} FollowRow(next: nat -> int, c: nat, last: nat, limit: nat)
    requires Row(next, c, last) && last + 1 - c <= limit
    ensures Follow(next, c, limit) == From(c, last + 1 - c)
    decreases last - c
  {
    if c < last {
      FollowRow(next, c + 1, last, limit - 1);
    } else {
      assert From(c + 1, 0) == [];
    }
  }

  /** The chain from cluster c of a finished table visits the clusters up to max + 2 one after
      the other, and ends there however far the host is prepared to follow it. */
  lemma ChainFrom(s: seq<Byte>, max: nat, c: nat, limit: nat)
    requires FIRST + max <= ENTRIES && Filled(s, max, FIRST + max) && FIRST <= c <= max + 2
    requires max + 3 - c <= limit
    ensures Chain(s, c, limit) == From(c, max + 3 - c)
    ensures ReadEntry(s, FAT_AT, max + 2) == LAST
  {
    forall k | c <= k <= max + 2
      ensures Successor(s, k) == if k == max + 2 then LAST else k + 1
    {
      EntryAt(s, max, k, FIRST + max);
    }
    FollowRow((k: nat) => Successor(s, k), c, max + 2, limit);
    EntryAt(s, max, max + 2, FIRST + max);
  }

  /** Clusters for a file of so many bytes, two sectors each. */
  function Clusters(size: nat): nat
  {
    if size % 1024 == 0 then size / 1024 else size / 1024 + 1
  }

  /** The sector that sector i of a file lies in, by its chain; the data area starts at pt0. */
  function SectorOf(chain: seq<nat>, pt0: nat, i: nat): int
    requires i < 2 * |chain|
  {
    (chain[i / 2] - 2) * 2 + pt0 + i % 2
  }

  /** The chain of the image file covers it with no cluster to spare, and maps sector i of the file
      to disk sector pt2 + i. */
  lemma ChainCoversFile(s: seq<Byte>, size: nat, limit: nat, pt0: nat)
    requires 0 < size && FIRST + Clusters(size) <= ENTRIES && Clusters(size) <= limit
    requires Filled(s, Clusters(size), FIRST + Clusters(size))
    ensures var ch := Chain(s, FIRST, limit);
      && 1024 * (|ch| - 1) < size <= 1024 * |ch|
      && ReadEntry(s, FAT_AT, |ch| + 2) == LAST
      && forall i :: 0 <= i < 2 * |ch| ==> SectorOf(ch, pt0, i) == (FIRST - 2) * 2 + pt0 + i
  {
    ChainFrom(s, Clusters(size), FIRST, limit);
  }
}
