/**
 The image in flash (work/boot/flashwriter.cpp): sectors are erased to all ones before their
 first use, programming only clears bits. Blocks are 512 bytes, counted from the start of
 flash sector 1, where the image lies.
 */
module FlashSpec {
  import opened Words
  import opened DiskSpec
  import opened Fat12

  type Half = h: int | 0 <= h < 0x1_0000

  const ONES: Half := 0xFFFF
  const MAX_SECTORS := 12
  const BLOCKS := 2016
  const HALVES := 516096 // 256 * BLOCKS

  /** Sector k >= 1 holds the blocks from STARTS[k] up to STARTS[k + 1]. */
  const STARTS: seq<nat> := [0, 0, 32, 64, 96, 224, 480, 736, 992, 1248, 1504, 1760, 2016]

  /** SectorSizes, in KiB. */
  const SIZES: seq<nat> := [16, 16, 16, 16, 64, 128, 128, 128, 128, 128, 128, 128]

  lemma StartsFromSizes(k: nat)
    requires 1 <= k < MAX_SECTORS
    ensures STARTS[k + 1] == STARTS[k] + 2 * SIZES[k]
  {
  }

  function SectorOf(b: nat): (k: nat)
    requires b < BLOCKS
    ensures 1 <= k < MAX_SECTORS && STARTS[k] <= b < STARTS[k + 1]
  {
    if b < 32 then 1 else if b < 64 then 2 else if b < 96 then 3 else if b < 224 then 4
    else if b < 480 then 5 else if b < 736 then 6 else if b < 992 then 7 else if b < 1248 then 8
    else if b < 1504 then 9 else if b < 1760 then 10 else 11
  }

  datatype Flash = Flash(mem: seq<Half>, erased: seq<bool>, locked: bool)

  ghost predicate Sized(f: Flash)
  {
    |f.mem| == HALVES && |f.erased| == MAX_SECTORS
  }

  /** What erasing before block `end` does to a sector: only sectors not yet erased since boot. */
  predicate Fresh(f: Flash, k: nat, end: int)
    requires Sized(f) && 1 <= k < MAX_SECTORS
  {
    !f.erased[k] && STARTS[k] < end
  }

  function ErasedMem(f: Flash, end: int): (m: seq<Half>)
    requires Sized(f)
    ensures |m| == HALVES
    ensures forall a :: 0 <= a < HALVES ==> m[a] == if Fresh(f, SectorOf(a / 256), end) then ONES else f.mem[a]
  {
    seq(HALVES, a requires 0 <= a < HALVES => if Fresh(f, SectorOf(a / 256), end) then ONES else f.mem[a])
  }

  function ErasedFlags(f: Flash, end: int): (e: seq<bool>)
    requires Sized(f)
    ensures |e| == MAX_SECTORS && e[0] == f.erased[0]
    ensures forall k :: 1 <= k < MAX_SECTORS ==> e[k] == (f.erased[k] || STARTS[k] < end)
  {
    seq(MAX_SECTORS, k requires 0 <= k < MAX_SECTORS => f.erased[k] || (1 <= k && STARTS[k] < end))
  }

  /** eraseBlocks: everything up to the end of the request is erased, sector by sector. */
  function Erased(f: Flash, from: int, len: int): (r: Flash)
    requires Sized(f)
    ensures Sized(r)
  {
    Flash(ErasedMem(f, from + len), ErasedFlags(f, from + len), false)
  }

  function JoinHalf(lo: Byte, hi: Byte): Half { var l: int := lo; l + 256 * hi }

  /** Bytes as little-endian halfwords. */
  function HalvesOf(p: seq<Byte>): (h: seq<Half>)
    requires |p| % 2 == 0
    ensures |h| == |p| / 2
    ensures forall i :: 0 <= i < |h| ==> h[i] == JoinHalf(p[2 * i], p[2 * i + 1])
  {
    seq(|p| / 2, i requires 0 <= i < |p| / 2 => JoinHalf(p[2 * i], p[2 * i + 1]))
  }

  /** Flash as it is read. */
  function BytesOf(h: seq<Half>): (p: seq<Byte>)
    ensures |p| == 2 * |h|
    ensures forall i :: 0 <= i < |p| ==> p[i] == if i % 2 == 0 then h[i / 2] % 256 else h[i / 2] / 256
  {
    seq(2 * |h|, i requires 0 <= i < 2 * |h| => if i % 2 == 0 then h[i / 2] % 256 else h[i / 2] / 256)
  }

  lemma BytesHalves(p: seq<Byte>)
    requires |p| % 2 == 0
    ensures BytesOf(HalvesOf(p)) == p
  {
  }

  lemma {:induction false} AndBelow(a: nat, b: nat)
    ensures And(a, b) <= a
  {
    if a != 0 && b != 0 {
      AndBelow(a / 2, b / 2);
    }
  }

  function AndHalf(a: Half, b: Half): Half
  {
    AndBelow(a, b);
    And(a, b)
  }

  /** Erased halfwords take any value. */
  lemma ProgramErased(v: Half)
    ensures AndHalf(ONES, v) == v
  {
    Pow2Values();
    AndOnes(v, 16);
  }

  /** Programming halfwords from index `at` on. */
  function Programmed(mem: seq<Half>, at: nat, hs: seq<Half>): (r: seq<Half>)
    requires at + |hs| <= |mem|
    ensures |r| == |mem|
    ensures forall a :: 0 <= a < |mem| ==> r[a] == if at <= a < at + |hs| then AndHalf(mem[a], hs[a - at]) else mem[a]
  {
    seq(|mem|, a requires 0 <= a < |mem| => if at <= a < at + |hs| then AndHalf(mem[a], hs[a - at]) else mem[a])
  }

  // ----------------------------------------------------------------------- runs

  /** A WRITE command, or one packet of the image arriving. */
  datatype Event = Command(offset: Word, length: Word) | Arrives(k: nat, p: Packet)

  const IMAGE_PACKETS := 16128 // 8 * BLOCKS

  /** The packet's halfwords. */
  function Region(mem: seq<Half>, k: nat): (r: seq<Half>)
    requires |mem| == HALVES && k < IMAGE_PACKETS
    ensures |r| == 32 && forall i :: 0 <= i < 32 ==> r[i] == mem[32 * k + i]
  {
    mem[32 * k..32 * k + 32]
  }

  function Step(f: Flash, e: Event, c: Coder): (r: Flash)
    requires Sized(f) && (e.Arrives? ==> e.k < IMAGE_PACKETS)
    ensures Sized(r)
  {
    match e
    case Command(offset, length) =>
      var request := ToErase(offset, length);
      if request.Erase? then Erased(f, request.start, request.count) else f
    case Arrives(k, p) =>
      if f.locked then f else f.(mem := Programmed(f.mem, 32 * k, HalvesOf(c.dec(p))))
  }

  ghost predicate InRange(es: seq<Event>)
  {
    forall i :: 0 <= i < |es| && es[i].Arrives? ==> es[i].k < IMAGE_PACKETS
  }

  function Run(f: Flash, es: seq<Event>, c: Coder): (r: Flash)
    requires Sized(f) && InRange(es)
    ensures Sized(r)
  {
    if es == [] then f else Step(Run(f, es[..|es| - 1], c), es[|es| - 1], c)
  }

  /** The packets that have arrived. */
  function Written(es: seq<Event>): map<nat, Packet>
  {
    if es == [] then map[]
    else
      match es[|es| - 1]
      case Command(_, _) => Written(es[..|es| - 1])
      case Arrives(k, p) => Written(es[..|es| - 1])[k := p]
  }

  /** The sectors of the WRITE command in progress. */
  function Current(es: seq<Event>): (Word, Word)
  {
    if es == [] then (0, 0)
    else
      match es[|es| - 1]
      case Command(offset, length) => (offset, length)
      case Arrives(_, _) => Current(es[..|es| - 1])
  }

  /** Disk sector 6 + k / 8, where image packet k belongs, lies in the sectors of command c. */
  predicate Covers(c: (Word, Word), k: nat)
  {
    c.0 <= PT2 + k / 8 < c.0 + c.1
  }

  /** Commands stay inside the disk, packets inside their command, and no packet is written twice. */
  ghost predicate Conforming(es: seq<Event>)
  {
    es == [] ||
    (var pre, e := es[..|es| - 1], es[|es| - 1];
     Conforming(pre) &&
     match e
     case Command(offset, length) => offset + length <= TOTAL
     case Arrives(k, p) => k < IMAGE_PACKETS && Covers(Current(pre), k) && k !in Written(pre))
  }

  lemma {:induction false} ConformingInRange(es: seq<Event>)
    requires Conforming(es)
    ensures InRange(es) && Current(es).0 + Current(es).1 <= TOTAL
    ensures forall k :: k in Written(es) ==> k < IMAGE_PACKETS
  {
    if es != [] {
      ConformingInRange(es[..|es| - 1]);
    }
  }

  /** After boot nothing counts as erased and the flash is locked. */
  ghost predicate Booted(f: Flash)
  {
    Sized(f) && f.locked && forall k :: 0 <= k < MAX_SECTORS ==> !f.erased[k]
  }

  ghost predicate AllOnes(h: seq<Half>)
  {
    forall i :: 0 <= i < |h| ==> h[i] == ONES
  }

  /** Packet k lies in a sector erased since boot. */
  predicate Ready(f: Flash, k: nat)
    requires Sized(f) && k < IMAGE_PACKETS
  {
    f.erased[SectorOf(k / 8)]
  }

  /** What holds of packet k after events es: in an erased sector it is what has arrived, or blank. */
  ghost predicate PacketGood(f: Flash, es: seq<Event>, k: nat, c: Coder)
    requires Sized(f) && k < IMAGE_PACKETS
  {
    && (k in Written(es) ==> Ready(f, k) && Region(f.mem, k) == HalvesOf(c.dec(Written(es)[k])))
    && (k !in Written(es) && Ready(f, k) ==> AllOnes(Region(f.mem, k)))
    && (Covers(Current(es), k) ==> Ready(f, k) && !f.locked)
  }

  lemma EraseKeeps(f: Flash, es: seq<Event>, offset: Word, length: Word, k: nat, c: Coder)
    requires Sized(f) && k < IMAGE_PACKETS && PacketGood(f, es, k, c) && offset + length <= TOTAL
    ensures PacketGood(Step(f, Command(offset, length), c), es + [Command(offset, length)], k, c)
  {
    var e := Command(offset, length);
    var f' := Step(f, e, c);
    assert (es + [e])[..|es|] == es;
    var b := k / 8;
    EraseExact(offset, length, b);
    var request := ToErase(offset, length);
    if request.Erase? {
      var end := request.start + request.count;
      forall i | 0 <= i < 32
        ensures Region(f'.mem, k)[i] == if Fresh(f, SectorOf(b), end) then ONES else Region(f.mem, k)[i]
      {
        assert (32 * k + i) / 256 == b;
      }
      if !Fresh(f, SectorOf(b), end) {
        assert Region(f'.mem, k) == Region(f.mem, k);
      }
    }
  }

  /** A packet arriving on a blank place. */
  lemma ArriveHere(mem: seq<Half>, k: nat, h: seq<Half>)
    requires |mem| == HALVES && k < IMAGE_PACKETS && |h| == 32 && AllOnes(Region(mem, k))
    ensures Region(Programmed(mem, 32 * k, h), k) == h
  {
    var m := Programmed(mem, 32 * k, h);
    forall i | 0 <= i < 32
      ensures Region(m, k)[i] == h[i]
    {
      assert Region(mem, k)[i] == ONES;
      ProgramErased(h[i]);
    }
  }

  lemma ArriveElsewhere(f: Flash, es: seq<Event>, j: nat, p: Packet, k: nat, c: Coder)
    requires Sized(f) && k < IMAGE_PACKETS && j < IMAGE_PACKETS && j != k && PacketGood(f, es, k, c)
    ensures PacketGood(Step(f, Arrives(j, p), c), es + [Arrives(j, p)], k, c)
  {
    assert (es + [Arrives(j, p)])[..|es|] == es;
    var f' := Step(f, Arrives(j, p), c);
    assert Region(f'.mem, k) == Region(f.mem, k);
  }

  lemma ArriveKeeps(f: Flash, es: seq<Event>, j: nat, p: Packet, k: nat, c: Coder)
    requires Sized(f) && k < IMAGE_PACKETS && j < IMAGE_PACKETS
    requires PacketGood(f, es, j, c) && PacketGood(f, es, k, c) && Covers(Current(es), j) && j !in Written(es)
    ensures PacketGood(Step(f, Arrives(j, p), c), es + [Arrives(j, p)], k, c)
  {
    if k == j {
      assert (es + [Arrives(j, p)])[..|es|] == es;
      ArriveHere(f.mem, k, HalvesOf(c.dec(p)));
    } else {
      ArriveElsewhere(f, es, j, p, k, c);
    }
  }

  lemma {:induction false} RunGood(f: Flash, es: seq<Event>, k: nat, c: Coder)
    requires Booted(f) && Conforming(es) && InRange(es) && k < IMAGE_PACKETS
    ensures PacketGood(Run(f, es, c), es, k, c)
    decreases |es|
  {
    if es != [] {
      var pre, e := es[..|es| - 1], es[|es| - 1];
      assert es == pre + [e];
      RunGood(f, pre, k, c);
      match e
      case Command(offset, length) =>
        EraseKeeps(Run(f, pre, c), pre, offset, length, k, c);
      case Arrives(j, p) =>
        RunGood(f, pre, j, c);
        ArriveKeeps(Run(f, pre, c), pre, j, p, k, c);
    }
  }

  /** After any conforming run flash holds exactly what has arrived, decrypted. */
  lemma FlashHoldsImage(f: Flash, es: seq<Event>, k: nat, c: Coder)
    requires Booted(f) && Conforming(es) && k in Written(es)
    ensures InRange(es) && k < IMAGE_PACKETS
    ensures BytesOf(Region(Run(f, es, c).mem, k)) == c.dec(Written(es)[k])
  {
    ConformingInRange(es);
    RunGood(f, es, k, c);
    BytesHalves(c.dec(Written(es)[k]));
  }

  /** Every packet is programmed in a sector that was erased before. */
  lemma ProgramsErased(f: Flash, es: seq<Event>, k: nat, p: Packet, c: Coder)
    requires Booted(f) && Conforming(es + [Arrives(k, p)])
    ensures InRange(es) && k < IMAGE_PACKETS && var g := Run(f, es, c); !g.locked && Ready(g, k)
  {
    assert (es + [Arrives(k, p)])[..|es|] == es;
    ConformingInRange(es);
    RunGood(f, es, k, c);
  }

  /** The event erases sector k. */
  ghost predicate Erases(f: Flash, e: Event, k: nat)
    requires Sized(f) && 1 <= k < MAX_SECTORS
  {
    && e.Command? && ToErase(e.offset, e.length).Erase?
    && var request := ToErase(e.offset, e.length); Fresh(f, k, request.start + request.count)
  }

  lemma {:induction false} FlagsStay(f: Flash, es: seq<Event>, i: nat, k: nat, c: Coder)
    requires Sized(f) && InRange(es) && i <= |es| && 1 <= k < MAX_SECTORS
    ensures InRange(es[..i]) && (Run(f, es[..i], c).erased[k] ==> Run(f, es, c).erased[k])
    decreases |es|
  {
    if i == |es| {
      assert es[..i] == es;
    } else {
      var pre := es[..|es| - 1];
      assert pre[..i] == es[..i];
      FlagsStay(f, pre, i, k, c);
    }
  }

  /** No sector is erased twice: not by any two events of any run, conforming or not. */
  lemma ErasedOnce(f: Flash, es: seq<Event>, i: nat, j: nat, k: nat, c: Coder)
    requires Sized(f) && InRange(es) && i < j < |es| && 1 <= k < MAX_SECTORS
    ensures InRange(es[..i]) && InRange(es[..j])
    ensures !(Erases(Run(f, es[..i], c), es[i], k) && Erases(Run(f, es[..j], c), es[j], k))
  {
    assert es[..i + 1][..i] == es[..i] && es[..j][..i + 1] == es[..i + 1];
    assert Run(f, es[..i + 1], c) == Step(Run(f, es[..i], c), es[i], c);
    FlagsStay(f, es[..j], i + 1, k, c);
  }

  /** Block b keeps what it holds. */
  ghost predicate SameBlock(f: Flash, g: Flash, b: nat)
    requires Sized(f) && Sized(g) && b < BLOCKS
  {
    forall a :: 256 * b <= a < 256 * b + 256 ==> g.mem[a] == f.mem[a]
  }

  /** Neither the command reaches the sector of block b, nor is the packet for it. */
  ghost predicate Elsewhere(e: Event, b: nat)
    requires b < BLOCKS
  {
    match e
    case Command(offset, length) => offset + length <= 6 + STARTS[SectorOf(b)]
    case Arrives(k, _) => k / 8 != b
  }

  lemma StepElsewhere(f: Flash, e: Event, c: Coder, b: nat)
    requires Sized(f) && b < BLOCKS && Elsewhere(e, b)
    requires match e case Command(offset, length) => offset + length <= TOTAL case Arrives(k, _) => k < IMAGE_PACKETS
    ensures SameBlock(f, Step(f, e, c), b)
  {
    forall a | 256 * b <= a < 256 * b + 256
      ensures Step(f, e, c).mem[a] == f.mem[a]
    {
      assert a / 256 == b;
    }
  }

  /** Flash is left alone where nothing is written: a block keeps what it holds through any conforming run in which no
      command reaches its sector and no packet is for it. */
  lemma {:induction false} LeftAlone(f: Flash, es: seq<Event>, c: Coder, b: nat)
    requires Sized(f) && Conforming(es) && b < BLOCKS && forall i :: 0 <= i < |es| ==> Elsewhere(es[i], b)
    ensures InRange(es) && SameBlock(f, Run(f, es, c), b)
    decreases |es|
  {
    ConformingInRange(es);
    if es != [] {
      var pre := es[..|es| - 1];
      assert forall i :: 0 <= i < |pre| ==> pre[i] == es[i];
      LeftAlone(f, pre, c, b);
      StepElsewhere(Run(f, pre, c), es[|es| - 1], c, b);
    }
  }
}
