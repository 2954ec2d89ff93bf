/**
 A stream of encrypted bytes on its way to the memory of the device, for RAM and for flash.
 */
module Stream {
  import opened Words
  import opened Feistel
  import opened Blocks
  import opened DiskSpec
  import opened FlashSpec

  /** A stream of n packets, cut into them. */
  function Packets(s: seq<Byte>, n: nat): (ps: seq<Packet>)
    requires |s| == 64 * n
    ensures |ps| == n && forall i :: 0 <= i < n ==> ps[i] == s[64 * i..64 * i + 64]
  {
    seq(n, i requires 0 <= i < n => s[64 * i..64 * i + 64])
  }

  lemma Eighths(n: nat)
    ensures 64 * n % 8 == 0
  {
  }

  lemma EighthsAdd(x: nat, y: nat)
    requires x % 8 == 0 && y % 8 == 0
    ensures (x + y) % 8 == 0
  {
  }

  /** dec codes packets pair by pair. */
  ghost predicate Pairwise(dec: Packet -> Packet, decode: Block -> Block)
  {
    forall p: Packet :: dec(p) == CodeAll(decode, p)
  }

  lemma CodePieces(decode: Block -> Block, a: seq<Byte>, m: seq<Byte>, b: seq<Byte>)
    requires |a| % 8 == 0 && |m| % 8 == 0 && |b| % 8 == 0
    ensures |(a + m) + b| % 8 == 0
    ensures CodeAll(decode, (a + m) + b)[|a|..|a| + |m|] == CodeAll(decode, m)
  {
    EighthsAdd(|a|, |m|);
    EighthsAdd(|a| + |m|, |b|);
    var x, y, z := CodeAll(decode, a), CodeAll(decode, m), CodeAll(decode, b);
    CodeConcat(decode, a + m, b);
    CodeConcat(decode, a, m);
    assert ((x + y) + z)[|x|..|x| + |y|] == y;
  }

  /** Coding a stream is coding its packets. */
  lemma CodePart(decode: Block -> Block, s: seq<Byte>, n: nat, i: nat)
    requires |s| == 64 * n && i < n
    ensures |s| % 8 == 0
    ensures CodeAll(decode, s)[64 * i..64 * i + 64] == CodeAll(decode, s[64 * i..64 * i + 64])
  {
    var a, m, b := s[..64 * i], s[64 * i..64 * i + 64], s[64 * i + 64..];
    Eighths(n);
    Eighths(i);
    Eighths(n - i - 1);
    CodePieces(decode, a, m, b);
    assert s == (a + m) + b;
  }

  /** Two streams are equal when they are equal packet by packet. */
  lemma SameByPackets(s: seq<Byte>, t: seq<Byte>, n: nat)
    requires |s| == |t| == 64 * n
    requires forall k :: 0 <= k < n ==> s[64 * k..64 * k + 64] == t[64 * k..64 * k + 64]
    ensures s == t
  {
    forall i | 0 <= i < |s|
      ensures s[i] == t[i]
    {
      var k := i / 64;
      assert s[64 * k..64 * k + 64][i - 64 * k] == t[64 * k..64 * k + 64][i - 64 * k];
    }
  }

  lemma FrontByPackets(mem: seq<Byte>, t: seq<Byte>, n: nat)
    requires |t| == 64 * n <= |mem|
    requires forall k :: 0 <= k < n ==> mem[64 * k..64 * k + 64] == t[64 * k..64 * k + 64]
    ensures mem[..|t|] == t
  {
    var s := mem[..|t|];
    forall k | 0 <= k < n
      ensures s[64 * k..64 * k + 64] == t[64 * k..64 * k + 64]
    {
      assert s[64 * k..64 * k + 64] == mem[64 * k..64 * k + 64];
    }
    SameByPackets(s, t, n);
  }

  /** The packets ps have arrived, in whatever order, by however many commands, and with whatever others. */
  ghost predicate Delivered(es: seq<Event>, ps: seq<Packet>)
  {
    forall k :: 0 <= k < |ps| ==> k in Written(es) && Written(es)[k] == ps[k]
  }

  // ----------------------------------------------------------------------- in RAM

  ghost predicate InImage(es: seq<Event>)
  {
    forall i :: 0 <= i < |es| && es[i].Arrives? ==> es[i].k < PACKETS - IMAGE_PACKET
  }

  /** The disk in RAM takes every packet of the image, and erases nothing. */
  function RamStep(d: Disk, e: Event): (r: Disk)
    requires Sound(d) && (e.Arrives? ==> e.k < PACKETS - IMAGE_PACKET)
    ensures Sound(r)
  {
    match e
    case Command(_, _) => d
    case Arrives(k, p) => WritePacket(d, IMAGE_PACKET + k, p)
  }

  function RamRun(d: Disk, es: seq<Event>): (r: Disk)
    requires Sound(d) && InImage(es)
    ensures Sound(r)
  {
    if es == [] then d else RamStep(RamRun(d, es[..|es| - 1]), es[|es| - 1])
  }

  lemma RamStepAt(d: Disk, e: Event, k: nat)
    requires Sound(d) && (e.Arrives? ==> e.k < PACKETS - IMAGE_PACKET) && k < PACKETS - IMAGE_PACKET
    ensures RamStep(d, e).coder == d.coder
    ensures Slice(RamStep(d, e).image, k) == if e.Arrives? && e.k == k then d.coder.dec(e.p) else Slice(d.image, k)
  {
    if e.Arrives? {
      SliceSplice(d.image, e.k, d.coder.dec(e.p), k);
    }
  }

  /** After any run every packet of the image is the last one that arrived for it, decoded. */
  lemma {:induction false} RamHolds(d: Disk, es: seq<Event>, k: nat)
    requires Sound(d) && InImage(es) && k < PACKETS - IMAGE_PACKET
    ensures RamRun(d, es).coder == d.coder
    ensures Slice(RamRun(d, es).image, k) ==
      if k in Written(es) then d.coder.dec(Written(es)[k]) else Slice(d.image, k)
  {
    if es != [] {
      RamHolds(d, es[..|es| - 1], k);
      RamStepAt(RamRun(d, es[..|es| - 1]), es[|es| - 1], k);
    }
  }

  /** However it was written through the disk in RAM, the whole stream arrives decoded. */
  lemma RamArrival(sent: seq<Byte>, n: nat, decode: Block -> Block, d: Disk, es: seq<Event>)
    requires |sent| == 64 * n && n <= PACKETS - IMAGE_PACKET && Sound(d) && Pairwise(d.coder.dec, decode)
    requires InImage(es) && Delivered(es, Packets(sent, n))
    ensures |sent| % 8 == 0 && RamRun(d, es).image[..|sent|] == CodeAll(decode, sent)
  {
    Eighths(n);
    var mem, t := RamRun(d, es).image, CodeAll(decode, sent);
    forall k | 0 <= k < n
      ensures mem[64 * k..64 * k + 64] == t[64 * k..64 * k + 64]
    {
      RamHolds(d, es, k);
      CodePart(decode, sent, n, k);
    }
    FrontByPackets(mem, t, n);
  }

  // --------------------------------------------------------------------- on flash

  lemma RegionBytes(mem: seq<Half>, k: nat)
    requires |mem| == HALVES && k < IMAGE_PACKETS
    ensures BytesOf(mem)[64 * k..64 * k + 64] == BytesOf(Region(mem, k))
  {
    forall i | 0 <= i < 64
      ensures BytesOf(mem)[64 * k + i] == BytesOf(Region(mem, k))[i]
    {
      assert (64 * k + i) / 2 == 32 * k + i / 2 && (64 * k + i) % 2 == i % 2;
    }
  }

  lemma FlashPart(sent: seq<Byte>, n: nat, decode: Block -> Block, f: Flash, es: seq<Event>, c: Coder, k: nat)
    requires |sent| == 64 * n && k < n && |sent| % 8 == 0 && Booted(f) && Pairwise(c.dec, decode)
    requires Conforming(es) && InRange(es) && Delivered(es, Packets(sent, n))
    ensures k < IMAGE_PACKETS
    ensures BytesOf(Run(f, es, c).mem)[64 * k..64 * k + 64] == CodeAll(decode, sent)[64 * k..64 * k + 64]
  {
    FlashHoldsImage(f, es, k, c);
    RegionBytes(Run(f, es, c).mem, k);
    CodePart(decode, sent, n, k);
  }

  /** However it was programmed into flash after boot, by conforming commands, the whole stream arrives decoded. */
  lemma FlashArrival(sent: seq<Byte>, n: nat, decode: Block -> Block, f: Flash, c: Coder, es: seq<Event>)
    requires |sent| == 64 * n && n <= IMAGE_PACKETS && Booted(f) && Pairwise(c.dec, decode)
    requires Conforming(es) && Delivered(es, Packets(sent, n))
    ensures |sent| % 8 == 0 && InRange(es) && BytesOf(Run(f, es, c).mem)[..|sent|] == CodeAll(decode, sent)
  {
    Eighths(n);
    ConformingInRange(es);
    var mem, t := BytesOf(Run(f, es, c).mem), CodeAll(decode, sent);
    forall k | 0 <= k < n
      ensures mem[64 * k..64 * k + 64] == t[64 * k..64 * k + 64]
    {
      FlashPart(sent, n, decode, f, es, c, k);
    }
    FrontByPackets(mem, t, n);
  }

  /** A conforming run stays inside the image of the disk. */
  lemma {:induction false} ConformingInImage(es: seq<Event>)
    requires Conforming(es)
    ensures InImage(es)
  {
    ConformingInRange(es);
    if es != [] {
      ConformingInImage(es[..|es| - 1]);
      ConformingInRange(es[..|es| - 1]);
    }
  }

  // ------------------------------------------------------------- one command for all

  /** The sectors that n packets take up, from the start of the image. */
  function Extent(n: nat): (Word, Word)
    requires n <= PACKETS - IMAGE_PACKET
  {
    (PT2, (n + 7) / 8)
  }

  function CommandFor(ps: seq<Packet>): Event
    requires |ps| <= PACKETS - IMAGE_PACKET
  {
    Command(Extent(|ps|).0, Extent(|ps|).1)
  }

  /** The WRITE command for all sectors of the image, and the first n packets. */
  function Arrivals(ps: seq<Packet>, n: nat): seq<Event>
    requires n <= |ps| <= PACKETS - IMAGE_PACKET
  {
    if n == 0 then [CommandFor(ps)] else Arrivals(ps, n - 1) + [Arrives(n - 1, ps[n - 1])]
  }

  lemma FirstCommand(es: seq<Event>, offset: Word, length: Word)
    requires es == [Command(offset, length)] && offset + length <= TOTAL
    ensures Conforming(es) && Current(es) == (offset, length) && Written(es) == map[]
  {
    assert es[..0] == [];
    assert Conforming([]) && Written([]) == map[];
  }

  lemma OneArrival(es: seq<Event>, k: nat, p: Packet)
    requires Conforming(es) && k < IMAGE_PACKETS && Covers(Current(es), k) && k !in Written(es)
    ensures var es' := es + [Arrives(k, p)];
      Conforming(es') && Current(es') == Current(es) && Written(es') == Written(es)[k := p]
  {
    assert (es + [Arrives(k, p)])[..|es|] == es;
  }

  /** Exactly the first n packets of the image have arrived. */
  ghost predicate Arrived(es: seq<Event>, ps: seq<Packet>, n: nat)
    requires n <= |ps|
  {
    && (forall k :: k in Written(es) <==> 0 <= k < n)
    && (forall k :: 0 <= k < n ==> Written(es)[k] == ps[k])
  }

  lemma InCommand(n: nat, k: nat)
    requires k < n <= PACKETS - IMAGE_PACKET
    ensures Covers(Extent(n), k)
  {
  }

  lemma NextArrival(es: seq<Event>, ps: seq<Packet>, k: nat)
    requires k < |ps| <= PACKETS - IMAGE_PACKET && Current(es) == Extent(|ps|)
    requires Conforming(es) && Arrived(es, ps, k)
    ensures var es' := es + [Arrives(k, ps[k])];
      Conforming(es') && Arrived(es', ps, k + 1) && Current(es') == Current(es)
  {
    InCommand(|ps|, k);
    OneArrival(es, k, ps[k]);
  }

  lemma {:induction false} ArrivalsBuilt(ps: seq<Packet>, n: nat) returns (es: seq<Event>)
    requires n <= |ps| <= PACKETS - IMAGE_PACKET
    ensures es == Arrivals(ps, n) && Conforming(es) && Arrived(es, ps, n) && Current(es) == Extent(|ps|)
  {
    if n == 0 {
      es := [CommandFor(ps)];
      FirstCommand(es, Extent(|ps|).0, Extent(|ps|).1);
    } else {
      var pre := ArrivalsBuilt(ps, n - 1);
      NextArrival(pre, ps, n - 1);
      es := pre + [Arrives(n - 1, ps[n - 1])];
    }
  }

  lemma ArrivalsConform(ps: seq<Packet>, n: nat)
    requires n <= |ps| <= PACKETS - IMAGE_PACKET
    ensures Conforming(Arrivals(ps, n)) && Arrived(Arrivals(ps, n), ps, n)
    ensures Current(Arrivals(ps, n)) == Extent(|ps|)
  {
    var es := ArrivalsBuilt(ps, n);
  }

  /** The writing of all packets by one command, as the disk object does it. */
  lemma {:induction false} CommandRun(d: Disk, ps: seq<Packet>, n: nat) returns (es: seq<Event>, d': Disk)
    requires Sound(d) && n <= |ps| <= PACKETS - IMAGE_PACKET
    ensures es == Arrivals(ps, n) && InImage(es) && d' == RamRun(d, es) && d' == WriteAll(d, IMAGE_PACKET, ps[..n])
  {
    if n == 0 {
      RunMore(d, [], CommandFor(ps));
      es, d' := [] + [CommandFor(ps)], d;
    } else {
      var pre, before := CommandRun(d, ps, n - 1);
      var q, e := ps[..n - 1], Arrives(n - 1, ps[n - 1]);
      RunMore(d, pre, e);
      WriteAllLast(d, IMAGE_PACKET, q, e.p);
      es, d' := pre + [e], RamStep(before, e);
      assert ps[..n] == q + [e.p];
    }
  }

  lemma OneCommandRun(d: Disk, ps: seq<Packet>)
    requires Sound(d) && |ps| <= PACKETS - IMAGE_PACKET
    ensures InImage(Arrivals(ps, |ps|)) && RamRun(d, Arrivals(ps, |ps|)) == WriteAll(d, IMAGE_PACKET, ps)
  {
    var es, d' := CommandRun(d, ps, |ps|);
    assert ps[..|ps|] == ps;
  }

  lemma RunMore(d: Disk, es: seq<Event>, e: Event)
    requires Sound(d) && InImage(es) && (e.Arrives? ==> e.k < PACKETS - IMAGE_PACKET)
    ensures InImage(es + [e]) && RamRun(d, es + [e]) == RamStep(RamRun(d, es), e)
  {
    assert (es + [e])[..|es|] == es;
  }

  lemma {:induction false} WriteAllLast(d: Disk, k: nat, ps: seq<Packet>, p: Packet)
    requires Sound(d) && k + |ps| + 1 <= PACKETS
    ensures WriteAll(d, k, ps + [p]) == WritePacket(WriteAll(d, k, ps), k + |ps|, p)
    decreases |ps|
  {
    if ps == [] {
      assert ps + [p] == [p] && [p][1..] == [];
    } else {
      assert (ps + [p])[1..] == ps[1..] + [p];
      WriteAllLast(WritePacket(d, k, ps[0]), k + 1, ps[1..], p);
    }
  }

  /** One command and its packets deliver them all. */
  lemma OneCommandDelivers(ps: seq<Packet>)
    requires |ps| <= PACKETS - IMAGE_PACKET
    ensures Conforming(Arrivals(ps, |ps|)) && Delivered(Arrivals(ps, |ps|), ps)
  {
    ArrivalsConform(ps, |ps|);
  }

  /** An encoded image, with anything behind it, decodes to the image. */
  lemma Decodes(image: seq<Byte>, pad: seq<Byte>, code: Block -> Block, decode: Block -> Block)
    requires |image| % 8 == 0 && |pad| % 8 == 0
    requires forall b: Block :: decode(code(b)) == b
    ensures CodeAll(decode, CodeAll(code, image) + pad) == image + CodeAll(decode, pad)
  {
    CodeConcat(decode, CodeAll(code, image), pad);
    CodeUndo(code, decode, image);
  }
}

/**
 From the firmware file on the server to the device that starts it: key recovery, the check
 fields, encryption, sectors written by the host, decryption on arrival, and the check at boot.
 */
module Pipeline {
  import opened Words
  import opened Feistel
  import opened Blocks
  import opened Tea
  import opened DiskSpec
  import opened Keys
  import opened FwCheck
  import opened ImageWriter
  import opened FlashSpec
  import opened Stream
  import opened Fat12

  /** The file passes FwCheck and becomes the image. */
  ghost predicate Checked(file: seq<Byte>, image: seq<Byte>)
  {
    && DESCRIPTOR_END <= |Padded(file)| < M32 && Load(Padded(file), MAGIC_AT) == MAGIC
    && image == Filled(Padded(file))
  }

  /** What the host writes: the encrypted image and whatever fills up the last sector. */
  ghost predicate Sent(image: seq<Byte>, key: Key, sent: seq<Byte>, blocks: nat)
    requires |image| % 8 == 0
  {
    |sent| == 512 * blocks && |image| <= |sent| && sent[..|image|] == Encrypted(image, key)
  }

  /** The whole array is written in chunks, in order. */
  method SendChunks(image: array<Byte>) returns (out: seq<Byte>)
    ensures out == image[..]
  {
    var chunk, start, length := 1024, 0, image.Length;
    out := [];
    while 0 < length
      invariant 0 < chunk && 0 <= start <= image.Length && start + length == image.Length && out == image[..start]
    {
      if length < chunk {
        chunk := length;
      }
      out := out + image[start..start + chunk];
      start, length := start + chunk, length - chunk;
    }
    assert image[..start] == image[..];
  }

  method EncryptWhole(image: array<Byte>, key: Key)
    requires image.Length % 8 == 0
    modifies image
    ensures image[..] == Encrypted(old(image[..]), key)
  {
    assert image[..image.Length] == image[..];
    EncryptBlock(image, image.Length, key);
  }

  /** sendFw: the file is checked, coded in place and sent. */
  method SendFw(file: seq<Byte>, loader: Key) returns (ok: bool, out: seq<Byte>)
    requires |Padded(file)| < M32 && (file == [] || DESCRIPTOR_END <= |Padded(file)|)
    ensures ok <==> file != [] && Load(Padded(file), MAGIC_AT) == MAGIC
    ensures ok <==> Magic(file)
    ensures ok ==> Checked(file, Filled(Padded(file))) && out == Encrypted(Filled(Padded(file)), loader)
    ensures ok ==> |out| % 8 == 0 && Carries(Decrypted(out, loader), file)
  {
    var r := FwCheck.FwCheck(file);
    ok, out := r.Image?, [];
    if ok {
      CryptInverse(r.bytes[..], loader);
      EncryptWhole(r.bytes, loader);
      out := SendChunks(r.bytes);
    }
  }

  /** A device with the image in its memory starts it. */
  lemma CheckedAccepted(file: seq<Byte>, image: seq<Byte>, m: Memory)
    requires Checked(file, image) && Holds(m, image)
    ensures Acceptable(m) && WordAt(m, SIZE_AT) == Round8(|file|) && Magic(file) && Carries(image, file)
  {
    FilledIsAcceptable(Padded(file), m);
    MagicBytes(file);
    FilledCarries(file);
  }

  lemma PairwiseTea(key: Key)
    ensures Pairwise(TeaCoder(key).dec, Decoded(key))
  {
  }

  lemma EighthsLeft(blocks: nat, n: nat)
    requires n % 8 == 0 && n <= 512 * blocks
    ensures (512 * blocks - n) % 8 == 0 && 512 * blocks % 8 == 0
  {
  }

  lemma FrontOf(s: seq<Byte>, n: nat)
    requires n <= |s|
    ensures s == s[..n] + s[n..]
  {
  }

  lemma DecodesFront(image: seq<Byte>, code: Block -> Block, decode: Block -> Block, sent: seq<Byte>, blocks: nat)
    requires |image| % 8 == 0 && |image| <= |sent| == 512 * blocks
    requires sent[..|image|] == CodeAll(code, image)
    requires forall b: Block :: decode(code(b)) == b
    ensures |sent| % 8 == 0 && CodeAll(decode, sent)[..|image|] == image
  {
    EighthsLeft(blocks, |image|);
    FrontOf(sent, |image|);
    Decodes(image, sent[|image|..], code, decode);
  }

  /** What was sent decrypts to the image. */
  lemma SentDecodes(image: seq<Byte>, key: Key, sent: seq<Byte>, blocks: nat)
    requires |image| % 8 == 0 && Sent(image, key, sent, blocks)
    ensures |sent| % 8 == 0 && CodeAll(Decoded(key), sent)[..|image|] == image
  {
    forall b: Block
      ensures Decoded(key)(Encoded(key)(b)) == b
    {
      BlockInverse(b, key);
    }
    DecodesFront(image, Encoded(key), Decoded(key), sent, blocks);
  }

  /** With the RAM writer: once the sectors have arrived, memory holds the image. */
  lemma LandsInRam(image: seq<Byte>, key: Key, sent: seq<Byte>, blocks: nat, d: Disk, es: seq<Event>)
    requires |image| % 8 == 0 && Sent(image, key, sent, blocks) && blocks <= 122
    requires Sound(d) && d.coder == TeaCoder(key) && InImage(es) && Delivered(es, Packets(sent, 8 * blocks))
    ensures RamRun(d, es).image[..|image|] == image
  {
    PairwiseTea(key);
    SentDecodes(image, key, sent, blocks);
    RamArrival(sent, 8 * blocks, Decoded(key), d, es);
    FrontOfFront(RamRun(d, es).image, |sent|, |image|);
  }

  /** With the flash writer, from any flash contents at boot: the same. */
  lemma LandsInFlash(image: seq<Byte>, key: Key, sent: seq<Byte>, blocks: nat, f: Flash, es: seq<Event>)
    requires |image| % 8 == 0 && Sent(image, key, sent, blocks) && blocks <= 122 && Booted(f)
    requires Conforming(es) && Delivered(es, Packets(sent, 8 * blocks))
    ensures InRange(es) && BytesOf(Run(f, es, TeaCoder(key)).mem)[..|image|] == image
  {
    PairwiseTea(key);
    SentDecodes(image, key, sent, blocks);
    FlashArrival(sent, 8 * blocks, Decoded(key), f, TeaCoder(key), es);
    FrontOfFront(BytesOf(Run(f, es, TeaCoder(key)).mem), |sent|, |image|);
  }

  lemma FrontOfFront(s: seq<Byte>, n: nat, k: nat)
    requires k <= n <= |s|
    ensures s[..n][..k] == s[..k]
  {
  }

  lemma HoldsPrefix(m: Memory, s: seq<Byte>, image: seq<Byte>)
    requires Holds(m, s) && |image| <= |s| && s[..|image|] == image
    ensures Holds(m, image)
  {
    forall i | 0 <= i < |image|
      ensures m(i) == image[i]
    {
      assert s[..|image|][i] == s[i];
    }
  }

  /** The device takes what is in its memory to be a good image of n bytes, the file's size rounded up to a multiple
      of 8, and these are the bytes of the file and zeros, but for the two words behind the magic word. */
  ghost predicate Starts(m: Memory, file: seq<Byte>, image: seq<Byte>)
  {
    && Holds(m, image) && Acceptable(m)
    && var n := WordAt(m, SIZE_AT);
      && n % 8 == 0 && |file| <= n < |file| + 8
      && forall i :: 0 <= i < n && !(0x18C <= i < 0x194) ==> m(i) == if i < |file| then file[i] else 0
  }

  lemma CheckedStarts(file: seq<Byte>, image: seq<Byte>, m: Memory)
    requires Checked(file, image) && Holds(m, image)
    ensures Starts(m, file, image)
  {
    CheckedAccepted(file, image, m);
  }

  /** End to end, for RAM and for flash: after any run of requests in which the device was the last paid one to open
      its page, and any conforming run of WRITE commands that delivers what the server sent, the device starts it,
      and its memory holds the bytes of the file. */
  lemma EndToEnd(file: seq<Byte>, image: seq<Byte>, sent: seq<Byte>, blocks: nat, u: Key, loader: Key,
                 urls: seq<seq<Byte>>, d: Disk, f: Flash, es: seq<Event>)
    requires InUse(u, loader, urls)
    requires Checked(file, image) && Sent(image, LoaderRun(loader, urls), sent, blocks) && blocks <= 122
    requires Sound(d) && d.coder == TeaCoder(Generated(u).loader) && Booted(f)
    requires Conforming(es) && Delivered(es, Packets(sent, 8 * blocks))
    ensures InImage(es) && InRange(es)
    ensures forall m: Memory ::
      Holds(m, RamRun(d, es).image) || Holds(m, BytesOf(Run(f, es, d.coder).mem)) ==> Starts(m, file, image)
  {
    RunKey(loader, urls);
    EndToEndKeyed(file, image, sent, blocks, Generated(u).loader, d, f, es);
  }

  lemma EndToEndKeyed(file: seq<Byte>, image: seq<Byte>, sent: seq<Byte>, blocks: nat, key: Key, d: Disk, f: Flash,
                      es: seq<Event>)
    requires Checked(file, image) && Sent(image, key, sent, blocks) && blocks <= 122
    requires Sound(d) && d.coder == TeaCoder(key) && Booted(f)
    requires Conforming(es) && Delivered(es, Packets(sent, 8 * blocks))
    ensures InImage(es) && InRange(es)
    ensures forall m: Memory ::
      Holds(m, RamRun(d, es).image) || Holds(m, BytesOf(Run(f, es, d.coder).mem)) ==> Starts(m, file, image)
  {
    ConformingInImage(es);
    LandsInRam(image, key, sent, blocks, d, es);
    LandsInFlash(image, key, sent, blocks, f, es);
    var ram, flash := RamRun(d, es).image, BytesOf(Run(f, es, d.coder).mem);
    forall m: Memory | Holds(m, ram) || Holds(m, flash)
      ensures Starts(m, file, image)
    {
      HoldsPrefix(m, if Holds(m, ram) then ram else flash, image);
      CheckedStarts(file, image, m);
    }
  }

  /** Every file that passes the check can be sent in as many sectors as hold it: the coded image, and zeros up to
      the end of the last sector. */
  lemma FitsInSectors(file: seq<Byte>, key: Key, blocks: nat) returns (image: seq<Byte>, sent: seq<Byte>)
    requires DESCRIPTOR_END <= |Padded(file)| < M32 && Load(Padded(file), MAGIC_AT) == MAGIC
    requires |Padded(file)| <= 512 * blocks
    ensures Checked(file, image) && Sent(image, key, sent, blocks)
    ensures sent[|image|..] == seq(512 * blocks - |image|, _ => 0)
  {
    image := Filled(Padded(file));
    var coded := Encrypted(image, key);
    sent := coded + seq(512 * blocks - |image|, _ => 0);
    assert sent[..|image|] == coded;
  }

  /** The shortest file that passes: a descriptor with the magic word. */
  function Shortest(): (file: seq<Byte>)
    ensures |file| == DESCRIPTOR_END
  {
    Store(seq(DESCRIPTOR_END, _ => 0), MAGIC_AT, MAGIC)
  }

  lemma ShortestPasses()
    ensures |Padded(Shortest())| == 408 && Load(Padded(Shortest()), MAGIC_AT) == MAGIC
  {
    var zeros := seq(DESCRIPTOR_END, _ => 0);
    LoadStored(zeros, MAGIC_AT, MAGIC);
  }

  /** It can be sent under any key, by one command, and there is flash after boot to take it: what `EndToEnd`
      requires can be met for every device that is paid for. */
  lemma ShortestIsSent(key: Key) returns (image: seq<Byte>, sent: seq<Byte>, f: Flash, es: seq<Event>)
    ensures Checked(Shortest(), image) && Sent(image, key, sent, 1) && Booted(f)
    ensures Conforming(es) && Delivered(es, Packets(sent, 8))
  {
    ShortestPasses();
    image, sent := FitsInSectors(Shortest(), key, 1);
    f := Flash(seq(HALVES, _ => 0), seq(MAX_SECTORS, _ => false), true);
    es := Arrivals(Packets(sent, 8), 8);
    OneCommandDelivers(Packets(sent, 8));
  }

  /** Packets up to i are written; the rest will bring the disk to its end state. */
  ghost predicate Sending(disk: Fat12Emul, ps: seq<Packet>, i: nat, end: Disk)
    reads disk, disk.io, disk.memory.image
  {
    && disk.Valid() && disk.Ready() && Sound(disk.View()) && i <= |ps| <= 976
    && disk.rwofs == 3072 + 64 * i && disk.rwlen == 64 * (|ps| - i)
    && WriteAll(disk.View(), IMAGE_PACKET + i, ps[i..]) == end
  }

  lemma FirstLeft(ps: seq<Packet>, i: nat)
    requires i < |ps|
    ensures ps[i..] != [] && ps[i..][0] == ps[i] && ps[i..][1..] == ps[i + 1..]
  {
  }

  method SendPacket(disk: Fat12Emul, ps: seq<Packet>, i: nat, ghost end: Disk) returns (st: IOState)
    requires i < |ps| && Sending(disk, ps, i, end)
    modifies disk.io, disk.memory.image, disk`rwofs, disk`rwlen
    ensures Sending(disk, ps, i + 1, end) && (st == Ended <==> i + 1 == |ps|)
  {
    var buf := new Byte[64](j requires 0 <= j < 64 => ps[i][j]);
    assert buf[..] == ps[i];
    FirstLeft(ps, i);
    st := disk.Write(buf);
  }

  /** By one conforming command that delivers the packets, d becomes d'. */
  ghost predicate OneCommand(d: Disk, ps: seq<Packet>, d': Disk)
  {
    && Sound(d) && |ps| <= PACKETS - IMAGE_PACKET
    && var es := Arrivals(ps, |ps|);
      Conforming(es) && InImage(es) && Delivered(es, ps) && d' == RamRun(d, es)
  }

  lemma WriteAllIsOne(d: Disk, ps: seq<Packet>)
    requires Sound(d) && |ps| <= PACKETS - IMAGE_PACKET
    ensures OneCommand(d, ps, WriteAll(d, IMAGE_PACKET, ps))
  {
    OneCommandDelivers(ps);
    OneCommandRun(d, ps);
  }

  /** Packet after packet, up to the end of the transfer. */
  method SendPackets(disk: Fat12Emul, ps: seq<Packet>, ghost end: Disk) returns (ends: seq<IOState>)
    requires Sending(disk, ps, 0, end)
    modifies disk.io, disk.memory.image, disk`rwofs, disk`rwlen
    ensures Sending(disk, ps, |ps|, end)
    ensures |ends| == |ps| && forall k :: 0 <= k < |ps| ==> (ends[k] == Ended <==> k == |ps| - 1)
  {
    ends := [];
    for i := 0 to |ps|
      invariant Sending(disk, ps, i, end)
      invariant |ends| == i && forall k :: 0 <= k < i ==> (ends[k] == Ended <==> k == |ps| - 1)
    {
      var st := SendPacket(disk, ps, i, end);
      ends := ends + [st];
    }
  }

  /** The host writes the sectors of the image: one command, then packet after packet. The disk
      ends the transfer with the last packet and not before. */
  method WriteSectors(disk: Fat12Emul, sent: seq<Byte>, blocks: nat)
    returns (request: EraseRequest, ends: seq<IOState>)
    requires disk.Valid() && disk.Ready() && |sent| == 512 * blocks && 0 < blocks <= 122
    modifies disk.io, disk.memory.image, disk`rwofs, disk`rwlen
    ensures disk.Valid() && disk.View() == WriteAll(old(disk.View()), IMAGE_PACKET, Packets(sent, 8 * blocks))
    ensures OneCommand(old(disk.View()), Packets(sent, 8 * blocks), disk.View())
    ensures disk.rwlen == 0 && request == Erase(0, blocks)
    ensures |ends| == 8 * blocks && forall i :: 0 <= i < |ends| ==> (ends[i] == Ended <==> i == |ends| - 1)
  {
    var ps := Packets(sent, 8 * blocks);
    ghost var end := WriteAll(disk.View(), IMAGE_PACKET, ps);
    request := disk.CmdWrite(PT2, blocks);
    assert ps[0..] == ps;
    ends := SendPackets(disk, ps, end);
    assert ps[|ps|..] == [];
    WriteAllIsOne(old(disk.View()), ps);
  }
}
