/**
 The emulated disk as the host sees it: packets of 64 bytes. The system sectors and the index
 sector are plain memory, one sector reads zero, and the rest is the firmware image, stored
 decrypted and shown encrypted.
 */
module DiskSpec {
  import opened Words

  const BLOCK := 512
  const PACKET := 64
  const PER_BLOCK := 8       // packets in a block

  const TOTAL := 128         // sectors of the RAM disk
  const PT0 := 4             // end of boot sector, FAT and directory
  const PT1 := 4             // the index sector
  const PT2 := 6             // start of the image

  const IO_BYTES := 2560     // boot, FAT, directory and index data
  const IMAGE_BYTES := 62464 // (TOTAL - PT2) * BLOCK
  const PACKETS := 1024      // TOTAL * PER_BLOCK
  const IMAGE_PACKET := 48   // PT2 * PER_BLOCK

  type Packet = s: seq<Byte> | |s| == PACKET witness seq(PACKET, _ => 0)

  /** What the sectors read that nothing stands behind. */
  function Zeros(): (p: Packet)
    ensures forall i :: 0 <= i < PACKET ==> p[i] == 0
  {
    seq(PACKET, (i: nat) => 0)
  }

  /** How packets are coded on the way out of the image and on the way in. */
  datatype Coder = Coder(enc: Packet -> Packet, dec: Packet -> Packet)

  /** Encryption undoes decryption. */
  ghost predicate Undoes(c: Coder)
  {
    forall p: Packet :: c.enc(c.dec(p)) == p
  }

  /** The memory behind the disk, what the boot check found out and the cipher. */
  datatype Disk = Disk(io: seq<Byte>, image: seq<Byte>, imageSize: Word, coder: Coder)

  predicate Sound(d: Disk)
  {
    |d.io| == IO_BYTES && |d.image| == IMAGE_BYTES
  }

  function Slice(s: seq<Byte>, k: nat): Packet
    requires 64 * k + 64 <= |s|
  {
    s[64 * k..64 * k + 64]
  }

  function Splice(s: seq<Byte>, k: nat, p: Packet): (r: seq<Byte>)
    requires 64 * k + 64 <= |s|
    ensures |r| == |s|
  {
    s[..64 * k] + p + s[64 * k + 64..]
  }

  lemma SliceSplice(s: seq<Byte>, k: nat, p: Packet, j: nat)
    requires 64 * k + 64 <= |s| && 64 * j + 64 <= |s|
    ensures Slice(Splice(s, k, p), j) == if j == k then p else Slice(s, j)
  {
  }

  /** Packet k of the disk, by the sector it lies in. */
  function ReadPacket(d: Disk, k: nat): Packet
    requires Sound(d) && k < PACKETS
  {
    if k < 40 then Slice(d.io, k)
    else if k < IMAGE_PACKET then Zeros()
    else if 64 * (k - IMAGE_PACKET) < d.imageSize then d.coder.enc(Slice(d.image, k - IMAGE_PACKET))
    else Zeros()
  }

  function WritePacket(d: Disk, k: nat, p: Packet): (r: Disk)
    requires Sound(d) && k < PACKETS
    ensures Sound(r)
  {
    if k < 40 then d.(io := Splice(d.io, k, p))
    else if k < IMAGE_PACKET then d
    else d.(image := Splice(d.image, k - IMAGE_PACKET, d.coder.dec(p)))
  }

  // ------------------------------------------------------------------ refinement

  /** Where a write shows: the system sectors, the index sector and the image packets that start
      below image_size. */
  predicate Visible(imageSize: Word, k: nat)
  {
    k < 40 || (IMAGE_PACKET <= k && 64 * (k - IMAGE_PACKET) < imageSize)
  }

  /** The flat disk: a sequence of packets and nothing else. */
  function Flat(d: Disk): (f: seq<Packet>)
    requires Sound(d)
    ensures |f| == PACKETS && forall k :: 0 <= k < PACKETS ==> f[k] == ReadPacket(d, k)
  {
    seq(PACKETS, k requires 0 <= k < PACKETS => ReadPacket(d, k))
  }

  /** Packets outside the visible ones read zero, whatever was written there. */
  lemma InvisibleReadsZero(d: Disk, k: nat)
    requires Sound(d) && k < PACKETS && !Visible(d.imageSize, k)
    ensures ReadPacket(d, k) == Zeros()
  {
  }

  lemma WriteRead(d: Disk, k: nat, p: Packet, j: nat)
    requires Sound(d) && Undoes(d.coder) && k < PACKETS && j < PACKETS
    ensures ReadPacket(WritePacket(d, k, p), j) ==
      if j == k && Visible(d.imageSize, k) then p else ReadPacket(d, j)
  {
    if k < 40 {
      if j < 40 { SliceSplice(d.io, k, p, j); }
    } else if IMAGE_PACKET <= k && IMAGE_PACKET <= j {
      SliceSplice(d.image, k - IMAGE_PACKET, d.coder.dec(p), j - IMAGE_PACKET);
    }
  }

  /** One write is one write on the flat disk. This needs encryption to undo decryption. */
  lemma WriteRefines(d: Disk, k: nat, p: Packet)
    requires Sound(d) && Undoes(d.coder) && k < PACKETS
    ensures Flat(WritePacket(d, k, p)) == if Visible(d.imageSize, k) then Flat(d)[k := p] else Flat(d)
    ensures WritePacket(d, k, p).imageSize == d.imageSize
  {
    forall j | 0 <= j < PACKETS
      ensures Flat(WritePacket(d, k, p))[j] == if j == k && Visible(d.imageSize, k) then p else Flat(d)[j]
    {
      WriteRead(d, k, p, j);
    }
  }

  datatype Op = Rd(k: nat) | Wr(k: nat, p: Packet)

  ghost predicate InDisk(ops: seq<Op>)
  {
    forall i :: 0 <= i < |ops| ==> ops[i].k < PACKETS
  }

  /** What the host reads in a run on the emulated disk. */
  function Reads(d: Disk, ops: seq<Op>): seq<Packet>
    requires Sound(d) && InDisk(ops)
    decreases |ops|
  {
    if ops == [] then []
    else
      match ops[0]
      case Rd(k) => [ReadPacket(d, k)] + Reads(d, ops[1..])
      case Wr(k, p) => Reads(WritePacket(d, k, p), ops[1..])
  }

  /** What it would read from a flat disk on which only some packets can be written. */
  function FlatReads(f: seq<Packet>, imageSize: Word, ops: seq<Op>): seq<Packet>
    requires |f| == PACKETS && InDisk(ops)
    decreases |ops|
  {
    if ops == [] then []
    else
      match ops[0]
      case Rd(k) => [f[k]] + FlatReads(f, imageSize, ops[1..])
      case Wr(k, p) => FlatReads(if Visible(imageSize, k) then f[k := p] else f, imageSize, ops[1..])
  }

  /** No run can tell the emulated disk from the flat one. */
  lemma {:induction false} DiskRefines(d: Disk, ops: seq<Op>)
    requires Sound(d) && Undoes(d.coder) && InDisk(ops)
    ensures Reads(d, ops) == FlatReads(Flat(d), d.imageSize, ops)
    decreases |ops|
  {
    if ops != [] {
      match ops[0]
      case Rd(k) =>
        DiskRefines(d, ops[1..]);
      case Wr(k, p) =>
        WriteRefines(d, k, p);
        DiskRefines(WritePacket(d, k, p), ops[1..]);
    }
  }

  // ------------------------------------------------------------- consecutive packets

  /** Writing a run of packets, as a WRITE command does. */
  function WriteAll(d: Disk, k: nat, ps: seq<Packet>): (r: Disk)
    requires Sound(d) && k + |ps| <= PACKETS
    ensures Sound(r)
    decreases |ps|
  {
    if ps == [] then d else WriteAll(WritePacket(d, k, ps[0]), k + 1, ps[1..])
  }

  function Concat(ps: seq<Packet>): (s: seq<Byte>)
    ensures |s| == 64 * |ps|
  {
    if ps == [] then [] else ps[0] + Concat(ps[1..])
  }

  /** The packets of a run, each decrypted. */
  function DecodedAll(c: Coder, ps: seq<Packet>): (r: seq<Packet>)
    ensures |r| == |ps|
  {
    if ps == [] then [] else [c.dec(ps[0])] + DecodedAll(c, ps[1..])
  }

  /** A run of packets into the image leaves their decryption there, and nothing else changes. */
  lemma {:induction false} WriteAllImage(d: Disk, k: nat, ps: seq<Packet>)
    requires Sound(d) && IMAGE_PACKET + k + |ps| <= PACKETS
    ensures WriteAll(d, IMAGE_PACKET + k, ps) == d.(image :=
      d.image[..64 * k] + Concat(DecodedAll(d.coder, ps)) + d.image[64 * (k + |ps|)..])
    decreases |ps|
  {
    if ps == [] {
      assert d.image[..64 * k] + [] + d.image[64 * k..] == d.image;
    } else {
      var d1 := WritePacket(d, IMAGE_PACKET + k, ps[0]);
      WriteAllImage(d1, k + 1, ps[1..]);
      var a := d.coder.dec(ps[0]);
      assert d1.image == d.image[..64 * k] + a + d.image[64 * k + 64..];
      assert d1.image[..64 * (k + 1)] == d.image[..64 * k] + a;
      assert d1.image[64 * (k + |ps|)..] == d.image[64 * (k + |ps|)..];
      assert DecodedAll(d.coder, ps)[0] == a && DecodedAll(d.coder, ps)[1..] == DecodedAll(d.coder, ps[1..]);
    }
  }
}
