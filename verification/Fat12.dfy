/**
 The emulated disk itself (work/boot/fat12emul.cpp): commands set an offset and a length, and
 packets are routed by the sector that the offset points into.
 */
module Fat12 {
  import opened Words
  import opened Feistel
  import opened DiskSpec
  import opened FatTable
  import opened ImageWriter
  import opened Keys

  datatype IOState = Pending | Ended

  /** What a WRITE asks the memory to erase, if anything. */
  datatype EraseRequest = NoErase | Erase(start: nat, count: nat)

  // ----------------------------------------------------------- what is to be erased

  function Signed(w: Word): int { if w < 0x8000_0000 then w else w - M32 }

  /** First image block and number of image blocks that a WRITE asks the memory to erase. */
  function EraseStart(offset: Word): int
  {
    var start := Signed(Minus(offset, 6));
    if start < 0 then 0 else start
  }

  function EraseCount(offset: Word, length: Word): int
  {
    var start := Signed(Minus(offset, 6));
    if start < 0 then Signed(length) + start else Signed(length)
  }

  /** The request to the memory is made only for at least one block. */
  function ToErase(offset: Word, length: Word): EraseRequest
  {
    if EraseCount(offset, length) > 0 then Erase(EraseStart(offset), EraseCount(offset, length)) else NoErase
  }

  predicate Asked(r: EraseRequest, b: nat)
  {
    r.Erase? && r.start <= b < r.start + r.count
  }

  /** The blocks to erase are exactly the image blocks among the sectors of the command. */
  lemma EraseExact(offset: Word, length: Word, b: nat)
    requires offset + length <= TOTAL
    ensures Asked(ToErase(offset, length), b) <==> offset <= PT2 + b < offset + length
  {
  }

  // ---------------------------------------------------------------- the index page

  const PERCENT: Byte := 37

  /** The index page with a text in the place of every `%`. */
  function Page(ctxt: seq<Byte>, text: seq<Byte>): seq<Byte>
  {
    if ctxt == [] then [] else (if ctxt[0] == PERCENT then text else [ctxt[0]]) + Page(ctxt[1..], text)
  }

  function Percents(ctxt: seq<Byte>): nat
  {
    if ctxt == [] then 0 else (if ctxt[0] == PERCENT then 1 else 0) + Percents(ctxt[1..])
  }

  lemma {:induction false} PageConcat(a: seq<Byte>, b: seq<Byte>, text: seq<Byte>)
    ensures Page(a + b, text) == Page(a, text) + Page(b, text)
  {
    if a == [] {
      assert a + b == b;
    } else {
      assert (a + b)[1..] == a[1..] + b;
      PageConcat(a[1..], b, text);
    }
  }

  lemma {:induction false} PagePlain(ctxt: seq<Byte>, text: seq<Byte>)
    requires Percents(ctxt) == 0
    ensures Page(ctxt, text) == ctxt
  {
    if ctxt != [] {
      PagePlain(ctxt[1..], text);
    }
  }

  /** A page with a single `%` shows the text there. */
  lemma PageShows(before: seq<Byte>, after: seq<Byte>, text: seq<Byte>)
    requires Percents(before) == 0 && Percents(after) == 0
    ensures Page(before + [PERCENT] + after, text) == before + text + after
  {
    PageConcat(before + [PERCENT], after, text);
    PageConcat(before, [PERCENT], text);
    PagePlain(before, text);
    PagePlain(after, text);
  }

  lemma {:induction false} PageLength(ctxt: seq<Byte>, text: seq<Byte>)
    requires |text| == 32
    ensures |Page(ctxt, text)| == |ctxt| + 31 * Percents(ctxt)
  {
    if ctxt != [] {
      PageLength(ctxt[1..], text);
    }
  }

  /** The size that the directory tells is that of the page exactly when there is a single `%`. */
  lemma IndexSize(ctxt: seq<Byte>, key: Key)
    ensures |ctxt| + 31 == |Page(ctxt, HexKey(key))| <==> Percents(ctxt) == 1
  {
    PageLength(ctxt, HexKey(key));
  }

  // -------------------------------------------------------------- boot sector and directory

  const BOOT: seq<Byte> := [
    0xEB, 0x3C, 0x90, 0x6D, 0x6B, 0x66, 0x73, 0x2E, 0x66, 0x61, 0x74, 0x00, 0x02, 0x02, 0x01, 0x00,
    0x01, 0x10, 0x00, 0x80, 0x00, 0xF8, 0x02, 0x00, 0, 0, 0, 0, 0, 0]

  const VOLUME: seq<Byte> := [
    0x42, 0x4F, 0x4F, 0x54, 0x4C, 0x4F, 0x41, 0x44, 0x45, 0x52, 0x20, 0x08, 0x00, 0x00, 0xF5, 0x8B,
    0x17, 0x4B, 0x17, 0x4B, 0x00, 0x00, 0xF5, 0x8B, 0x17, 0x4B, 0x00, 0x00, 0x00, 0x00, 0x00, 0x00]

  const LONG_NAME: seq<Byte> := [
    0x41, 0x69, 0x00, 0x6E, 0x00, 0x64, 0x00, 0x65, 0x00, 0x78, 0x00, 0x0F, 0x00, 0x33, 0x2E, 0x00,
    0x68, 0x00, 0x74, 0x00, 0x6D, 0x00, 0x6C, 0x00, 0x00, 0x00, 0x00, 0x00, 0xFF, 0xFF, 0xFF, 0xFF]

  const INDEX_FILE: seq<Byte> := [
    0x49, 0x4E, 0x44, 0x45, 0x58, 0x7E, 0x31, 0x20, 0x48, 0x54, 0x4D, 0x21, 0x00, 0x64, 0xF5, 0x7B,
    0x17, 0x4B, 0x17, 0x4B, 0x00, 0x00, 0xF5, 0x7B, 0x17, 0x4B, 0x02, 0x00, 0x90, 0x01, 0x00, 0x00]

  const IMAGE_FILE: seq<Byte> := [
    0x46, 0x49, 0x52, 0x4D, 0x57, 0x41, 0x52, 0x45, 0x42, 0x49, 0x4E, 0x20, 0x00, 0x64, 0xF5, 0x7B,
    0x17, 0x4B, 0x17, 0x4B, 0x00, 0x00, 0xF5, 0x7B, 0x17, 0x4B, 0x03, 0x00, 0x00, 0x80, 0x00, 0x00]

  const DIRECTORY: seq<Byte> := (VOLUME + LONG_NAME) + (INDEX_FILE + IMAGE_FILE)

  /** A 16-bit field of either. */
  function Field(s: seq<Byte>, at: nat): nat
    requires at + 2 <= |s|
  {
    var lo: nat, hi: nat := s[at], s[at + 1];
    lo + 256 * hi
  }

  lemma BootFields()
    ensures |BOOT| == 30
    ensures Field(BOOT, 11) == 512 && BOOT[13] == 2 && Field(BOOT, 14) == 1 && BOOT[16] == 1 && Field(BOOT, 17) == 16
    ensures Field(BOOT, 19) == 128 && Field(BOOT, 22) == 2
  {
  }

  lemma DirectoryFields()
    ensures |VOLUME| == |LONG_NAME| == |INDEX_FILE| == |IMAGE_FILE| == 32 && |DIRECTORY| == 128
    ensures DIRECTORY[64..96] == INDEX_FILE && DIRECTORY[96..128] == IMAGE_FILE
    ensures Field(DIRECTORY, 90) == 2 && Field(DIRECTORY, 122) == 3
    ensures Field(INDEX_FILE, 26) == 2 && Field(IMAGE_FILE, 26) == 3
  {
    var a, b := VOLUME + LONG_NAME, INDEX_FILE + IMAGE_FILE;
    assert DIRECTORY[64..] == b && b[..32] == INDEX_FILE && b[32..] == IMAGE_FILE;
    assert DIRECTORY[64..96] == b[..32] && DIRECTORY[96..128] == b[32..];
    assert DIRECTORY[90] == INDEX_FILE[26] && DIRECTORY[91] == INDEX_FILE[27];
    assert DIRECTORY[122] == IMAGE_FILE[26] && DIRECTORY[123] == IMAGE_FILE[27];
  }

  const DIR_AT := 1536
  const DATA_AT := 2048

  /** s with the bytes from `at` on replaced by p. */
  function Put(s: seq<Byte>, at: nat, p: seq<Byte>): (r: seq<Byte>)
    requires at + |p| <= |s|
    ensures |r| == |s|
  {
    s[..at] + p + s[at + |p|..]
  }

  lemma PutAt(s: seq<Byte>, at: nat, p: seq<Byte>, k: nat)
    requires at + |p| <= |s| && k < |s|
    ensures Put(s, at, p)[k] == if at <= k < at + |p| then p[k - at] else s[k]
  {
  }

  lemma PutPut(s: seq<Byte>, at: nat, p: seq<Byte>, q: seq<Byte>)
    requires at + |p| + |q| <= |s|
    ensures Put(Put(s, at, p), at + |p|, q) == Put(s, at, p + q)
  {
  }

  method Copy(dst: array<Byte>, at: nat, src: seq<Byte>)
    requires at + |src| <= dst.Length
    modifies dst
    ensures dst[..] == Put(old(dst[..]), at, src)
  {
    for i := 0 to |src|
      invariant forall k :: at <= k < at + i ==> dst[k] == src[k - at]
      invariant forall k :: 0 <= k < at || at + i <= k < dst.Length ==> dst[k] == old(dst[k])
    {
      dst[at + i] := src[i];
    }
  }

  /** One word more of the key. */
  lemma KeyStep(s: seq<Byte>, at: nat, key: Key, i: nat)
    requires i < 4 && at + 4 * WIDTH <= |s|
    ensures |HexWords(key[..i])| == WIDTH * i && |HexWords(key[..i + 1])| == WIDTH * (i + 1)
    ensures Put(Put(s, at, HexWords(key[..i])), at + WIDTH * i, Hex(key[i], WIDTH)) ==
            Put(s, at, HexWords(key[..i + 1]))
  {
    HexWordsLast(key[..i], key[i]);
    assert key[..i + 1] == key[..i] + [key[i]];
    PutPut(s, at, HexWords(key[..i]), Hex(key[i], WIDTH));
  }

  /** The key in the place of a `%`. */
  method CopyKey(dst: array<Byte>, at: nat, key: Key)
    requires at + 4 * WIDTH <= dst.Length
    modifies dst
    ensures dst[..] == Put(old(dst[..]), at, HexKey(key))
  {
    var m := 0;
    for i := 0 to 4
      invariant m == WIDTH * i
      invariant dst[..] == Put(old(dst[..]), at, HexWords(key[..i]))
    {
      KeyStep(old(dst[..]), at, key, i);
      var w := ToHex(dst, at + m, key[i]);
      m := m + w;
    }
    assert key[..4] == key;
  }

  class Fat12Emul {
    const boot: seq<Byte>
    const entries: seq<Byte>
    const io: array<Byte>
    const memory: Writer
    var imageSize: Word
    var rwofs: Word
    var rwlen: Word
    var pt0: nat
    var pt1: nat
    var pt2: nat
    var fullSize: nat

    ghost predicate Valid()
    {
      && io.Length == IO_BYTES && memory.image.Length == IMAGE_BYTES && io != memory.image && memory.Valid()
      && boot == BOOT && entries == DIRECTORY && |boot| == 30 && |entries| == 128
    }

    /** `Prepare` has been called. */
    predicate Ready()
      reads this
    {
      pt0 == PT0 && pt1 == PT1 && pt2 == PT2
    }

    /** What stands behind the disk. */
    ghost function View(): Disk
      reads this, io, memory.image
    {
      Disk(io[..], memory.image[..], imageSize, memory.coder)
    }

    constructor (io: array<Byte>, memory: Writer, imageSize: Word)
      requires io.Length == IO_BYTES && memory.image.Length == IMAGE_BYTES && io != memory.image && memory.Valid()
      ensures Valid() && this.io == io && this.memory == memory && this.imageSize == imageSize
      ensures rwofs == rwlen == 0 && boot == BOOT && entries == DIRECTORY
    {
      boot, entries := BOOT, DIRECTORY;
      this.io, this.memory, this.imageSize := io, memory, imageSize;
      rwofs, rwlen, pt0, pt1, pt2, fullSize := 0, 0, 0, 0, 0, 0;
    }

    method CmdRead(offset: Word, length: Word)
      modifies `rwofs, `rwlen
      ensures rwofs == 512 * offset % M32 && rwlen == 512 * length % M32
    {
      rwofs := offset * 512 % M32;
      rwlen := length * 512 % M32;
    }

    /** The request to erase, which is made only for at least one block, is handed back to the caller. */
    method CmdWrite(offset: Word, length: Word) returns (request: EraseRequest)
      requires Ready()
      modifies `rwofs, `rwlen
      ensures rwofs == 512 * offset % M32 && rwlen == 512 * length % M32
      ensures request == ToErase(offset, length)
    {
      rwofs := offset * 512 % M32;
      rwlen := length * 512 % M32;
      var start, erase := Signed(Minus(offset, pt2)), Signed(length);
      if start < 0 {
        erase := erase + start;
        start := 0;
      }
      request := if erase > 0 then Erase(start, erase) else NoErase;
    }

    /** The packet at rwofs lies inside the disk. */
    predicate Inside()
      reads this
    {
      rwofs % 64 == 0 && rwofs + 64 <= 65536
    }

    /** There, or the image ends inside the disk, so that nothing behind it is read. */
    predicate Readable()
      reads this
    {
      rwofs % 64 == 0 && (rwofs + 64 <= 65536 || imageSize <= IMAGE_BYTES)
    }

    method SystRead(buf: array<Byte>)
      requires Valid() && rwofs + 64 <= io.Length && buf.Length == 64 && buf != io
      modifies buf
      ensures buf[..] == io[rwofs..rwofs + 64]
    {
      MemCopy(buf, 0, io, rwofs, 64);
    }

    method ZeroRead(buf: array<Byte>)
      requires buf.Length == 64
      modifies buf
      ensures buf[..] == Zeros()
    {
      for i := 0 to 64
        invariant forall j :: 0 <= j < i ==> buf[j] == 0
      {
        buf[i] := 0;
      }
    }

    method IndxRead(buf: array<Byte>)
      requires Valid() && rwofs % 512 + 64 <= 512 && buf.Length == 64 && buf != io
      modifies buf
      ensures buf[..] == io[DATA_AT + rwofs % 512..DATA_AT + rwofs % 512 + 64]
    {
      MemCopy(buf, 0, io, DATA_AT + rwofs % 512, 64);
    }

    method FileRead(buf: array<Byte>)
      requires Valid() && Ready() && 3072 <= rwofs && (rwofs + 64 <= 65536 || imageSize <= rwofs - 3072)
      requires buf.Length == 64 && buf != memory.image
      modifies buf
      ensures var ofs := rwofs - 3072;
        buf[..] == if ofs < imageSize then memory.coder.enc(memory.image[ofs..ofs + 64]) else Zeros()
    {
      var ofs := rwofs - pt2 * 512;
      if ofs < imageSize {
        memory.ReadBytes(buf, ofs);
      } else {
        ZeroRead(buf);
      }
    }

    method Advance() returns (st: IOState)
      modifies `rwofs, `rwlen
      ensures rwofs == Plus(old(rwofs), 64) && rwlen == Minus(old(rwlen), 64)
      ensures st == if rwlen == 0 then Ended else Pending
    {
      rwofs := Plus(rwofs, 64);
      rwlen := Minus(rwlen, 64);
      st := if rwlen == 0 then Ended else Pending;
    }

    /** Read: the packet of the disk at rwofs, and zeros behind the disk. */
    method Read(buf: array<Byte>) returns (st: IOState)
      requires Valid() && Ready() && Readable() && buf.Length == 64 && buf != io && buf != memory.image
      modifies buf, `rwofs, `rwlen
      ensures View() == old(View())
      ensures buf[..] == if old(Inside()) then ReadPacket(View(), old(rwofs) / 64) else Zeros()
      ensures rwofs == Plus(old(rwofs), 64) && rwlen == Minus(old(rwlen), 64)
      ensures st == if rwlen == 0 then Ended else Pending
    {
      var tag := rwofs / 512;
      if Inside() {
        RouteFacts(rwofs);
      } else {
        BehindDisk(rwofs);
      }
      if tag < pt0 {
        SystRead(buf);
      } else if tag < pt1 {
        assert false; // no sectors here: pt0 == pt1
      } else if tag < pt1 + 1 {
        IndxRead(buf);
      } else if tag < pt2 {
        ZeroRead(buf);
      } else {
        FileRead(buf);
      }
      st := Advance();
    }

    method SystWrite(buf: array<Byte>)
      requires Valid() && rwofs + 64 <= io.Length && buf.Length == 64 && buf != io
      modifies io
      ensures io[..] == old(io[..rwofs]) + buf[..] + old(io[rwofs + 64..])
    {
      MemCopy(io, rwofs, buf, 0, 64);
    }

    method IndxWrite(buf: array<Byte>)
      requires Valid() && rwofs % 512 + 64 <= 512 && buf.Length == 64 && buf != io
      modifies io
      ensures var at := DATA_AT + rwofs % 512; io[..] == old(io[..at]) + buf[..] + old(io[at + 64..])
    {
      MemCopy(io, DATA_AT + rwofs % 512, buf, 0, 64);
    }

    method FileWrite(buf: array<Byte>)
      requires Valid() && Ready() && 3072 <= rwofs && rwofs + 64 <= 65536 && buf.Length == 64 && buf != memory.image
      modifies memory.image
      ensures var ofs := rwofs - 3072;
        memory.image[..] == old(memory.image[..ofs]) + memory.coder.dec(buf[..]) + old(memory.image[ofs + 64..])
    {
      var ofs := rwofs - pt2 * 512;
      memory.WriteBytes(buf, ofs);
    }

    /** Write: the packet goes where the disk has it at rwofs. */
    method Write(buf: array<Byte>) returns (st: IOState)
      requires Valid() && Ready() && Inside() && buf.Length == 64 && buf != io && buf != memory.image
      modifies io, memory.image, `rwofs, `rwlen
      ensures Valid() && View() == WritePacket(old(View()), old(rwofs) / 64, buf[..])
      ensures rwofs == old(rwofs) + 64 && rwlen == Minus(old(rwlen), 64)
      ensures st == if rwlen == 0 then Ended else Pending
    {
      var tag := rwofs / 512;
      RouteFacts(rwofs);
      if tag < pt0 {
        SystWrite(buf);
      } else if tag < pt1 {
        assert false;
      } else if tag < pt1 + 1 {
        IndxWrite(buf);
      } else if tag < pt2 {
      } else {
        FileWrite(buf);
      }
      st := Advance();
    }

    // ------------------------------------------------------------------ preparation

    /** The loop that writes the index page. */
    method PreparePage(ctxt: seq<Byte>, key: Key)
      requires Valid() && |Page(ctxt, HexKey(key))| <= 512
      modifies io
      ensures io[..] == Put(old(io[..]), DATA_AT, Page(ctxt, HexKey(key)))
    {
      var m := 0;
      ghost var text, s := HexKey(key), io[..];
      for n := 0 to |ctxt|
        invariant m == |Page(ctxt[..n], text)| <= 512
        invariant io[..] == Put(s, DATA_AT, Page(ctxt[..n], text))
      {
        PageStep(ctxt, n, text);
        PutPut(s, DATA_AT, Page(ctxt[..n], text), if ctxt[n] == PERCENT then text else [ctxt[n]]);
        if ctxt[n] == PERCENT {
          CopyKey(io, DATA_AT + m, key);
          m := m + 32;
        } else {
          Copy(io, DATA_AT + m, [ctxt[n]]);
          m := m + 1;
        }
      }
      assert ctxt[..|ctxt|] == ctxt;
    }

    /** What `Prepare` writes into the IO area, in its order. */
    method PrepareArea(ctxt: seq<Byte>, key: Key) returns (n: nat, ghost t: seq<Byte>)
      requires Valid() && |Page(ctxt, HexKey(key))| <= 512 && |ctxt| <= 512 && fullSize == IMAGE_BYTES
      modifies io
      ensures n == 64 && TableBetween(Blank(old(io[..]), entries, boot), t)
      ensures io[..] == Finished(t, |ctxt| + 31, fullSize, Page(ctxt, HexKey(key)))
    {
      Copy(io, 0, seq(DATA_AT, (i: nat) => 0));
      Copy(io, DIR_AT, entries);
      Copy(io, 0, boot);
      Copy(io, 510, [0x55, 0xAA]);
      n := FillTable(io, fullSize / 1024);
      t := io[..];
      Copy(io, DIR_AT + 92, Bytes(|ctxt| + 31));
      Copy(io, DIR_AT + 124, Bytes(fullSize));
      PreparePage(ctxt, key);
    }

    /** Where the data area, the index page and the image begin, in sectors, and the bytes that are left for the
        image: from the boot sector and the directory. */
    method Locate()
      requires Valid()
      modifies `pt0, `pt1, `pt2, `fullSize
      ensures Valid() && Ready() && fullSize == IMAGE_BYTES
    {
      BootFields();
      DirectoryFields();
      var perTable := Field(boot, 22);
      pt0 := Field(boot, 14) + perTable + (if boot[16] > 1 then perTable else 0) + Field(boot, 17) * 32 / 512;
      var clusterSize := boot[13];
      pt1 := (Field(entries, 90) - 2) * clusterSize + pt0;
      pt2 := (Field(entries, 122) - 2) * clusterSize + pt0;
      fullSize := (Field(boot, 19) - pt2) / clusterSize * clusterSize * Field(boot, 11);
    }

    /** Prepare: the boot sector, the table, the directory and the index page; the image is left. */
    method Prepare(ctxt: seq<Byte>, key: Key)
      requires Valid() && |Page(ctxt, HexKey(key))| <= 512 && |ctxt| <= 512
      modifies io, `pt0, `pt1, `pt2, `fullSize
      ensures Valid() && Ready() && Prepared(io[..], |ctxt| + 31)
      ensures fullSize == IMAGE_BYTES && Cleared(io[..], EndOf(FIRST + Clusters(fullSize)))
      ensures io[..30] == boot && io[510] == 0x55 && io[511] == 0xAA
      ensures Filled(io[..], Clusters(fullSize), FIRST + Clusters(fullSize))
      ensures io[DIR_AT..DIR_AT + 128] == Sized(entries, |ctxt| + 31, fullSize)
      ensures var page := Page(ctxt, HexKey(key));
        io[DATA_AT..DATA_AT + |page|] == page && io[DATA_AT + |page|..] == old(io[DATA_AT + |page|..])
    {
      Locate();
      ghost var s := io[..];
      ghost var t;
      var n;
      n, t := PrepareArea(ctxt, key);
      AreaFacts(s, entries, boot, t, |ctxt| + 31, fullSize, Page(ctxt, HexKey(key)));
    }
  }

  // ------------------------------------------------------- what a host makes of it

  /** What `Prepare` leaves in the IO area, but for the page. */
  ghost predicate Prepared(s: seq<Byte>, indexSize: nat)
  {
    && |s| == IO_BYTES && indexSize < M32 && |DIRECTORY| == 128 && s[..30] == BOOT && s[510] == 0x55 && s[511] == 0xAA
    && Filled(s, Clusters(IMAGE_BYTES), FIRST + Clusters(IMAGE_BYTES))
    && s[DIR_AT..DIR_AT + 128] == Sized(DIRECTORY, indexSize, IMAGE_BYTES)
  }

  /** By the FAT specification: where the table, the root directory and the data begin, in sectors. */
  function TableStart(s: seq<Byte>): nat
    requires |s| >= 30
  {
    Field(s, 14)
  }

  function RootStart(s: seq<Byte>): nat
    requires |s| >= 30
  {
    Field(s, 14) + s[16] * Field(s, 22)
  }

  function DataStart(s: seq<Byte>): nat
    requires |s| >= 30
  {
    RootStart(s) + Field(s, 17) * 32 / 512
  }

  /** The sector of the disk that sector i of a file with the given chain lies in. */
  function HostSector(s: seq<Byte>, chain: seq<nat>, i: nat): int
    requires |s| >= 30 && s[13] != 0 && i < s[13] * |chain|
  {
    assert i / s[13] < |chain| by { Quotient(i, s[13], |chain|); }
    (chain[i / s[13]] - 2) * s[13] + DataStart(s) + i % s[13]
  }

  lemma Quotient(i: nat, c: nat, n: nat)
    requires 0 < c && i < c * n
    ensures i / c < n
  {
  }

  /** Entry n of the root directory, and what is in it: the name, the first cluster and the size. */
  function EntryOf(s: seq<Byte>, n: nat): (e: seq<Byte>)
    requires |s| == IO_BYTES && n < 16
    ensures |e| == 32
  {
    s[DIR_AT + 32 * n..DIR_AT + 32 * n + 32]
  }

  ghost predicate Named(e: seq<Byte>, name: string)
  {
    |e| == 32 && |name| == 11 && forall i :: 0 <= i < 11 ==> e[i] == name[i] as int
  }

  lemma DirectoryNames()
    ensures Named(INDEX_FILE, "INDEX~1 HTM") && Named(IMAGE_FILE, "FIRMWAREBIN")
  {
  }

  /** The table, the directory and the data are where the boot sector tells a host to look. */
  lemma HostFinds(s: seq<Byte>, indexSize: nat)
    requires Prepared(s, indexSize)
    ensures Field(s, 11) == 512 && s[13] == 2 && s[16] == 1 && Field(s, 19) == 128
    ensures 512 * TableStart(s) == FAT_AT && 512 * RootStart(s) == DIR_AT && DataStart(s) == PT0
  {
    BootFields();
    assert forall k :: 0 <= k < 30 ==> s[k] == s[..30][k];
  }

  lemma EntryBytes(s: seq<Byte>, indexSize: nat, k: nat)
    requires Prepared(s, indexSize) && k < 128
    ensures s[DIR_AT + k] == Sized(DIRECTORY, indexSize, IMAGE_BYTES)[k]
  {
    assert s[DIR_AT + k] == s[DIR_AT..DIR_AT + 128][k];
  }

  lemma SizedAt(indexSize: Word, k: nat)
    requires |DIRECTORY| == 128 && k < 128
    ensures Sized(DIRECTORY, indexSize, IMAGE_BYTES)[k] ==
      if 92 <= k < 96 then Bytes(indexSize)[k - 92]
      else if 124 <= k then Bytes(IMAGE_BYTES)[k - 124]
      else DIRECTORY[k]
  {
  }

  /** e is the entry b with another size. */
  ghost predicate Resized(e: seq<Byte>, b: seq<Byte>, size: Word)
  {
    |e| == |b| == 32 && forall k :: 0 <= k < 32 ==> e[k] == if k < 28 then b[k] else Bytes(size)[k - 28]
  }

  lemma ResizedHas(e: seq<Byte>, b: seq<Byte>, size: Word, name: string)
    requires Resized(e, b, size) && Named(b, name)
    ensures Named(e, name) && Field(e, 26) == Field(b, 26) && Load(e, 28) == size
  {
    LoadBytes(size);
  }

  lemma ImageResized(s: seq<Byte>, indexSize: nat)
    requires Prepared(s, indexSize)
    ensures Resized(EntryOf(s, 3), IMAGE_FILE, IMAGE_BYTES)
  {
    DirectoryFields();
    forall k: nat | k < 32
      ensures EntryOf(s, 3)[k] == if k < 28 then IMAGE_FILE[k] else Bytes(IMAGE_BYTES)[k - 28]
    {
      EntryBytes(s, indexSize, 96 + k);
      SizedAt(indexSize, 96 + k);
      assert DIRECTORY[96..128][k] == DIRECTORY[96 + k];
    }
  }

  lemma IndexResized(s: seq<Byte>, indexSize: nat)
    requires Prepared(s, indexSize)
    ensures Resized(EntryOf(s, 2), INDEX_FILE, indexSize)
  {
    DirectoryFields();
    forall k: nat | k < 32
      ensures EntryOf(s, 2)[k] == if k < 28 then INDEX_FILE[k] else Bytes(indexSize)[k - 28]
    {
      EntryBytes(s, indexSize, 64 + k);
      SizedAt(indexSize, 64 + k);
      assert DIRECTORY[64..96][k] == DIRECTORY[64 + k];
    }
  }

  /** The image file in the directory. */
  lemma FirmwareEntry(s: seq<Byte>, indexSize: nat)
    requires Prepared(s, indexSize)
    ensures var e := EntryOf(s, 3); Named(e, "FIRMWAREBIN") && Field(e, 26) == 3 && Load(e, 28) == IMAGE_BYTES
  {
    DirectoryNames();
    DirectoryFields();
    ImageResized(s, indexSize);
    ResizedHas(EntryOf(s, 3), IMAGE_FILE, IMAGE_BYTES, "FIRMWAREBIN");
  }

  /** The index page in the directory. */
  lemma IndexEntry(s: seq<Byte>, indexSize: nat)
    requires Prepared(s, indexSize)
    ensures var e := EntryOf(s, 2); Named(e, "INDEX~1 HTM") && Field(e, 26) == 2 && Load(e, 28) == indexSize
  {
    DirectoryNames();
    DirectoryFields();
    IndexResized(s, indexSize);
    ResizedHas(EntryOf(s, 2), INDEX_FILE, indexSize, "INDEX~1 HTM");
  }

  /** What a host reads as FIRMWARE.BIN are the sectors of the image, in order, and the file has as many clusters
      as its size in the directory needs. */
  lemma HostReadsImage(s: seq<Byte>, indexSize: nat)
    requires Prepared(s, indexSize)
    ensures var e := EntryOf(s, 3); var ch := Chain(s, Field(e, 26), 62); var size := Load(e, 28);
      && s[13] == 2 && Named(e, "FIRMWAREBIN") && |ch| == 61 && size == 512 * 122
      && (forall i :: 0 <= i < 122 ==> HostSector(s, ch, i) == PT2 + i)
  {
    HostFinds(s, indexSize);
    FirmwareEntry(s, indexSize);
    ChainFrom(s, 61, 3, 62);
  }

  /** ... and as the index page the index sector. */
  lemma HostReadsIndex(s: seq<Byte>, indexSize: nat)
    requires Prepared(s, indexSize)
    ensures var e := EntryOf(s, 2); var ch := Chain(s, Field(e, 26), 62);
      s[13] == 2 && Named(e, "INDEX~1 HTM") && ch == [2] && HostSector(s, ch, 0) == PT1 && Load(e, 28) == indexSize
  {
    HostFinds(s, indexSize);
    IndexEntry(s, indexSize);
    var next := (k: nat) => Successor(s, k);
    EntryAt(s, 61, 2, 64);
    assert Follow(next, 2, 62) == [2];
  }

  /** The disk seems to be full: of its clusters, as many as the data area has, none is free. */
  lemma DiskIsFull(s: seq<Byte>, indexSize: nat, c: nat)
    requires Prepared(s, indexSize)
    requires s[13] != 0 && 2 <= c < 2 + (Field(s, 19) - DataStart(s)) / s[13]
    ensures ReadEntry(s, FAT_AT, c) != 0
  {
    HostFinds(s, indexSize);
    EntryAt(s, 61, c, 64);
  }

  /** Bytes i to j are zero. */
  ghost predicate ZeroIn(s: seq<Byte>, i: nat, j: nat)
  {
    forall k :: i <= k < j && k < |s| ==> s[k] == 0
  }

  /** The IO area before the table is filled in. */
  function Blank(s: seq<Byte>, entries: seq<Byte>, boot: seq<Byte>): (r: seq<Byte>)
    requires |s| == IO_BYTES && |entries| == 128 && |boot| == 30
    ensures |r| == |s|
  {
    Put(Put(Put(Put(s, 0, seq(DATA_AT, (i: nat) => 0)), DIR_AT, entries), 0, boot), 510, [0x55, 0xAA])
  }

  /** t is s with the table filled in. */
  ghost predicate TableBetween(s: seq<Byte>, t: seq<Byte>)
  {
    |t| == IO_BYTES && Filled(t, 61, 64) && SameOutside(s, t, 64)
  }

  /** ... and the sizes and the page after it. */
  function Finished(t: seq<Byte>, indexSize: Word, imageSize: Word, page: seq<Byte>): (r: seq<Byte>)
    requires |t| == IO_BYTES && |page| <= 512
    ensures |r| == |t|
  {
    Put(Put(Put(t, DIR_AT + 92, Bytes(indexSize)), DIR_AT + 124, Bytes(imageSize)), DATA_AT, page)
  }

  /** The parts of the area that stay zero. */
  ghost predicate Cleared(s: seq<Byte>, table: nat)
  {
    ZeroIn(s, 30, 510) && ZeroIn(s, table, DIR_AT) && ZeroIn(s, DIR_AT + 128, DATA_AT)
  }

  lemma BlankAt(s: seq<Byte>, entries: seq<Byte>, boot: seq<Byte>, k: nat)
    requires |s| == IO_BYTES && |entries| == 128 && |boot| == 30 && k < IO_BYTES
    ensures Blank(s, entries, boot)[k]
         == if k < 30 then boot[k]
            else if k == 510 then 0x55
            else if k == 511 then 0xAA
            else if DIR_AT <= k < DIR_AT + 128 then entries[k - DIR_AT]
            else if k < DATA_AT then 0
            else s[k]
  {
    var s1 := Put(s, 0, seq(DATA_AT, (i: nat) => 0));
    var s2 := Put(s1, DIR_AT, entries);
    var s3 := Put(s2, 0, boot);
    PutAt(s, 0, seq(DATA_AT, (i: nat) => 0), k);
    PutAt(s1, DIR_AT, entries, k);
    PutAt(s2, 0, boot, k);
    PutAt(s3, 510, [0x55, 0xAA], k);
  }

  /** The sizes of the two files in the directory, and nothing else of it. */
  function Sized(dir: seq<Byte>, indexSize: Word, imageSize: Word): (r: seq<Byte>)
    requires |dir| == 128
    ensures |r| == 128
  {
    Store(Store(dir, 92, indexSize), 124, imageSize)
  }

  lemma FinishedAt(t: seq<Byte>, indexSize: Word, imageSize: Word, page: seq<Byte>, k: nat)
    requires |t| == IO_BYTES && |page| <= 512 && k < IO_BYTES
    ensures Finished(t, indexSize, imageSize, page)[k]
         == if DATA_AT <= k < DATA_AT + |page| then page[k - DATA_AT]
            else if DIR_AT <= k < DIR_AT + 128 then
              Sized(t[DIR_AT..DIR_AT + 128], indexSize, imageSize)[k - DIR_AT]
            else t[k]
  {
    var t1 := Put(t, DIR_AT + 92, Bytes(indexSize));
    var t2 := Put(t1, DIR_AT + 124, Bytes(imageSize));
    PutAt(t, DIR_AT + 92, Bytes(indexSize), k);
    PutAt(t1, DIR_AT + 124, Bytes(imageSize), k);
    PutAt(t2, DATA_AT, page, k);
  }

  /** Every byte of the area, but for the table, which is filled in. */
  lemma AreaAt(s: seq<Byte>, entries: seq<Byte>, boot: seq<Byte>, t: seq<Byte>,
               indexSize: Word, imageSize: Word, page: seq<Byte>, k: nat)
    requires |s| == IO_BYTES && |entries| == 128 && |boot| == 30 && |page| <= 512
    requires TableBetween(Blank(s, entries, boot), t) && k < IO_BYTES
    ensures FAT_AT <= k < EndOf(64) || Finished(t, indexSize, imageSize, page)[k]
         == if k < 30 then boot[k]
            else if k == 510 then 0x55
            else if k == 511 then 0xAA
            else if DIR_AT <= k < DIR_AT + 128 then Sized(entries, indexSize, imageSize)[k - DIR_AT]
            else if DATA_AT <= k < DATA_AT + |page| then page[k - DATA_AT]
            else if k < DATA_AT then 0
            else s[k]
  {
    var b := Blank(s, entries, boot);
    BlankAt(s, entries, boot, k);
    FinishedAt(t, indexSize, imageSize, page, k);
    if k < FAT_AT || EndOf(64) <= k {
      TableAt(b, t, k);
    }
    forall n | DIR_AT <= n < DIR_AT + 128 ensures t[n] == entries[n - DIR_AT] {
      TableAt(b, t, n);
      BlankAt(s, entries, boot, n);
    }
    assert t[DIR_AT..DIR_AT + 128] == entries;
  }

  lemma TableAt(s: seq<Byte>, t: seq<Byte>, k: nat)
    requires TableBetween(s, t) && k < IO_BYTES && (k < FAT_AT || EndOf(64) <= k)
    ensures |s| == IO_BYTES && s[k] == t[k]
  {
    if k < FAT_AT {
      assert s[..FAT_AT][k] == t[..FAT_AT][k];
    } else {
      assert s[EndOf(64)..][k - EndOf(64)] == t[EndOf(64)..][k - EndOf(64)];
    }
  }

  lemma AreaFacts(s: seq<Byte>, entries: seq<Byte>, boot: seq<Byte>, t: seq<Byte>,
                  indexSize: Word, imageSize: Word, page: seq<Byte>)
    requires |s| == IO_BYTES && |entries| == 128 && |boot| == 30 && |page| <= 512
    requires TableBetween(Blank(s, entries, boot), t)
    ensures var r := Finished(t, indexSize, imageSize, page);
      && r[..30] == boot && r[510] == 0x55 && r[511] == 0xAA && Filled(r, 61, 64) && Cleared(r, EndOf(64))
      && r[DIR_AT..DIR_AT + 128] == Sized(entries, indexSize, imageSize)
      && r[DATA_AT..DATA_AT + |page|] == page && r[DATA_AT + |page|..] == s[DATA_AT + |page|..]
  {
    var r := Finished(t, indexSize, imageSize, page);
    forall k | 0 <= k < IO_BYTES
      ensures FAT_AT <= k < EndOf(64) || r[k]
           == if k < 30 then boot[k]
              else if k == 510 then 0x55
              else if k == 511 then 0xAA
              else if DIR_AT <= k < DIR_AT + 128 then Sized(entries, indexSize, imageSize)[k - DIR_AT]
              else if DATA_AT <= k < DATA_AT + |page| then page[k - DATA_AT]
              else if k < DATA_AT then 0
              else s[k]
    {
      AreaAt(s, entries, boot, t, indexSize, imageSize, page, k);
    }
    forall k | FAT_AT <= k < EndOf(64) ensures r[k] == t[k] {
      FinishedAt(t, indexSize, imageSize, page, k);
    }
  }

  lemma {:induction false} HexWordsLast(k: seq<Word>, w: Word)
    ensures HexWords(k + [w]) == HexWords(k) + Hex(w, WIDTH)
  {
    if k == [] {
      assert ([w])[1..] == [];
      assert HexWords([w]) == Hex(w, WIDTH) + HexWords([]);
    } else {
      assert (k + [w])[1..] == k[1..] + [w];
      HexWordsLast(k[1..], w);
    }
  }

  /** One character more, and there is room for it. */
  lemma PageStep(ctxt: seq<Byte>, n: nat, text: seq<Byte>)
    requires n < |ctxt|
    ensures Page(ctxt[..n + 1], text) == Page(ctxt[..n], text) + (if ctxt[n] == PERCENT then text else [ctxt[n]])
    ensures |Page(ctxt[..n + 1], text)| <= |Page(ctxt, text)|
  {
    var c := [ctxt[n]];
    assert ctxt[..n + 1] == ctxt[..n] + c && ctxt == ctxt[..n + 1] + ctxt[n + 1..];
    PageConcat(ctxt[..n], c, text);
    PageConcat(ctxt[..n + 1], ctxt[n + 1..], text);
    assert c[1..] == [] && Page([], text) == [];
  }

  lemma BehindDisk(ofs: Word)
    requires ofs % 64 == 0 && ofs + 64 > 65536
    ensures IMAGE_BYTES <= ofs - 3072 && 128 <= ofs / 512
  {
  }

  /** Sectors and packets. */
  lemma RouteFacts(ofs: Word)
    requires ofs % 64 == 0 && ofs + 64 <= 65536
    ensures var k := ofs / 64;
      && ofs == 64 * k && k < 1024
      && (ofs / 512 < 4 <==> k < 32) && (ofs / 512 < 5 <==> k < 40) && (ofs / 512 < 6 <==> k < 48)
      && (32 <= k < 40 ==> 2048 + ofs % 512 == ofs) && (k >= 48 ==> 3072 <= ofs)
      && ofs % 512 + 64 <= 512
  {
  }
}
