/**
 The image descriptor: how the server fills it in (src/fwcheck.cpp) and how the device judges
 it at boot (work/boot/checks.cpp).
 */
module FwCheck {
  import opened Words

  const MAGIC: Word := 0x12345678
  const MAGIC_AT := 0x188
  const SIZE_AT := 0x18C
  const CHECK_AT := 0x190
  const DESCRIPTOR_END := 0x194

  /** File sizes are rounded up to a multiple of 8. */
  function Round8(n: nat): nat { if n % 8 == 0 then n else (n / 8 + 1) * 8 }

  lemma Round8Up(n: nat)
    ensures n <= Round8(n) < n + 8 && Round8(n) % 8 == 0 && Round8(n) % 4 == 0
  {
  }

  /** The image as 32-bit words. */
  function WordsOf(s: seq<Byte>): (r: seq<Word>)
    requires |s| % 4 == 0
    ensures |r| == |s| / 4
    ensures forall i :: 0 <= i < |r| ==> r[i] == Load(s, 4 * i)
  {
    seq(|s| / 4, i requires 0 <= i < |s| / 4 => Load(s, 4 * i))
  }

  /** The sum of all words. */
  function Sum(ws: seq<Word>): Word
  {
    if ws == [] then 0 else Plus(Sum(ws[..|ws| - 1]), ws[|ws| - 1])
  }

  /** The file with zeros appended. */
  function Padded(file: seq<Byte>): (s: seq<Byte>)
    ensures |s| == Round8(|file|) && |s| % 8 == 0 && |s| % 4 == 0
  {
    Round8Up(|file|);
    file + seq(Round8(|file|) - |file|, _ => 0)
  }

  /** Padded image p with its size filled in and its check word cleared, then with the check word. */
  function Sized(p: seq<Byte>): (s: seq<Byte>)
    requires DESCRIPTOR_END <= |p| < M32
    ensures |s| == |p|
  {
    Store(Store(p, SIZE_AT, |p|), CHECK_AT, 0)
  }

  function Filled(p: seq<Byte>): (s: seq<Byte>)
    requires DESCRIPTOR_END <= |p| < M32 && |p| % 4 == 0
    ensures |s| == |p|
  {
    Store(Sized(p), CHECK_AT, Minus(0, Sum(WordsOf(Sized(p)))))
  }

  // ------------------------------------------------------ the bytes of the file

  /** The image is the file, byte for byte, and zeros up to a multiple of 8, but for the two words
      behind the magic word. */
  ghost predicate Carries(image: seq<Byte>, file: seq<Byte>)
  {
    && |image| % 8 == 0 && |file| <= |image| < |file| + 8
    && forall i :: 0 <= i < |image| && !(0x18C <= i < 0x194) ==> image[i] == if i < |file| then file[i] else 0
  }

  lemma StoreKeeps(s: seq<Byte>, at: nat, w: Word, i: nat)
    requires at + 4 <= |s| && i < |s| && !(at <= i < at + 4)
    ensures Store(s, at, w)[i] == s[i]
  {
  }

  lemma FilledCarries(file: seq<Byte>)
    requires DESCRIPTOR_END <= |Padded(file)| < M32
    ensures Carries(Filled(Padded(file)), file)
  {
    var p := Padded(file);
    Round8Up(|file|);
    var q := Store(p, SIZE_AT, |p|);
    forall i | 0 <= i < |p| && !(0x18C <= i < 0x194)
      ensures Filled(p)[i] == p[i]
    {
      StoreKeeps(p, SIZE_AT, |p|, i);
      StoreKeeps(q, CHECK_AT, 0, i);
      StoreKeeps(Sized(p), CHECK_AT, Minus(0, Sum(WordsOf(Sized(p)))), i);
    }
  }

  /** The magic word is in the file as these four bytes. */
  ghost predicate Magic(file: seq<Byte>)
  {
    |file| > 0x18B && file[0x188..0x18C] == [0x78, 0x56, 0x34, 0x12]
  }

  lemma MagicBytes(file: seq<Byte>)
    requires DESCRIPTOR_END <= |Padded(file)|
    ensures Load(Padded(file), MAGIC_AT) == MAGIC <==> Magic(file)
  {
    Round8Up(|file|);
    var p, s := Padded(file), file[0x188..0x18C];
    assert p[0x188] == s[0] && p[0x189] == s[1] && p[0x18A] == s[2] && p[0x18B] == s[3];
    JoinMagic(s[0], s[1], s[2], s[3]);
    assert s == [s[0], s[1], s[2], s[3]];
  }

  lemma JoinMagic(b0: Byte, b1: Byte, b2: Byte, b3: Byte)
    ensures Join(b0, b1, b2, b3) == 0x12345678 <==> b0 == 0x78 && b1 == 0x56 && b2 == 0x34 && b3 == 0x12
  {
  }

  // -------------------------------------------------------------- the zero sum

  /** Writing a word where there was zero adds it to the sum. */
  lemma {:induction false} SumUpdate(ws: seq<Word>, i: nat, w: Word)
    requires i < |ws| && ws[i] == 0
    ensures Sum(ws[i := w]) == Plus(Sum(ws), w)
  {
    var n := |ws| - 1;
    if i == n {
      assert ws[i := w][..n] == ws[..n];
    } else {
      SumUpdate(ws[..n], i, w);
      assert ws[i := w][..n] == ws[..n][i := w];
    }
  }

  /** A word stored at a word boundary is one word changed. */
  lemma WordsStore(s: seq<Byte>, i: nat, w: Word)
    requires |s| % 4 == 0 && 4 * i + 4 <= |s|
    ensures i < |WordsOf(s)| && WordsOf(Store(s, 4 * i, w)) == WordsOf(s)[i := w]
  {
    var t := Store(s, 4 * i, w);
    forall j | 0 <= j < |s| / 4
      ensures Load(t, 4 * j) == if j == i then w else Load(s, 4 * j)
    {
      if j != i {
        LoadOther(s, 4 * i, w, 4 * j);
      }
    }
  }

  lemma SizedDescriptor(p: seq<Byte>)
    requires DESCRIPTOR_END <= |p| < M32
    ensures Load(Sized(p), CHECK_AT) == 0
    ensures Load(Sized(p), SIZE_AT) == |p|
    ensures Load(Sized(p), MAGIC_AT) == Load(p, MAGIC_AT)
  {
    var p1 := Store(p, SIZE_AT, |p|);
    LoadStored(p, SIZE_AT, |p|);
    LoadStored(p1, CHECK_AT, 0);
    LoadOther(p, SIZE_AT, |p|, MAGIC_AT);
    LoadOther(p1, CHECK_AT, 0, SIZE_AT);
    LoadOther(p1, CHECK_AT, 0, MAGIC_AT);
  }

  /** Whatever the words of an image with a cleared check word add up to, the check word brings
      the sum to zero and leaves the rest of the descriptor alone. */
  lemma CheckWordCancels(s: seq<Byte>, w: Word)
    requires DESCRIPTOR_END <= |s| && |s| % 4 == 0 && Load(s, CHECK_AT) == 0
    requires w == Minus(0, Sum(WordsOf(s)))
    ensures var f := Store(s, CHECK_AT, w);
      && Sum(WordsOf(f)) == 0
      && Load(f, SIZE_AT) == Load(s, SIZE_AT)
      && Load(f, MAGIC_AT) == Load(s, MAGIC_AT)
  {
    WordsStore(s, CHECK_AT / 4, w);
    SumUpdate(WordsOf(s), CHECK_AT / 4, w);
    LoadOther(s, CHECK_AT, w, SIZE_AT);
    LoadOther(s, CHECK_AT, w, MAGIC_AT);
  }

  /** FwCheck's promise: the words of the filled image add up to zero, and the descriptor tells
      its size. */
  lemma FilledSumsToZero(p: seq<Byte>)
    requires DESCRIPTOR_END <= |p| < M32 && |p| % 4 == 0
    ensures Sum(WordsOf(Filled(p))) == 0
    ensures Load(Filled(p), SIZE_AT) == |p|
    ensures Load(Filled(p), MAGIC_AT) == Load(p, MAGIC_AT)
  {
    SizedDescriptor(p);
    CheckWordCancels(Sized(p), Minus(0, Sum(WordsOf(Sized(p)))));
  }

  // ------------------------------------------------------------------ the server side

  datatype Image = Rejected | Image(bytes: array<Byte>)

  /** The summing loop. */
  method SumWords(b: array<Byte>, len: nat) returns (cs: Word)
    requires 4 * len == b.Length
    ensures cs == Sum(WordsOf(b[..]))
  {
    cs := 0;
    ghost var ws := WordsOf(b[..]);
    for n := 0 to len
      invariant cs == Sum(ws[..n])
    {
      assert ws[..n + 1][..n] == ws[..n];
      cs := Plus(cs, Load(b[..], 4 * n));
    }
    assert ws[..len] == ws;
  }

  /** FwCheck, given the contents of the file. An empty file is rejected because nothing is read;
      a file that is not empty must reach the end of the descriptor, which is accessed without
      a test. */
  method FwCheck(file: seq<Byte>) returns (r: Image)
    requires |Padded(file)| < M32
    requires file == [] || DESCRIPTOR_END <= |Padded(file)|
    ensures r.Rejected? <==> file == [] || Load(Padded(file), MAGIC_AT) != MAGIC
    ensures r.Rejected? <==> !Magic(file)
    ensures r.Image? ==> fresh(r.bytes) && r.bytes[..] == Filled(Padded(file)) && Carries(r.bytes[..], file)
  {
    var filesize := Round8(|file|);
    Round8Up(|file|);
    var image := new Byte[filesize](_ => 0);
    if file == [] { return Rejected; }
    for i := 0 to |file|
      invariant image[..i] == file[..i]
      invariant forall j :: i <= j < filesize ==> image[j] == 0
    {
      image[i] := file[i];
    }
    assert image[..] == Padded(file);
    MagicBytes(file);
    FilledCarries(file);
    if Load(image[..], MAGIC_AT) != MAGIC { return Rejected; }
    StoreWord(image, SIZE_AT, filesize);
    StoreWord(image, CHECK_AT, 0);
    assert image[..] == Sized(Padded(file));
    var cs := SumWords(image, filesize / 4);
    StoreWord(image, CHECK_AT, Minus(0, cs));
    r := Image(image);
  }

  // ------------------------------------------------------------------ the device side

  /** Memory from `user_code_begin` upwards; every address can be read. */
  type Memory = nat -> Byte

  function WordAt(m: Memory, at: nat): Word
  {
    Join(m(at), m(at + 1), m(at + 2), m(at + 3))
  }

  function MemorySum(m: Memory, n: nat): Word
  {
    if n == 0 then 0 else Plus(MemorySum(m, n - 1), WordAt(m, 4 * (n - 1)))
  }

  /** An image that the device will start. */
  ghost predicate Acceptable(m: Memory)
  {
    && WordAt(m, MAGIC_AT) == MAGIC
    && 4 <= WordAt(m, SIZE_AT)
    && MemorySum(m, WordAt(m, SIZE_AT) / 4) == 0
  }

  /** UserCheck: the verdict and the value of `image_size`. */
  method UserCheck(m: Memory) returns (ok: bool, imageSize: Word)
    ensures ok <==> Acceptable(m)
    ensures imageSize == if ok then WordAt(m, SIZE_AT) else 0
  {
    if WordAt(m, MAGIC_AT) != MAGIC { return false, 0; }
    var len, cs := WordAt(m, SIZE_AT) / 4, 0;
    if len == 0 { return false, 0; }
    for n := 0 to len
      invariant cs == MemorySum(m, n)
    {
      cs := Plus(cs, WordAt(m, 4 * n));
    }
    if cs != 0 { return false, 0; }
    return true, WordAt(m, SIZE_AT);
  }

  ghost predicate Holds(m: Memory, s: seq<Byte>)
  {
    forall i :: 0 <= i < |s| ==> m(i) == s[i]
  }

  lemma {:induction false} MemorySumIs(m: Memory, s: seq<Byte>, n: nat)
    requires Holds(m, s) && |s| % 4 == 0 && n <= |s| / 4
    ensures MemorySum(m, n) == Sum(WordsOf(s)[..n])
  {
    if n > 0 {
      MemorySumIs(m, s, n - 1);
      assert WordsOf(s)[..n][..n - 1] == WordsOf(s)[..n - 1];
    }
  }

  /** A device whose memory starts with a filled image accepts it, with the size of the image. */
  lemma FilledIsAcceptable(p: seq<Byte>, m: Memory)
    requires DESCRIPTOR_END <= |p| < M32 && |p| % 4 == 0
    requires Load(p, MAGIC_AT) == MAGIC
    requires Holds(m, Filled(p))
    ensures Acceptable(m) && WordAt(m, SIZE_AT) == |p|
  {
    var s := Filled(p);
    FilledSumsToZero(p);
    MemorySumIs(m, s, |s| / 4);
    assert WordsOf(s)[..|s| / 4] == WordsOf(s);
  }

  // ------------------------------------------------------- what the device refuses

  /** The sum of n words in memory, each read from its lowest byte up, without wrapping. */
  function MemoryTotal(m: Memory, n: nat): nat
  {
    if n == 0 then 0
    else (
      MemoryTotal(m, n - 1)
      + m(4 * n - 4) + 0x100 * m(4 * n - 3) + 0x1_0000 * m(4 * n - 2) + 0x100_0000 * m(4 * n - 1)
    )
  }

  lemma {:induction false} MemorySumTotal(m: Memory, n: nat) returns (q: nat)
    ensures MemoryTotal(m, n) == MemorySum(m, n) + q * 0x1_0000_0000
  {
    q := 0;
    if n > 0 {
      q := MemorySumTotal(m, n - 1);
      var w := WordAt(m, 4 * (n - 1));
      JoinSum(m(4 * n - 4), m(4 * n - 3), m(4 * n - 2), m(4 * n - 1));
      q := CarryOver(MemoryTotal(m, n - 1), MemorySum(m, n - 1), w, q);
    }
  }

  lemma JoinSum(b0: Byte, b1: Byte, b2: Byte, b3: Byte)
    ensures Join(b0, b1, b2, b3) == b0 + 0x100 * b1 + 0x1_0000 * b2 + 0x100_0000 * b3
  {
  }

  lemma CarryOver(t: nat, s: Word, w: Word, q: nat) returns (q': nat)
    requires t == s + q * 0x1_0000_0000
    ensures t + w == Plus(s, w) + q' * 0x1_0000_0000
  {
    q' := if s + w < M32 then q else q + 1;
  }

  lemma Multiples(t: nat, r: Word, q: nat)
    requires t == r + q * 0x1_0000_0000
    ensures r == 0 <==> t % 0x1_0000_0000 == 0
  {
  }

  /** The device takes exactly the memory with these four bytes at 0x188 whose words, as many as the
      size at 0x18C tells and at least one, add up to a multiple of 2^32. */
  lemma AcceptableExactly(m: Memory)
    ensures var size := m(0x18C) + 0x100 * m(0x18D) + 0x1_0000 * m(0x18E) + 0x100_0000 * m(0x18F);
      Acceptable(m) <==>
        && m(0x188) == 0x78 && m(0x189) == 0x56 && m(0x18A) == 0x34 && m(0x18B) == 0x12
        && size / 4 > 0 && MemoryTotal(m, size / 4) % 0x1_0000_0000 == 0
  {
    JoinMagic(m(0x188), m(0x189), m(0x18A), m(0x18B));
    var n := WordAt(m, SIZE_AT) / 4;
    var q := MemorySumTotal(m, n);
    Multiples(MemoryTotal(m, n), MemorySum(m, n), q);
  }

  /** The two memories differ in word i only. */
  ghost predicate OneWordDiffers(m: Memory, m': Memory, i: nat)
  {
    && WordAt(m, 4 * i) != WordAt(m', 4 * i)
    && forall j: nat :: j != i ==> WordAt(m, 4 * j) == WordAt(m', 4 * j)
  }

  lemma {:induction false} SumsDiffer(m: Memory, m': Memory, i: nat, n: nat)
    requires OneWordDiffers(m, m', i)
    ensures MemorySum(m, n) == MemorySum(m', n) <==> n <= i
  {
    if n > 0 {
      SumsDiffer(m, m', i, n - 1);
      if n == i + 1 {
        assert MemorySum(m, i) == MemorySum(m', i);
      }
    }
  }

  /** A device refuses an image in which one word has changed, unless it is the one that tells the size. */
  lemma OneWordWrong(m: Memory, m': Memory, i: nat)
    requires Acceptable(m) && OneWordDiffers(m, m', i)
    requires i < WordAt(m, SIZE_AT) / 4 && 4 * i != SIZE_AT
    ensures !Acceptable(m')
  {
    assert WordAt(m, 4 * 0x63) == WordAt(m', 4 * 0x63);
    SumsDiffer(m, m', i, WordAt(m, SIZE_AT) / 4);
  }
}
