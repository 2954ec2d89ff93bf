/**
 Bytes, 32-bit words and the little-endian view of memory as words.
 Words are bounded integers; wrap-around and bit operations are written out.
 */
module Words {

  const M32 := 0x1_0000_0000

  type Byte = b: int | 0 <= b < 256
  type Word = w: int | 0 <= w < M32

  /** 32-bit addition and subtraction wrap around. */
  function Plus(a: Word, b: Word): Word { if a + b < M32 then a + b else a + b - M32 }

  function Minus(a: Word, b: Word): Word { if a < b then a - b + M32 else a - b }

  // ------------------------------------------------------------- bit operations

  function Pow2(n: nat): nat
  {
    if n == 0 then 1 else 2 * Pow2(n - 1)
  }

  lemma Pow2Values()
    ensures Pow2(8) == 256 && Pow2(16) == 0x1_0000 && Pow2(32) == M32
  {
    Pow2Sum(8, 8);
    Pow2Sum(16, 16);
    assert Pow2(4) == 16;
    Pow2Sum(4, 4);
  }

  lemma {:induction false} Pow2Sum(a: nat, b: nat)
    ensures Pow2(a + b) == Pow2(a) * Pow2(b)
  {
    if a > 0 {
      Pow2Sum(a - 1, b);
      assert Pow2(a + b) == 2 * Pow2(a - 1 + b);
    }
  }

  /** Exclusive or, bit by bit. */
  function XorNat(a: nat, b: nat): nat
  {
    if a == 0 && b == 0 then 0 else (if a % 2 != b % 2 then 1 else 0) + 2 * XorNat(a / 2, b / 2)
  }

  lemma {:induction false} XorNatUndo(a: nat, b: nat)
    ensures XorNat(XorNat(a, b), b) == a
    decreases a + b
  {
    if a != 0 || b != 0 {
      XorNatUndo(a / 2, b / 2);
    }
  }

  lemma {:induction false} XorNatBound(a: nat, b: nat, n: nat)
    requires a < Pow2(n) && b < Pow2(n)
    ensures XorNat(a, b) < Pow2(n)
  {
    if n > 0 && (a != 0 || b != 0) {
      XorNatBound(a / 2, b / 2, n - 1);
    }
  }

  function Xor(a: Word, b: Word): Word
  {
    Pow2Values();
    XorNatBound(a, b, 32);
    XorNat(a, b)
  }

  lemma XorUndo(a: Word, b: Word)
    ensures Xor(Xor(a, b), b) == a
  {
    XorNatUndo(a, b);
  }

  /** Bitwise and. */
  function And(a: nat, b: nat): nat
  {
    if a == 0 || b == 0 then 0 else (if a % 2 == 1 && b % 2 == 1 then 1 else 0) + 2 * And(a / 2, b / 2)
  }

  /** All ones is neutral for it. */
  lemma {:induction false} AndOnes(b: nat, n: nat)
    requires b < Pow2(n)
    ensures And(Pow2(n) - 1, b) == b
  {
    if b > 0 {
      AndOnes(b / 2, n - 1);
      assert (Pow2(n) - 1) / 2 == Pow2(n - 1) - 1 && (Pow2(n) - 1) % 2 == 1;
    }
  }

  // ------------------------------------------------------- words in little-endian memory

  function Join(b0: Byte, b1: Byte, b2: Byte, b3: Byte): Word
  {
    b0 + 0x100 * (b1 + 0x100 * (b2 + 0x100 * b3))
  }

  function Load(s: seq<Byte>, at: nat): Word
    requires at + 4 <= |s|
  {
    Join(s[at], s[at + 1], s[at + 2], s[at + 3])
  }

  function Bytes(w: Word): (s: seq<Byte>)
    ensures |s| == 4
  {
    var w1 := w / 0x100;
    var w2 := w1 / 0x100;
    [w % 0x100, w1 % 0x100, w2 % 0x100, w2 / 0x100]
  }

  function Store(s: seq<Byte>, at: nat, w: Word): (r: seq<Byte>)
    requires at + 4 <= |s|
    ensures |r| == |s|
  {
    s[..at] + Bytes(w) + s[at + 4..]
  }

  lemma LoadBytes(w: Word)
    ensures Load(Bytes(w), 0) == w
  {
  }

  lemma BytesLoad(b0: Byte, b1: Byte, b2: Byte, b3: Byte)
    ensures Bytes(Join(b0, b1, b2, b3)) == [b0, b1, b2, b3]
  {
    var w := Join(b0, b1, b2, b3);
    assert w / 0x100 == b1 + 0x100 * (b2 + 0x100 * b3);
    assert w / 0x100 / 0x100 == b2 + 0x100 * b3;
  }

  /** A word that was stored is loaded again. */
  lemma LoadStored(s: seq<Byte>, at: nat, w: Word)
    requires at + 4 <= |s|
    ensures Load(Store(s, at, w), at) == w
  {
    LoadBytes(w);
    assert Store(s, at, w)[at..at + 4] == Bytes(w);
  }

  /** A store leaves the words that do not overlap it. */
  lemma LoadOther(s: seq<Byte>, at: nat, w: Word, other: nat)
    requires at + 4 <= |s| && other + 4 <= |s|
    requires other + 4 <= at || at + 4 <= other
    ensures Load(Store(s, at, w), other) == Load(s, other)
  {
  }

  /** A word assigned through a pointer. */
  method StoreWord(b: array<Byte>, at: nat, w: Word)
    requires at + 4 <= b.Length
    modifies b
    ensures b[..] == Store(old(b[..]), at, w)
  {
    var s := Bytes(w);
    b[at], b[at + 1], b[at + 2], b[at + 3] := s[0], s[1], s[2], s[3];
  }
}
