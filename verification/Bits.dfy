/**
 The integers of `Words` as 32-bit registers of the machine: what the operations that are
 written out on integers do to the bits.
 */
module Bits {
  import opened Words

  // ------------------------------------------------------------- the number in a register

  /** Four bits of a register, counted from the lowest. */
  function Nibble(x: bv32, k: bv32): bv4
    requires k < 8
  {
    ((x >> (4 * k)) & 0xF) as bv4
  }

  function Val(u: bv4): nat { u as int }

  /** A hexadecimal digit before the digits of p. */
  function Front<T(!new)>(val: T -> nat, u: T, p: nat): nat { val(u) + 16 * p }

  /** The number with the given digits, the lowest first. */
  function Number<T(!new)>(val: T -> nat, u0: T, u1: T, u2: T, u3: T, u4: T, u5: T, u6: T, u7: T): nat
  {
    Front(val, u0, Front(val, u1, Front(val, u2, Front(val, u3,
      Front(val, u4, Front(val, u5, Front(val, u6, Front(val, u7, 0))))))))
  }

  /** The number that a register holds. */
  function Num(x: bv32): nat
  {
    Number(Val, Nibble(x, 0), Nibble(x, 1), Nibble(x, 2), Nibble(x, 3),
           Nibble(x, 4), Nibble(x, 5), Nibble(x, 6), Nibble(x, 7))
  }

  /** Digits below 16, one of which is zero. */
  ghost predicate Digits<T(!new)>(val: T -> nat, zero: T)
  {
    val(zero) == 0 && forall u :: val(u) < 16
  }

  lemma ValDigits()
    ensures Digits(Val, 0)
  {
  }

  // --------------------------------------------------------- operations bit by bit

  /** A bit before the bits of p. */
  function Cons(b: bool, p: nat): nat { (if b then 1 else 0) + 2 * p }

  function IsSet(u: bv4, mask: bv4): bool { u & mask != 0 }

  lemma FourBits(u: bv4, p: nat)
    ensures Front(Val, u, p) == Cons(IsSet(u, 1), Cons(IsSet(u, 2), Cons(IsSet(u, 4), Cons(IsSet(u, 8), p))))
  {
  }

  /** An operation on numbers that takes them bit by bit. */
  ghost predicate Bitwise(op: (nat, nat) -> nat, on: (bool, bool) -> bool)
  {
    forall r, s, p, q :: op(Cons(r, p), Cons(s, q)) == Cons(on(r, s), op(p, q))
  }

  /** An operation on the four bits of a digit. */
  ghost predicate OnDigits(on: (bool, bool) -> bool, at: (bv4, bv4) -> bv4)
  {
    forall u, v, m :: m == 1 || m == 2 || m == 4 || m == 8 ==> IsSet(at(u, v), m) == on(IsSet(u, m), IsSet(v, m))
  }

  lemma DigitWise(op: (nat, nat) -> nat, on: (bool, bool) -> bool, at: (bv4, bv4) -> bv4,
                  u: bv4, v: bv4, p: nat, q: nat)
    requires Bitwise(op, on) && OnDigits(on, at)
    ensures op(Front(Val, u, p), Front(Val, v, q)) == Front(Val, at(u, v), op(p, q))
  {
    FourBits(u, p);
    FourBits(v, q);
    FourBits(at(u, v), op(p, q));
  }

  /** An operation on numbers that takes them digit by digit. */
  ghost predicate ByDigits<T(!new)>(val: T -> nat, op: (nat, nat) -> nat, at: (T, T) -> T)
  {
    op(0, 0) == 0 && forall u, v, p, q :: op(Front(val, u, p), Front(val, v, q)) == Front(val, at(u, v), op(p, q))
  }

  lemma WordWise<T(!new)>(val: T -> nat, op: (nat, nat) -> nat, at: (T, T) -> T,
                          u0: T, u1: T, u2: T, u3: T, u4: T, u5: T, u6: T, u7: T,
                          v0: T, v1: T, v2: T, v3: T, v4: T, v5: T, v6: T, v7: T)
    requires ByDigits(val, op, at)
    ensures op(Number(val, u0, u1, u2, u3, u4, u5, u6, u7), Number(val, v0, v1, v2, v3, v4, v5, v6, v7))
      == Number(val, at(u0, v0), at(u1, v1), at(u2, v2), at(u3, v3), at(u4, v4), at(u5, v5), at(u6, v6), at(u7, v7))
  {
  }

  // -------------------------------------------------------------- the two operations

  function Differ(r: bool, s: bool): bool { r != s }

  function Both(r: bool, s: bool): bool { r && s }

  function Xor4(u: bv4, v: bv4): bv4 { u ^ v }

  function And4(u: bv4, v: bv4): bv4 { u & v }

  lemma XorBitwise()
    ensures Bitwise(XorNat, Differ) && XorNat(0, 0) == 0
  {
    forall r, s, p, q ensures XorNat(Cons(r, p), Cons(s, q)) == Cons(Differ(r, s), XorNat(p, q)) {
      assert Cons(r, p) / 2 == p && Cons(s, q) / 2 == q;
    }
  }

  lemma AndBitwise()
    ensures Bitwise(And, Both) && And(0, 0) == 0
  {
    forall r, s, p, q ensures And(Cons(r, p), Cons(s, q)) == Cons(Both(r, s), And(p, q)) {
      assert Cons(r, p) / 2 == p && Cons(s, q) / 2 == q;
    }
  }

  lemma XorOnDigits()
    ensures OnDigits(Differ, Xor4)
  {
  }

  lemma AndOnDigits()
    ensures OnDigits(Both, And4)
  {
    forall u: bv4, v: bv4, m: bv4 | m == 1 || m == 2 || m == 4 || m == 8
      ensures IsSet(And4(u, v), m) == Both(IsSet(u, m), IsSet(v, m))
    {
      AndIsSet(u, v, m);
    }
  }

  lemma AndIsSet(u: bv4, v: bv4, m: bv4)
    requires m == 1 || m == 2 || m == 4 || m == 8
    ensures (u & v) & m != 0 <==> u & m != 0 && v & m != 0
  {
  }

  lemma XorDigits()
    ensures ByDigits(Val, XorNat, Xor4)
  {
    XorBitwise();
    XorOnDigits();
    forall u, v, p, q
      ensures XorNat(Front(Val, u, p), Front(Val, v, q)) == Front(Val, Xor4(u, v), XorNat(p, q))
    {
      DigitWise(XorNat, Differ, Xor4, u, v, p, q);
    }
  }

  lemma AndDigits()
    ensures ByDigits(Val, And, And4)
  {
    AndBitwise();
    AndOnDigits();
    forall u, v, p, q
      ensures And(Front(Val, u, p), Front(Val, v, q)) == Front(Val, And4(u, v), And(p, q))
    {
      DigitWise(And, Both, And4, u, v, p, q);
    }
  }

  lemma XorNibbles(x: bv32, y: bv32)
    ensures Nibble(x ^ y, 0) == Xor4(Nibble(x, 0), Nibble(y, 0)) && Nibble(x ^ y, 1) == Xor4(Nibble(x, 1), Nibble(y, 1))
    ensures Nibble(x ^ y, 2) == Xor4(Nibble(x, 2), Nibble(y, 2)) && Nibble(x ^ y, 3) == Xor4(Nibble(x, 3), Nibble(y, 3))
    ensures Nibble(x ^ y, 4) == Xor4(Nibble(x, 4), Nibble(y, 4)) && Nibble(x ^ y, 5) == Xor4(Nibble(x, 5), Nibble(y, 5))
    ensures Nibble(x ^ y, 6) == Xor4(Nibble(x, 6), Nibble(y, 6)) && Nibble(x ^ y, 7) == Xor4(Nibble(x, 7), Nibble(y, 7))
  {
  }

  lemma AndNibbles(x: bv32, y: bv32)
    ensures Nibble(x & y, 0) == And4(Nibble(x, 0), Nibble(y, 0)) && Nibble(x & y, 1) == And4(Nibble(x, 1), Nibble(y, 1))
    ensures Nibble(x & y, 2) == And4(Nibble(x, 2), Nibble(y, 2)) && Nibble(x & y, 3) == And4(Nibble(x, 3), Nibble(y, 3))
    ensures Nibble(x & y, 4) == And4(Nibble(x, 4), Nibble(y, 4)) && Nibble(x & y, 5) == And4(Nibble(x, 5), Nibble(y, 5))
    ensures Nibble(x & y, 6) == And4(Nibble(x, 6), Nibble(y, 6)) && Nibble(x & y, 7) == And4(Nibble(x, 7), Nibble(y, 7))
  {
  }

  /** The exclusive or of `Words` is the machine's. */
  lemma XorNum(x: bv32, y: bv32)
    ensures XorNat(Num(x), Num(y)) == Num(x ^ y)
  {
    XorDigits();
    XorNibbles(x, y);
    WordWise(Val, XorNat, Xor4,
             Nibble(x, 0), Nibble(x, 1), Nibble(x, 2), Nibble(x, 3),
             Nibble(x, 4), Nibble(x, 5), Nibble(x, 6), Nibble(x, 7),
             Nibble(y, 0), Nibble(y, 1), Nibble(y, 2), Nibble(y, 3),
             Nibble(y, 4), Nibble(y, 5), Nibble(y, 6), Nibble(y, 7));
  }

  /** ... and so is its bitwise and. */
  lemma AndNum(x: bv32, y: bv32)
    ensures And(Num(x), Num(y)) == Num(x & y)
  {
    AndDigits();
    AndNibbles(x, y);
    WordWise(Val, And, And4,
             Nibble(x, 0), Nibble(x, 1), Nibble(x, 2), Nibble(x, 3),
             Nibble(x, 4), Nibble(x, 5), Nibble(x, 6), Nibble(x, 7),
             Nibble(y, 0), Nibble(y, 1), Nibble(y, 2), Nibble(y, 3),
             Nibble(y, 4), Nibble(y, 5), Nibble(y, 6), Nibble(y, 7));
  }

  // ------------------------------------------------------------------ every word

  function Pack(u0: bv4, u1: bv4, u2: bv4, u3: bv4, u4: bv4, u5: bv4, u6: bv4, u7: bv4): bv32
  {
    (u0 as bv32) | ((u1 as bv32) << 4) | ((u2 as bv32) << 8) | ((u3 as bv32) << 12)
      | ((u4 as bv32) << 16) | ((u5 as bv32) << 20) | ((u6 as bv32) << 24) | ((u7 as bv32) << 28)
  }

  lemma Packed(u0: bv4, u1: bv4, u2: bv4, u3: bv4, u4: bv4, u5: bv4, u6: bv4, u7: bv4)
    ensures var x := Pack(u0, u1, u2, u3, u4, u5, u6, u7);
      && Nibble(x, 0) == u0 && Nibble(x, 1) == u1 && Nibble(x, 2) == u2 && Nibble(x, 3) == u3
      && Nibble(x, 4) == u4 && Nibble(x, 5) == u5 && Nibble(x, 6) == u6 && Nibble(x, 7) == u7
  {
  }

  /** The lowest digit of a number, and the number without it. */
  lemma Split(n: nat) returns (u: bv4, p: nat)
    ensures Front(Val, u, p) == n && p == n / 16
  {
    p := n / 16;
    var d := n % 16;
    u := d as bv4;
    assert (d as bv4) as int == d;
  }

  /** Every word is the number in some register. */
  lemma Registered(w: Word) returns (x: bv32)
    ensures Num(x) == w
  {
    var u0, w1 := Split(w);
    var u1, w2 := Split(w1);
    var u2, w3 := Split(w2);
    var u3, w4 := Split(w3);
    var u4, w5 := Split(w4);
    var u5, w6 := Split(w5);
    var u6, w7 := Split(w6);
    var u7, w8 := Split(w7);
    assert w8 == 0;
    Packed(u0, u1, u2, u3, u4, u5, u6, u7);
    x := Pack(u0, u1, u2, u3, u4, u5, u6, u7);
  }

  // -------------------------------------------------------------------- the shifts

  lemma NumberBound<T(!new)>(val: T -> nat, zero: T, u0: T, u1: T, u2: T, u3: T, u4: T, u5: T, u6: T, u7: T)
    requires Digits(val, zero)
    ensures Number(val, u0, u1, u2, u3, u4, u5, u6, u7) < M32
  {
  }

  lemma NumberUp<T(!new)>(val: T -> nat, zero: T, u0: T, u1: T, u2: T, u3: T, u4: T, u5: T, u6: T, u7: T)
    requires Digits(val, zero)
    ensures Number(val, zero, u0, u1, u2, u3, u4, u5, u6) == Number(val, u0, u1, u2, u3, u4, u5, u6, u7) * 16 % M32
  {
    NumberBound(val, zero, zero, u0, u1, u2, u3, u4, u5, u6);
    Remainder(Number(val, u0, u1, u2, u3, u4, u5, u6, u7), Number(val, zero, u0, u1, u2, u3, u4, u5, u6), val(u7));
  }

  lemma Remainder(n: nat, r: nat, k: nat)
    requires 16 * n == r + M32 * k && r < M32
    ensures n * 16 % M32 == r
  {
  }

  lemma NumberDown<T(!new)>(val: T -> nat, zero: T, u0: T, u1: T, u2: T, u3: T, u4: T, u5: T, u6: T, u7: T)
    requires Digits(val, zero)
    ensures Number(val, u1, u2, u3, u4, u5, u6, u7, zero) == Number(val, u0, u1, u2, u3, u4, u5, u6, u7) / 16
  {
  }

  lemma FourUp(x: bv32)
    ensures Nibble(x << 4, 0) == 0
    ensures Nibble(x << 4, 1) == Nibble(x, 0) && Nibble(x << 4, 2) == Nibble(x, 1) && Nibble(x << 4, 3) == Nibble(x, 2)
    ensures Nibble(x << 4, 4) == Nibble(x, 3) && Nibble(x << 4, 5) == Nibble(x, 4) && Nibble(x << 4, 6) == Nibble(x, 5)
    ensures Nibble(x << 4, 7) == Nibble(x, 6)
  {
  }

  lemma FourDown(x: bv32)
    ensures Nibble(x >> 4, 0) == Nibble(x, 1) && Nibble(x >> 4, 1) == Nibble(x, 2) && Nibble(x >> 4, 2) == Nibble(x, 3)
    ensures Nibble(x >> 4, 3) == Nibble(x, 4) && Nibble(x >> 4, 4) == Nibble(x, 5) && Nibble(x >> 4, 5) == Nibble(x, 6)
    ensures Nibble(x >> 4, 6) == Nibble(x, 7) && Nibble(x >> 4, 7) == 0
  {
  }

  /** Every register holds a word; multiplying by 16 in 32 bits shifts by four to the left. */
  lemma NumShl4(x: bv32)
    ensures Num(x) < M32 && Num(x << 4) == Num(x) * 16 % M32
  {
    var u0, u1, u2, u3 := Nibble(x, 0), Nibble(x, 1), Nibble(x, 2), Nibble(x, 3);
    var u4, u5, u6, u7 := Nibble(x, 4), Nibble(x, 5), Nibble(x, 6), Nibble(x, 7);
    FourUp(x);
    ValDigits();
    NumberBound(Val, 0, u0, u1, u2, u3, u4, u5, u6, u7);
    NumberUp(Val, 0, u0, u1, u2, u3, u4, u5, u6, u7);
  }

  lemma NumShr4(x: bv32)
    ensures Num(x >> 4) == Num(x) / 16
  {
    FourDown(x);
    ValDigits();
    NumberDown(Val, 0, Nibble(x, 0), Nibble(x, 1), Nibble(x, 2), Nibble(x, 3),
               Nibble(x, 4), Nibble(x, 5), Nibble(x, 6), Nibble(x, 7));
  }

  /** A digit halved below the digit next to it. */
  function Halved(d: nat, e: nat): nat { d / 2 + 8 * (e % 2) }

  function Half4(u: bv4, v: bv4): bv4 { (u >> 1) | (v << 3) }

  lemma Half4Is(u: bv4, v: bv4)
    ensures Val(Half4(u, v)) == Halved(Val(u), Val(v))
  {
  }

  lemma OneDownLow(x: bv32)
    ensures Nibble(x >> 1, 0) == Half4(Nibble(x, 0), Nibble(x, 1))
    ensures Nibble(x >> 1, 1) == Half4(Nibble(x, 1), Nibble(x, 2))
    ensures Nibble(x >> 1, 2) == Half4(Nibble(x, 2), Nibble(x, 3))
    ensures Nibble(x >> 1, 3) == Half4(Nibble(x, 3), Nibble(x, 4))
  {
  }

  lemma OneDownHigh(x: bv32)
    ensures Nibble(x >> 1, 4) == Half4(Nibble(x, 4), Nibble(x, 5))
    ensures Nibble(x >> 1, 5) == Half4(Nibble(x, 5), Nibble(x, 6))
    ensures Nibble(x >> 1, 6) == Half4(Nibble(x, 6), Nibble(x, 7))
    ensures Nibble(x >> 1, 7) == Half4(Nibble(x, 7), 0)
  {
  }

  /** An operation that halves a digit below another one. */
  ghost predicate Halves<T(!new)>(val: T -> nat, at: (T, T) -> T)
  {
    forall u, v :: val(at(u, v)) == Halved(val(u), val(v))
  }

  lemma Half4Halves()
    ensures Halves(Val, Half4)
  {
    forall u: bv4, v: bv4 ensures Val(Half4(u, v)) == Halved(Val(u), Val(v)) { Half4Is(u, v); }
  }

  /** One digit more, halved. */
  lemma HalfOn<T(!new)>(val: T -> nat, at: (T, T) -> T, u: T, v: T, p: nat, q: nat) returns (p': nat, q': nat)
    requires Halves(val, at) && q == p / 2 && p % 2 == val(v) % 2
    ensures p' == Front(val, u, p) && q' == Front(val, at(u, v), q)
    ensures q' == p' / 2 && p' % 2 == val(u) % 2
  {
    HalfSum(val(u), val(v), p);
    p', q' := Front(val, u, p), Front(val, at(u, v), q);
  }

  lemma HalfSum(d: nat, e: nat, p: nat)
    requires p % 2 == e % 2
    ensures Halved(d, e) + 16 * (p / 2) == (d + 16 * p) / 2 && (d + 16 * p) % 2 == d % 2
  {
  }

  lemma HalfWise<T(!new)>(val: T -> nat, at: (T, T) -> T, zero: T,
                          u0: T, u1: T, u2: T, u3: T, u4: T, u5: T, u6: T, u7: T)
    requires Halves(val, at) && val(zero) == 0
    ensures Number(val, at(u0, u1), at(u1, u2), at(u2, u3), at(u3, u4), at(u4, u5), at(u5, u6), at(u6, u7),
                   at(u7, zero))
      == Number(val, u0, u1, u2, u3, u4, u5, u6, u7) / 2
  {
    var p, q := HalfOn(val, at, u7, zero, 0, 0);
    p, q := HalfOn(val, at, u6, u7, p, q);
    p, q := HalfOn(val, at, u5, u6, p, q);
    p, q := HalfOn(val, at, u4, u5, p, q);
    p, q := HalfOn(val, at, u3, u4, p, q);
    p, q := HalfOn(val, at, u2, u3, p, q);
    p, q := HalfOn(val, at, u1, u2, p, q);
    p, q := HalfOn(val, at, u0, u1, p, q);
  }

  lemma NumShr1(x: bv32)
    ensures Num(x >> 1) == Num(x) / 2
  {
    Half4Halves();
    ValDigits();
    OneDownLow(x);
    OneDownHigh(x);
    HalfWise(Val, Half4, 0, Nibble(x, 0), Nibble(x, 1), Nibble(x, 2), Nibble(x, 3),
             Nibble(x, 4), Nibble(x, 5), Nibble(x, 6), Nibble(x, 7));
  }

  lemma DivDiv(n: nat)
    ensures n / 16 / 2 == n / 32
  {
  }

  lemma FiveDown(x: bv32)
    ensures x >> 5 == (x >> 4) >> 1
  {
  }

  /** Dividing by 32 shifts by five to the right. */
  lemma NumShr5(x: bv32)
    ensures Num(x >> 5) == Num(x) / 32
  {
    var y := x >> 4;
    NumShr4(x);
    NumShr1(y);
    FiveDown(x);
    DivDiv(Num(x));
  }

  // ------------------------------------------------------------- all that a cipher needs

  /** The operations of a machine on its registers. */
  datatype Ops<!T(!new)> = Ops(add: (T, T) -> T, xor: (T, T) -> T, shl4: T -> T, shr5: T -> T)

  /** `num` takes the bit operations to those on words. */
  ghost predicate Machine<T(!new)>(num: T -> nat, o: Ops<T>)
  {
    && (forall x :: num(x) < M32)
    && (forall x {:trigger o.shl4(x)} :: num(o.shl4(x)) == num(x) * 16 % M32)
    && (forall x {:trigger o.shr5(x)} :: num(o.shr5(x)) == num(x) / 32)
    && (forall x, y :: num(o.xor(x, y)) == XorNat(num(x), num(y)))
  }

  function Add32(x: bv32, y: bv32): bv32 { x + y }

  function Xor32(x: bv32, y: bv32): bv32 { x ^ y }

  function Shl4(x: bv32): bv32 { x << 4 }

  function Shr5(x: bv32): bv32 { x >> 5 }

  const OPS := Ops(Add32, Xor32, Shl4, Shr5)

  lemma IsMachine()
    ensures Machine(Num, OPS)
  {
    forall x: bv32
      ensures Num(x) < M32 && Num(Shl4(x)) == Num(x) * 16 % M32 && Num(Shr5(x)) == Num(x) / 32
    {
      NumShl4(x);
      NumShr5(x);
    }
    forall x: bv32, y: bv32 ensures Num(Xor32(x, y)) == XorNat(Num(x), Num(y)) { XorNum(x, y); }
  }
}
