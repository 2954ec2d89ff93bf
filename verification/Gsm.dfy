/**
 Fixed-point arithmetic of the GSM 06.10 codec: saturating sums, the fractional quotient and the
 normalisation shift (work/text/gsm/src/add.c). Words have 16 bits, long words 32.
 */
module Gsm {
  import opened Words

  const MAX_LONG := 0x7fff_ffff
  const MIN_LONG := -0x8000_0000

  type LongWord = a: int | MIN_LONG <= a <= MAX_LONG

  function Saturated(x: int): LongWord
  {
    if x < MIN_LONG then MIN_LONG else if x > MAX_LONG then MAX_LONG else x
  }

  /** Unsigned 32-bit addition. */
  function UPlus(a: int, b: int): int
  {
    (a + b) % 0x1_0000_0000
  }

  /** gsm_L_add: no operand order or sign makes it wrap. */
  function Add(a: LongWord, b: LongWord): (r: LongWord)
    ensures r == Saturated(a + b)
  {
    if a < 0 then
      if b >= 0 then a + b
      else
        var u := UPlus(-(a + 1), -(b + 1));
        if u >= MAX_LONG then MIN_LONG else -u - 2
    else if b <= 0 then a + b
    else
      var u := UPlus(a, b);
      if u > MAX_LONG then MAX_LONG else u
  }

  /** gsm_L_sub. */
  function Sub(a: LongWord, b: LongWord): (r: LongWord)
    ensures r == Saturated(a - b)
  {
    if a >= 0 then
      if b >= 0 then a - b
      else
        var u := UPlus(a, -(b + 1));
        if u >= MAX_LONG then MAX_LONG else u + 1
    else if b <= 0 then a - b
    else
      var u := UPlus(-(a + 1), b);
      if u >= MAX_LONG then MIN_LONG else -u - 1
  }

  // ------------------------------------------------------------------------ gsm_div

  /** num, doubled n times. */
  function Doubled(num: nat, n: nat): nat
  {
    if n == 0 then num else 2 * Doubled(num, n - 1)
  }

  lemma {:induction false} DoubledIs(num: nat, n: nat)
    ensures Doubled(num, n) == Pow2(n) * num
  {
    if n > 0 { DoubledIs(num, n - 1); }
  }

  /** One more bit of the quotient. */
  lemma NextBit(div: int, denum: int, q: int, bit: int)
    requires q == div * denum && 0 <= bit <= 1
    ensures (2 * div + bit) * denum == 2 * q + if bit == 1 then denum else 0
  {
    assert (2 * div) * denum == 2 * (div * denum);
    assert (2 * div + 1) * denum == (2 * div) * denum + denum;
  }

  /** ... and one more place. */
  lemma NextPower(num: nat, n: nat, div: nat, bit: int)
    requires div < Pow2(n) && 0 <= bit <= 1
    ensures Doubled(num, n + 1) == 2 * Doubled(num, n) && Pow2(n + 1) == 2 * Pow2(n) && 2 * div + bit < Pow2(n + 1)
  {
  }

  /** gsm_div: the first fifteen fractional bits of num / denum; one, when they are equal, is cut to 32767. */
  method Div(num: nat, denum: nat) returns (div: nat)
    requires num <= denum < 0x8000
    ensures num < denum ==> div * denum <= 0x8000 * num < (div + 1) * denum
    ensures num == denum > 0 ==> div == 0x7fff
    ensures num == 0 ==> div == 0
    ensures div < 0x8000
  {
    div := 0;
    if num == 0 {
      return;
    }
    var rest, k := num, 15;
    ghost var q := 0;
    while k > 0
      invariant 0 <= k <= 15 && 0 <= rest <= denum && (rest == denum <==> num == denum)
      invariant q == div * denum && q + rest == Doubled(num, 15 - k)
      invariant div < Pow2(15 - k) && (num == denum ==> div == Pow2(15 - k) - 1)
    {
      ghost var bit := if 2 * rest >= denum then 1 else 0;
      NextBit(div, denum, q, bit);
      NextPower(num, 15 - k, div, bit);
      k := k - 1;
      div := 2 * div;
      rest := 2 * rest;
      q := 2 * q;
      if rest >= denum {
        rest := rest - denum;
        div := div + 1;
        q := q + denum;
      }
    }
    Fifteen(num, denum, div, q, rest);
  }

  /** After fifteen places. */
  lemma Fifteen(num: nat, denum: nat, div: nat, q: int, rest: nat)
    requires q == div * denum && q + rest == Doubled(num, 15) && rest <= denum && (rest == denum <==> num == denum)
    requires div < Pow2(15) && (num == denum ==> div == Pow2(15) - 1)
    ensures num < denum ==> div * denum <= 0x8000 * num < (div + 1) * denum
    ensures num == denum ==> div == 0x7fff
    ensures div < 0x8000
  {
    DoubledIs(num, 15);
    assert Pow2(15) == 0x8000;
    NextBit(div, denum, q, 0);
    assert (div + 1) * denum == q + denum;
  }

  lemma Monotone(a: int, b: int, d: nat)
    requires a <= b
    ensures a * d <= b * d
  {
  }

  lemma Quotient(x: nat, d: nat, q: nat)
    requires q * d <= x < (q + 1) * d
    ensures d > 0 && q == x / d
  {
    var r := x / d;
    assert r * d <= x < (r + 1) * d;
    if q < r {
      Monotone(q + 1, r, d);
    } else if r < q {
      Monotone(r + 1, q, d);
    }
  }

  /** The quotient is the exact one, rounded down; equal operands saturate. */
  method Fraction(num: nat, denum: nat) returns (div: nat)
    requires num <= denum < 0x8000
    ensures div == if num == 0 then 0 else if num == denum then 0x7fff else 0x8000 * num / denum
  {
    div := Div(num, denum);
    if num < denum {
      Quotient(0x8000 * num, denum, div);
    }
  }

  // ----------------------------------------------------------------------- gsm_norm

  function Rep(n: nat, v: nat): seq<nat>
  {
    seq(n, _ => v)
  }

  /** bitoff: leading zero bits of a byte. */
  function Bitoff(): seq<nat>
  {
    [8, 7] + Rep(2, 6) + Rep(4, 5) + Rep(8, 4) + Rep(16, 3) + Rep(32, 2) + Rep(64, 1) + Rep(128, 0)
  }

  lemma BitoffCounts(b: nat)
    requires b < 256
    ensures |Bitoff()| == 256 && Bitoff()[0] == 8
    ensures b > 0 ==> Bitoff()[b] <= 7 && 128 <= b * Pow2(Bitoff()[b]) && (b + 1) * Pow2(Bitoff()[b]) <= 256
    ensures 0 < b < 128 ==> Bitoff()[b] > 0
  {
  }

  /** The shift that the table gives: from the highest byte that is not zero. */
  function Zeros(b: nat): (n: int)
    requires b <= MAX_LONG
  {
    if b >= 0x1_0000 then
      if b >= 0x100_0000 then -1 + Bitoff()[b / 0x100_0000] else 7 + Bitoff()[b / 0x1_0000]
    else
      if b >= 0x100 then 15 + Bitoff()[b / 0x100] else 23 + Bitoff()[b]
  }

  /** gsm_norm. */
  function Norm(a: LongWord): (n: int)
    requires a != 0
  {
    if a <= -0x4000_0000 then 0 else Zeros(if a < 0 then -a - 1 else a)
  }

  /** A number between c and c + 1 units, where p brings c to the top of a byte. */
  lemma TopByte(b: nat, c: nat, unit: nat, p: nat)
    requires c * unit <= b && b + 1 <= (c + 1) * unit && 128 <= c * p && (c + 1) * p <= 256
    ensures 128 * unit <= b * p && (b + 1) * p <= 256 * unit
  {
    Monotone(c * unit, b, p);
    Monotone(128, c * p, unit);
    assert c * unit * p == c * p * unit;
    Monotone(b + 1, (c + 1) * unit, p);
    Monotone((c + 1) * p, 256, unit);
    assert (c + 1) * unit * p == (c + 1) * p * unit;
  }

  lemma {:induction false} Pow2Positive(n: nat)
    ensures Pow2(n) > 0
  {
    if n > 0 { Pow2Positive(n - 1); }
  }

  lemma Lift(b: nat, unit: nat, p: nat, up: nat)
    requires 128 * unit <= b * p && (b + 1) * p <= 256 * unit
    ensures 128 * (unit * up) <= b * (p * up) && (b + 1) * (p * up) <= 256 * (unit * up)
  {
    Monotone(128 * unit, b * p, up);
    Monotone((b + 1) * p, 256 * unit, up);
    assert b * p * up == b * (p * up) && (b + 1) * p * up == (b + 1) * (p * up);
  }

  lemma Powers()
    ensures Pow2(0) == 1 && Pow2(8) == 0x100 && Pow2(16) == 0x1_0000 && Pow2(24) == 0x100_0000
            && Pow2(31) == 0x8000_0000
  {
    Pow2Sum(8, 8);
    Pow2Sum(16, 8);
    Pow2Sum(24, 7);
  }

  /** b shifted so far that its highest byte c, which stands `low` bits up, fills bits 24 to 31. */
  lemma Lifted(b: nat, c: nat, low: nat, up: nat)
    requires low + up == 24 && 0 < c < 256 && c * Pow2(low) <= b && b + 1 <= (c + 1) * Pow2(low)
    ensures 0x8000_0000 <= b * Pow2(Bitoff()[c] + up) && (b + 1) * Pow2(Bitoff()[c] + up) <= 0x1_0000_0000
  {
    BitoffCounts(c);
    var t := Bitoff()[c];
    Pow2Sum(t, up);
    Pow2Sum(low, up);
    Powers();
    LiftedBy(b, c, Pow2(low), Pow2(t), Pow2(up));
  }

  lemma LiftedBy(b: nat, c: nat, unit: nat, p: nat, up: nat)
    requires c * unit <= b && b + 1 <= (c + 1) * unit && 128 <= c * p && (c + 1) * p <= 256
    requires unit * up == 0x100_0000
    ensures 0x8000_0000 <= b * (p * up) && (b + 1) * (p * up) <= 0x1_0000_0000
  {
    TopByte(b, c, unit, p);
    Lift(b, unit, p, up);
  }

  /** One shift less keeps the sign bit clear. */
  lemma Halved(b: nat, n: nat)
    requires 0x8000_0000 <= b * Pow2(n + 1) && (b + 1) * Pow2(n + 1) <= 0x1_0000_0000
    ensures 0x4000_0000 <= b * Pow2(n) && (b + 1) * Pow2(n) <= 0x8000_0000
  {
    assert b * Pow2(n + 1) == 2 * (b * Pow2(n));
    assert (b + 1) * Pow2(n + 1) == 2 * ((b + 1) * Pow2(n));
  }

  lemma ByteLifted(b: nat, c: nat, low: nat, unit: nat, n: nat)
    requires (low == 24 && unit == 0x100_0000) || (low == 16 && unit == 0x1_0000) || (low == 8 && unit == 0x100)
          || (low == 0 && unit == 1)
    requires 0 < c < 256 && c * unit <= b && b + 1 <= (c + 1) * unit && n + 1 == Bitoff()[c] + (24 - low)
    ensures 0x4000_0000 <= b * Pow2(n) && (b + 1) * Pow2(n) <= 0x8000_0000
  {
    Powers();
    Lifted(b, c, low, 24 - low);
    Halved(b, n);
  }

  lemma Normed(b: nat)
    requires 0 < b <= MAX_LONG
    ensures 0 <= Zeros(b) <= 30
    ensures 0x4000_0000 <= b * Pow2(Zeros(b)) && (b + 1) * Pow2(Zeros(b)) <= 0x8000_0000
  {
    if b >= 0x100_0000 {
      BitoffCounts(b / 0x100_0000);
      ByteLifted(b, b / 0x100_0000, 24, 0x100_0000, Zeros(b));
    } else if b >= 0x1_0000 {
      BitoffCounts(b / 0x1_0000);
      ByteLifted(b, b / 0x1_0000, 16, 0x1_0000, Zeros(b));
    } else if b >= 0x100 {
      BitoffCounts(b / 0x100);
      ByteLifted(b, b / 0x100, 8, 0x100, Zeros(b));
    } else {
      BitoffCounts(b);
      ByteLifted(b, b, 0, 1, Zeros(b));
    }
  }

  lemma Signs(b: int, p: nat)
    requires 0x4000_0000 <= b * p && (b + 1) * p <= 0x8000_0000 && p > 0
    ensures 0x4000_0000 <= b * p <= MAX_LONG && MIN_LONG <= (-b - 1) * p <= -0x4000_0000
  {
    assert (b + 1) * p == b * p + p;
    assert (-b - 1) * p == -((b + 1) * p);
  }

  /** A positive number is shifted between 2^30 and 2^31, and its complement accordingly. */
  lemma Shifts(b: LongWord)
    requires 0 < b
    ensures 0 <= Zeros(b) <= 31
    ensures 0x4000_0000 <= b * Pow2(Zeros(b)) <= MAX_LONG
    ensures b < 0x4000_0000 ==> MIN_LONG <= (-b - 1) * Pow2(Zeros(b)) <= -0x4000_0000
  {
    Normed(b);
    Pow2Positive(Zeros(b));
    Signs(b, Pow2(Zeros(b)));
  }

  /** Section 4.2.5 of GSM 06.10: a shifted left by norm(a) is normalised, for both signs. */
  lemma Normalises(a: LongWord)
    requires a != 0
    ensures 0 <= Norm(a) <= 31
    ensures if a > 0 then 0x4000_0000 <= a * Pow2(Norm(a)) <= MAX_LONG
            else MIN_LONG <= a * Pow2(Norm(a)) <= -0x4000_0000
  {
    if a > 0 {
      Shifts(a);
    } else if a == -1 {
      Powers();
    } else if a > -0x4000_0000 {
      Shifts(-a - 1);
    }
  }

  lemma {:induction false} Pow2Grows(m: nat, n: nat)
    requires m < n
    ensures 2 * Pow2(m) <= Pow2(n)
  {
    if m < n - 1 { Pow2Grows(m, n - 1); }
  }

  lemma Apart(a: nat, p: nat, q: nat)
    requires 2 * p <= q
    ensures 2 * (a * p) <= a * q
  {
    Monotone(2 * p, q, a);
    assert 2 * p * a == 2 * (a * p);
  }

  /** No other shift normalises a positive number. */
  lemma OnlyShift(a: LongWord, n: nat)
    requires a > 0
    ensures 0x4000_0000 <= a * Pow2(n) <= MAX_LONG <==> n == Norm(a)
  {
    Normalises(a);
    var k := Norm(a);
    if n < k {
      Pow2Grows(n, k);
      Apart(a, Pow2(n), Pow2(k));
    } else if k < n {
      Pow2Grows(k, n);
      Apart(a, Pow2(k), Pow2(n));
    }
  }
}
