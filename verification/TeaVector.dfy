/**
 The cipher of src/tea.c on the registers of the machine, and on a known block.
 */
module TeaVector {
  import opened Words
  import opened Feistel
  import opened Blocks
  import opened Bits
  import Tea

  lemma PlusWraps(a: Word, b: Word)
    ensures Plus(a, b) == (a + b) % M32
  {
  }

  /** p is v shifted by 4 to the left plus one key word, q is v plus the sum, and r is v shifted by
      5 to the right plus the other key word, each in 32 bits. */
  ghost predicate Parts<T(!new)>(num: T -> nat, o: Ops<T>, v: T, sum: Word, a: Word, b: Word, p: T, q: T, r: T)
  {
    && num(p) == (num(o.shl4(v)) + a) % M32
    && num(q) == (num(v) + sum) % M32
    && num(r) == (num(o.shr5(v)) + b) % M32
  }

  /** What a half-round adds is the exclusive or of three registers. */
  ghost predicate Mixed<T(!new)>(num: T -> nat, o: Ops<T>, v: T, sum: Word, a: Word, b: Word, p: T, q: T, r: T)
  {
    num(v) < M32 && Tea.Mix(num(v), sum, a, b) == num(o.xor(o.xor(p, q), r))
  }

  lemma MixIs(v: Word, up: Word, down: Word, sum: Word, a: Word, b: Word, p: Word, q: Word, r: Word)
    requires up == v * 16 % M32 && down == v / 32
    requires p == (up + a) % M32 && q == (v + sum) % M32 && r == (down + b) % M32
    ensures Tea.Mix(v, sum, a, b) == XorNat(XorNat(p, q), r)
  {
    PlusWraps(up, a);
    PlusWraps(v, sum);
    PlusWraps(down, b);
  }

  lemma MixOnMachine<T(!new)>(num: T -> nat, o: Ops<T>, v: T, sum: Word, a: Word, b: Word, p: T, q: T, r: T)
    requires Machine(num, o) && Parts(num, o, v, sum, a, b, p, q, r)
    ensures Mixed(num, o, v, sum, a, b, p, q, r)
  {
    MixIs(num(v), num(o.shl4(v)), num(o.shr5(v)), sum, a, b, num(p), num(q), num(r));
  }

  /** For every word, sum and key, on the registers of the machine. */
  lemma MixOnBits(v: bv32, sum: Word, a: Word, b: Word, p: bv32, q: bv32, r: bv32)
    requires Parts(Num, OPS, v, sum, a, b, p, q, r)
    ensures Mixed(Num, OPS, v, sum, a, b, p, q, r)
  {
    IsMachine();
    MixOnMachine(Num, OPS, v, sum, a, b, p, q, r);
  }

  /** A round on known registers: v1 and w0 hold the second word and the new first word, and the
      first half mixes with the first two key words, the second half with the other two. */
  ghost predicate HalfFrom<T(!new)>(num: T -> nat, o: Ops<T>, u: Word, v: T, sum: Word, a: Word, b: Word,
                                    p: T, q: T, r: T, w: Word)
  {
    var x := o.xor(o.xor(p, q), r);
    Parts(num, o, v, sum, a, b, p, q, r) && num(x) < M32 && w == Plus(u, num(x))
  }

  lemma HalfOnMachine<T(!new)>(num: T -> nat, o: Ops<T>, u: Word, v: T, sum: Word, a: Word, b: Word,
                               p: T, q: T, r: T, w: Word)
    requires Machine(num, o) && HalfFrom(num, o, u, v, sum, a, b, p, q, r, w)
    ensures num(v) < M32 && w == Plus(u, Tea.Mix(num(v), sum, a, b))
  {
    MixOnMachine(num, o, v, sum, a, b, p, q, r);
  }

  lemma RoundOnMachine<T(!new)>(num: T -> nat, o: Ops<T>, v0: Word, v1: T, sum: Word, k: Key,
                                p: T, q: T, r: T, w0: T, p': T, q': T, r': T, w1: Word)
    requires Machine(num, o) && num(v1) < M32 && num(w0) < M32
    requires HalfFrom(num, o, v0, v1, sum, k[0], k[1], p, q, r, num(w0))
    requires HalfFrom(num, o, num(v1), w0, sum, k[2], k[3], p', q', r', w1)
    ensures Round(Tea.Mix, Pair(v0, num(v1)), sum, k) == Pair(num(w0), w1)
  {
    HalfOnMachine(num, o, v0, v1, sum, k[0], k[1], p, q, r, num(w0));
    HalfOnMachine(num, o, num(v1), w0, sum, k[2], k[3], p', q', r', w1);
  }

  /** For every pair, sum and key, on the registers of the machine. */
  lemma RoundOnBits(v0: Word, v1: bv32, sum: Word, k: Key, p: bv32, q: bv32, r: bv32,
                    w0: bv32, p': bv32, q': bv32, r': bv32, w1: Word)
    requires Num(v1) < M32 && Num(w0) < M32
    requires HalfFrom(Num, OPS, v0, v1, sum, k[0], k[1], p, q, r, Num(w0))
    requires HalfFrom(Num, OPS, Num(v1), w0, sum, k[2], k[3], p', q', r', w1)
    ensures Round(Tea.Mix, Pair(v0, Num(v1)), sum, k) == Pair(Num(w0), w1)
  {
    IsMachine();
    RoundOnMachine(Num, OPS, v0, v1, sum, k, p, q, r, w0, p', q', r', w1);
  }

  /** In 32 bits the running sum of round n is n times the constant. */
  lemma {:induction false} SumIs(n: nat) returns (q: nat)
    ensures n * 0x9E3779B9 == Tea.Sum(n) + q * 0x1_0000_0000
  {
    q := 0;
    if n > 0 {
      q := SumIs(n - 1);
      if Tea.Sum(n - 1) + 0x9E3779B9 >= M32 { q := q + 1; }
    }
  }

  // ------------------------------------------------------------------ a known block

  /** The number with the given digits, the lowest first. */
  function Digits8(d0: nat, d1: nat, d2: nat, d3: nat, d4: nat, d5: nat, d6: nat, d7: nat): nat
  {
    d0 + 16 * (d1 + 16 * (d2 + 16 * (d3 + 16 * (d4 + 16 * (d5 + 16 * (d6 + 16 * d7))))))
  }

  /** The number in a register, spelt out. */
  function Spell(x: bv32): nat
  {
    Digits8((x & 0xF) as bv4 as int, ((x >> 4) & 0xF) as bv4 as int, ((x >> 8) & 0xF) as bv4 as int,
            ((x >> 12) & 0xF) as bv4 as int, ((x >> 16) & 0xF) as bv4 as int, ((x >> 20) & 0xF) as bv4 as int,
            ((x >> 24) & 0xF) as bv4 as int, ((x >> 28) & 0xF) as bv4 as int)
  }

  lemma NibblesAre(x: bv32)
    ensures Nibble(x, 0) == (x & 0xF) as bv4 && Nibble(x, 1) == ((x >> 4) & 0xF) as bv4
    ensures Nibble(x, 2) == ((x >> 8) & 0xF) as bv4 && Nibble(x, 3) == ((x >> 12) & 0xF) as bv4
    ensures Nibble(x, 4) == ((x >> 16) & 0xF) as bv4 && Nibble(x, 5) == ((x >> 20) & 0xF) as bv4
    ensures Nibble(x, 6) == ((x >> 24) & 0xF) as bv4 && Nibble(x, 7) == ((x >> 28) & 0xF) as bv4
  {
  }

  lemma ValuesAre(x: bv32)
    ensures Num(x) == Digits8(Nibble(x, 0) as int, Nibble(x, 1) as int, Nibble(x, 2) as int, Nibble(x, 3) as int,
                              Nibble(x, 4) as int, Nibble(x, 5) as int, Nibble(x, 6) as int, Nibble(x, 7) as int)
  {
  }

  lemma Spelt(x: bv32)
    ensures Num(x) == Spell(x)
  {
    NibblesAre(x);
    ValuesAre(x);
  }

  predicate Opened(b: bool) { true }

  /** `num`, closed, finds n in a register. */
  ghost predicate Shows(num: bv32 -> nat, x: bv32, n: nat)
  {
    forall b {:trigger Opened(b)} :: Opened(b) ==> num(x) == n
  }

  lemma Reads(x: bv32, n: nat)
    requires Shows(Spell, x, n)
    ensures Shows(Num, x, n)
  {
    assert Opened(true);
    Spelt(x);
  }

  lemma XorTwo(x: bv32, y: bv32, p: nat, q: nat)
    requires Shows(Num, x, p) && Shows(Num, y, q)
    ensures Shows(Num, x ^ y, XorNat(p, q))
  {
    assert Opened(true);
    XorNum(x, y);
  }

  lemma Same(num: bv32 -> nat, x: bv32, m: nat, n: nat)
    requires Shows(num, x, m) && Shows(num, x, n)
    ensures m == n
  {
    assert Opened(true);
  }

  lemma XorThree(x: bv32, y: bv32, z: bv32, s: bv32, t: bv32, p: nat, q: nat, r: nat, n: nat)
    requires Shows(Spell, x, p) && Shows(Spell, y, q) && Shows(Spell, z, r) && Shows(Spell, t, n)
    requires s == x ^ y && t == s ^ z
    ensures XorNat(XorNat(p, q), r) == n
  {
    Reads(x, p);
    Reads(y, q);
    Reads(z, r);
    Reads(t, n);
    XorTwo(x, y, p, q);
    XorTwo(s, z, XorNat(p, q), r);
    Same(Num, t, XorNat(XorNat(p, q), r), n);
  }

  predicate Tried(b: bool) { true }

  /** `mix`, closed, is the mixer of the cipher. */
  ghost predicate IsTea(mix: Mixer)
  {
    forall b {:trigger Tried(b)} :: Tried(b) ==> mix == Tea.Mix
  }

  /** A half-round on known words: x, y and z are the three words that it mixes. */
  lemma Half(mix: Mixer, v: Word, sum: Word, a: Word, b: Word, u: Word, w: Word,
             x: bv32, y: bv32, z: bv32, s: bv32, t: bv32)
    requires IsTea(mix)
    requires Shows(Spell, x, (v * 16 % M32 + a) % M32) && Shows(Spell, y, (v + sum) % M32)
    requires Shows(Spell, z, (v / 32 + b) % M32) && Shows(Spell, t, Minus(w, u))
    requires s == x ^ y && t == s ^ z
    ensures Plus(u, mix(v, sum, a, b)) == w
  {
    var p, q, r := (v * 16 % M32 + a) % M32, (v + sum) % M32, (v / 32 + b) % M32;
    assert Tried(true);
    XorThree(x, y, z, s, t, p, q, r, Minus(w, u));
    MixIs(v, v * 16 % M32, v / 32, sum, a, b, p, q, r);
  }

  const ZERO: Key := [0, 0, 0, 0]

  /** The zero block under the zero key is (v0, v1) after n rounds, and the running sum is `sum`. */
  ghost predicate After(mix: Mixer, n: nat, sum: Word, v0: Word, v1: Word)
  {
    Tea.Sum(n) == sum && Enc(mix, Tea.Sums(n), Pair(0, 0), ZERO) == Pair(v0, v1)
  }

  /** One round of the zero key on known words. */
  ghost predicate Turns(mix: Mixer, sum: Word, v0: Word, v1: Word, w0: Word, w1: Word)
  {
    Plus(v0, mix(v1, sum, 0, 0)) == w0 && Plus(v1, mix(w0, sum, 0, 0)) == w1
  }

  lemma NoRound(mix: Mixer) returns (n: nat)
    ensures n == 0 && After(mix, n, 0, 0, 0)
  {
    n := 0;
  }

  lemma OneMore(mix: Mixer, n: nat, sum: Word, v0: Word, v1: Word, w0: Word, w1: Word) returns (n': nat)
    requires After(mix, n, Minus(sum, Tea.DELTA), v0, v1) && Turns(mix, sum, v0, v1, w0, w1)
    ensures n' == n + 1 && After(mix, n', sum, w0, w1)
  {
    n' := n + 1;
    Tea.SumsLast(n);
    EncLast(mix, Tea.Sums(n), Tea.Sum(n + 1), Pair(0, 0), ZERO);
  }

  /** A half-round of the zero key on known words: x, y and z are the three words that it mixes. */
  lemma ZeroHalf(mix: Mixer, v: Word, sum: Word, u: Word, w: Word, x: bv32, y: bv32, z: bv32)
    requires IsTea(mix)
    requires Shows(Spell, x, (v * 16 % M32 + 0) % M32) && Shows(Spell, y, (v + sum) % M32)
    requires Shows(Spell, z, (v / 32 + 0) % M32) && Shows(Spell, x ^ y ^ z, Minus(w, u))
    ensures Plus(u, mix(v, sum, 0, 0)) == w
  {
    Half(mix, v, sum, 0, 0, u, w, x, y, z, x ^ y, x ^ y ^ z);
  }

  lemma Round01(mix: Mixer)
    requires IsTea(mix)
    ensures Turns(mix, 0x9E3779B9, 0x00000000, 0x00000000, 0x9E3779B9, 0xDBE8D32F)
  {
    ZeroHalf(mix, 0x00000000, 0x9E3779B9, 0x00000000, 0x9E3779B9, 0x00000000, 0x9E3779B9, 0x00000000);
    ZeroHalf(mix, 0x9E3779B9, 0x9E3779B9, 0x00000000, 0xDBE8D32F, 0xE3779B90, 0x3C6EF372, 0x04F1BBCD);
  }

  lemma Round02(mix: Mixer)
    requires IsTea(mix)
    ensures Turns(mix, 0x3C6EF372, 0x9E3779B9, 0xDBE8D32F, 0x3E3D2C81, 0x747811B6)
  {
    ZeroHalf(mix, 0xDBE8D32F, 0x3C6EF372, 0x9E3779B9, 0x3E3D2C81, 0xBE8D32F0, 0x1857C6A1, 0x06DF4699);
    ZeroHalf(mix, 0x3E3D2C81, 0x3C6EF372, 0xDBE8D32F, 0x747811B6, 0xE3D2C810, 0x7AAC1FF3, 0x01F1E964);
  }

  lemma Round03(mix: Mixer)
    requires IsTea(mix)
    ensures Turns(mix, 0xDAA66D2B, 0x3E3D2C81, 0x747811B6, 0x4979D18D, 0x266EFA9A)
  {
    ZeroHalf(mix, 0x747811B6, 0xDAA66D2B, 0x3E3D2C81, 0x4979D18D, 0x47811B60, 0x4F1E7EE1, 0x03A3C08D);
    ZeroHalf(mix, 0x4979D18D, 0xDAA66D2B, 0x747811B6, 0x266EFA9A, 0x979D18D0, 0x24203EB8, 0x024BCE8C);
  }

  lemma Round04(mix: Mixer)
    requires IsTea(mix)
    ensures Turns(mix, 0x78DDE6E4, 0x4979D18D, 0x266EFA9A, 0x420A1097, 0xBEC5A929)
  {
    ZeroHalf(mix, 0x266EFA9A, 0x78DDE6E4, 0x4979D18D, 0x420A1097, 0x66EFA9A0, 0x9F4CE17E, 0x013377D4);
    ZeroHalf(mix, 0x420A1097, 0x78DDE6E4, 0x266EFA9A, 0xBEC5A929, 0x20A10970, 0xBAE7F77B, 0x02105084);
  }

  lemma Round05(mix: Mixer)
    requires IsTea(mix)
    ensures Turns(mix, 0x1715609D, 0x420A1097, 0xBEC5A929, 0x7E81C6B6, 0x3D44EB2F)
  {
    ZeroHalf(mix, 0xBEC5A929, 0x1715609D, 0x420A1097, 0x7E81C6B6, 0xEC5A9290, 0xD5DB09C6, 0x05F62D49);
    ZeroHalf(mix, 0x7E81C6B6, 0x1715609D, 0xBEC5A929, 0x3D44EB2F, 0xE81C6B60, 0x95972753, 0x03F40E35);
  }

  lemma Round06(mix: Mixer)
    requires IsTea(mix)
    ensures Turns(mix, 0xB54CDA56, 0x7E81C6B6, 0x3D44EB2F, 0xA5B716E2, 0x42A412DE)
  {
    ZeroHalf(mix, 0x3D44EB2F, 0xB54CDA56, 0x7E81C6B6, 0xA5B716E2, 0xD44EB2F0, 0xF291C585, 0x01EA2759);
    ZeroHalf(mix, 0xA5B716E2, 0xB54CDA56, 0x3D44EB2F, 0x42A412DE, 0x5B716E20, 0x5B03F138, 0x052DB8B7);
  }

  lemma Round07(mix: Mixer)
    requires IsTea(mix)
    ensures Turns(mix, 0x5384540F, 0xA5B716E2, 0x42A412DE, 0x6433827D, 0x3A52802D)
  {
    ZeroHalf(mix, 0x42A412DE, 0x5384540F, 0xA5B716E2, 0x6433827D, 0x2A412DE0, 0x962866ED, 0x02152096);
    ZeroHalf(mix, 0x6433827D, 0x5384540F, 0x42A412DE, 0x3A52802D, 0x433827D0, 0xB7B7D68C, 0x03219C13);
  }

  lemma Round08(mix: Mixer)
    requires IsTea(mix)
    ensures Turns(mix, 0xF1BBCDC8, 0x6433827D, 0x3A52802D, 0xED285DA1, 0x455B33C1)
  {
    ZeroHalf(mix, 0x3A52802D, 0xF1BBCDC8, 0x6433827D, 0xED285DA1, 0xA52802D0, 0x2C0E4DF5, 0x01D29401);
    ZeroHalf(mix, 0xED285DA1, 0xF1BBCDC8, 0x3A52802D, 0x455B33C1, 0xD285DA10, 0xDEE42B69, 0x076942ED);
  }

  lemma Round09(mix: Mixer)
    requires IsTea(mix)
    ensures Turns(mix, 0x8FF34781, 0xED285DA1, 0x455B33C1, 0x6FFFFC6D, 0x48CEAE9E)
  {
    ZeroHalf(mix, 0x455B33C1, 0x8FF34781, 0xED285DA1, 0x6FFFFC6D, 0x55B33C10, 0xD54E7B42, 0x022AD99E);
    ZeroHalf(mix, 0x6FFFFC6D, 0x8FF34781, 0x455B33C1, 0x48CEAE9E, 0xFFFFC6D0, 0xFFF343EE, 0x037FFFE3);
  }

  lemma Round10(mix: Mixer)
    requires IsTea(mix)
    ensures Turns(mix, 0x2E2AC13A, 0x6FFFFC6D, 0x48CEAE9E, 0x6855EFB9, 0x596B92BC)
  {
    ZeroHalf(mix, 0x48CEAE9E, 0x2E2AC13A, 0x6FFFFC6D, 0x6855EFB9, 0x8CEAE9E0, 0x76F96FD8, 0x02467574);
    ZeroHalf(mix, 0x6855EFB9, 0x2E2AC13A, 0x48CEAE9E, 0x596B92BC, 0x855EFB90, 0x9680B0F3, 0x0342AF7D);
  }

  lemma Round11(mix: Mixer)
    requires IsTea(mix)
    ensures Turns(mix, 0xCC623AF3, 0x6855EFB9, 0x596B92BC, 0x1A15AAB3, 0xA169767F)
  {
    ZeroHalf(mix, 0x596B92BC, 0xCC623AF3, 0x6855EFB9, 0x1A15AAB3, 0x96B92BC0, 0x25CDCDAF, 0x02CB5C95);
    ZeroHalf(mix, 0x1A15AAB3, 0xCC623AF3, 0x596B92BC, 0xA169767F, 0xA15AAB30, 0xE677E5A6, 0x00D0AD55);
  }

  lemma Round12(mix: Mixer)
    requires IsTea(mix)
    ensures Turns(mix, 0x6A99B4AC, 0x1A15AAB3, 0xA169767F, 0x39B4B21B, 0xE0325966)
  {
    ZeroHalf(mix, 0xA169767F, 0x6A99B4AC, 0x1A15AAB3, 0x39B4B21B, 0x169767F0, 0x0C032B2B, 0x050B4BB3);
    ZeroHalf(mix, 0x39B4B21B, 0x6A99B4AC, 0xA169767F, 0xE0325966, 0x9B4B21B0, 0xA44E66C7, 0x01CDA590);
  }

  lemma Round13(mix: Mixer)
    requires IsTea(mix)
    ensures Turns(mix, 0x08D12E65, 0x39B4B21B, 0xE0325966, 0x26DC357B, 0x238B2F61)
  {
    ZeroHalf(mix, 0xE0325966, 0x08D12E65, 0x39B4B21B, 0x26DC357B, 0x03259660, 0xE90387CB, 0x070192CB);
    ZeroHalf(mix, 0x26DC357B, 0x08D12E65, 0xE0325966, 0x238B2F61, 0x6DC357B0, 0x2FAD63E0, 0x0136E1AB);
  }

  lemma Round14(mix: Mixer)
    requires IsTea(mix)
    ensures Turns(mix, 0xA708A81E, 0x26DC357B, 0x238B2F61, 0x1A19AD8F, 0x83F36F92)
  {
    ZeroHalf(mix, 0x238B2F61, 0xA708A81E, 0x26DC357B, 0x1A19AD8F, 0x38B2F610, 0xCA93D77F, 0x011C597B);
    ZeroHalf(mix, 0x1A19AD8F, 0xA708A81E, 0x238B2F61, 0x83F36F92, 0xA19AD8F0, 0xC12255AD, 0x00D0CD6C);
  }

  lemma Round15(mix: Mixer)
    requires IsTea(mix)
    ensures Turns(mix, 0x454021D7, 0x1A19AD8F, 0x83F36F92, 0x0C34A0C4, 0x1652DB6F)
  {
    ZeroHalf(mix, 0x83F36F92, 0x454021D7, 0x1A19AD8F, 0x0C34A0C4, 0x3F36F920, 0xC9339169, 0x041F9B7C);
    ZeroHalf(mix, 0x0C34A0C4, 0x454021D7, 0x83F36F92, 0x1652DB6F, 0xC34A0C40, 0x5174C29B, 0x0061A506);
  }

  lemma Round16(mix: Mixer)
    requires IsTea(mix)
    ensures Turns(mix, 0xE3779B90, 0x0C34A0C4, 0x1652DB6F, 0xA889F798, 0x182D8083)
  {
    ZeroHalf(mix, 0x1652DB6F, 0xE3779B90, 0x0C34A0C4, 0xA889F798, 0x652DB6F0, 0xF9CA76FF, 0x00B296DB);
    ZeroHalf(mix, 0xA889F798, 0xE3779B90, 0x1652DB6F, 0x182D8083, 0x889F7980, 0x8C019328, 0x05444FBC);
  }

  lemma Round17(mix: Mixer)
    requires IsTea(mix)
    ensures Turns(mix, 0x81AF1549, 0xA889F798, 0x182D8083, 0xC44FE990, 0x1F4F9918)
  {
    ZeroHalf(mix, 0x182D8083, 0x81AF1549, 0xA889F798, 0xC44FE990, 0x82D80830, 0x99DC95CC, 0x00C16C04);
    ZeroHalf(mix, 0xC44FE990, 0x81AF1549, 0x182D8083, 0x1F4F9918, 0x44FE9900, 0x45FEFED9, 0x06227F4C);
  }

  lemma Round18(mix: Mixer)
    requires IsTea(mix)
    ensures Turns(mix, 0x1FE68F02, 0xC44FE990, 0x1F4F9918, 0x8F85AEE2, 0x729A97CB)
  {
    ZeroHalf(mix, 0x1F4F9918, 0x1FE68F02, 0xC44FE990, 0x8F85AEE2, 0xF4F99180, 0x3F36281A, 0x00FA7CC8);
    ZeroHalf(mix, 0x8F85AEE2, 0x1FE68F02, 0x1F4F9918, 0x729A97CB, 0xF85AEE20, 0xAF6C3DE4, 0x047C2D77);
  }

  lemma Round19(mix: Mixer)
    requires IsTea(mix)
    ensures Turns(mix, 0xBE1E08BB, 0x8F85AEE2, 0x729A97CB, 0xAA0AB76A, 0x406E7B09)
  {
    ZeroHalf(mix, 0x729A97CB, 0xBE1E08BB, 0x8F85AEE2, 0xAA0AB76A, 0x29A97CB0, 0x30B8A086, 0x0394D4BE);
    ZeroHalf(mix, 0xAA0AB76A, 0xBE1E08BB, 0x729A97CB, 0x406E7B09, 0xA0AB76A0, 0x6828C025, 0x055055BB);
  }

  lemma Round20(mix: Mixer)
    requires IsTea(mix)
    ensures Turns(mix, 0x5C558274, 0xAA0AB76A, 0x406E7B09, 0x4231F59F, 0xFFF82958)
  {
    ZeroHalf(mix, 0x406E7B09, 0x5C558274, 0xAA0AB76A, 0x4231F59F, 0x06E7B090, 0x9CC3FD7D, 0x020373D8);
    ZeroHalf(mix, 0x4231F59F, 0x5C558274, 0x406E7B09, 0xFFF82958, 0x231F59F0, 0x9E877813, 0x02118FAC);
  }

  lemma Round21(mix: Mixer)
    requires IsTea(mix)
    ensures Turns(mix, 0xFA8CFC2D, 0x4231F59F, 0xFFF82958, 0x452A66EE, 0x6F308824)
  {
    ZeroHalf(mix, 0xFFF82958, 0xFA8CFC2D, 0x4231F59F, 0x452A66EE, 0xFF829580, 0xFA852585, 0x07FFC14A);
    ZeroHalf(mix, 0x452A66EE, 0xFA8CFC2D, 0xFFF82958, 0x6F308824, 0x52A66EE0, 0x3FB7631B, 0x02295337);
  }

  lemma Round22(mix: Mixer)
    requires IsTea(mix)
    ensures Turns(mix, 0x98C475E6, 0x452A66EE, 0x6F308824, 0x3CB05EF9, 0x8EC541DC)
  {
    ZeroHalf(mix, 0x6F308824, 0x98C475E6, 0x452A66EE, 0x3CB05EF9, 0xF3088240, 0x07F4FE0A, 0x03798441);
    ZeroHalf(mix, 0x3CB05EF9, 0x98C475E6, 0x6F308824, 0x8EC541DC, 0xCB05EF90, 0xD574D4DF, 0x01E582F7);
  }

  lemma Round23(mix: Mixer)
    requires IsTea(mix)
    ensures Turns(mix, 0x36FBEF9F, 0x3CB05EF9, 0x8EC541DC, 0x6A9365AE, 0x9AB2D65C)
  {
    ZeroHalf(mix, 0x8EC541DC, 0x36FBEF9F, 0x3CB05EF9, 0x6A9365AE, 0xEC541DC0, 0xC5C1317B, 0x04762A0E);
    ZeroHalf(mix, 0x6A9365AE, 0x36FBEF9F, 0x8EC541DC, 0x9AB2D65C, 0xA9365AE0, 0xA18F554D, 0x03549B2D);
  }

  lemma Round24(mix: Mixer)
    requires IsTea(mix)
    ensures Turns(mix, 0xD5336958, 0x6A9365AE, 0x9AB2D65C, 0x2AB23274, 0xF046037B)
  {
    ZeroHalf(mix, 0x9AB2D65C, 0xD5336958, 0x6A9365AE, 0x2AB23274, 0xAB2D65C0, 0x6FE63FB4, 0x04D596B2);
    ZeroHalf(mix, 0x2AB23274, 0xD5336958, 0x9AB2D65C, 0xF046037B, 0xAB232740, 0xFFE59BCC, 0x01559193);
  }

  lemma Round25(mix: Mixer)
    requires IsTea(mix)
    ensures Turns(mix, 0x736AE311, 0x2AB23274, 0xF046037B, 0x8B05139B, 0x3AACEAFB)
  {
    ZeroHalf(mix, 0xF046037B, 0x736AE311, 0x2AB23274, 0x8B05139B, 0x046037B0, 0x63B0E68C, 0x0782301B);
    ZeroHalf(mix, 0x8B05139B, 0x736AE311, 0xF046037B, 0x3AACEAFB, 0xB05139B0, 0xFE6FF6AC, 0x0458289C);
  }

  lemma Round26(mix: Mixer)
    requires IsTea(mix)
    ensures Turns(mix, 0x11A25CCA, 0x8B05139B, 0x3AACEAFB, 0x7259A2BD, 0xE0A0043D)
  {
    ZeroHalf(mix, 0x3AACEAFB, 0x11A25CCA, 0x8B05139B, 0x7259A2BD, 0xAACEAFB0, 0x4C4F47C5, 0x01D56757);
    ZeroHalf(mix, 0x7259A2BD, 0x11A25CCA, 0x3AACEAFB, 0xE0A0043D, 0x259A2BD0, 0x83FBFF87, 0x0392CD15);
  }

  lemma Round27(mix: Mixer)
    requires IsTea(mix)
    ensures Turns(mix, 0xAFD9D683, 0x7259A2BD, 0xE0A0043D, 0x0FD63BEE, 0x234D218B)
  {
    ZeroHalf(mix, 0xE0A0043D, 0xAFD9D683, 0x7259A2BD, 0x0FD63BEE, 0x0A0043D0, 0x9079DAC0, 0x07050021);
    ZeroHalf(mix, 0x0FD63BEE, 0xAFD9D683, 0xE0A0043D, 0x234D218B, 0xFD63BEE0, 0xBFB01271, 0x007EB1DF);
  }

  lemma Round28(mix: Mixer)
    requires IsTea(mix)
    ensures Turns(mix, 0x4E11503C, 0x0FD63BEE, 0x234D218B, 0x546C3C69, 0x096A4D61)
  {
    ZeroHalf(mix, 0x234D218B, 0x4E11503C, 0x0FD63BEE, 0x546C3C69, 0x34D218B0, 0x715E71C7, 0x011A690C);
    ZeroHalf(mix, 0x546C3C69, 0x4E11503C, 0x234D218B, 0x096A4D61, 0x46C3C690, 0xA27D8CA5, 0x02A361E3);
  }

  lemma Round29(mix: Mixer)
    requires IsTea(mix)
    ensures Turns(mix, 0xEC48C9F5, 0x546C3C69, 0x096A4D61, 0xB7C8CF96, 0xE68D73F8)
  {
    ZeroHalf(mix, 0x096A4D61, 0xEC48C9F5, 0x546C3C69, 0xB7C8CF96, 0x96A4D610, 0xF5B31756, 0x004B526B);
    ZeroHalf(mix, 0xB7C8CF96, 0xEC48C9F5, 0x096A4D61, 0xE68D73F8, 0x7C8CF960, 0xA411998B, 0x05BE467C);
  }

  lemma Round30(mix: Mixer)
    requires IsTea(mix)
    ensures Turns(mix, 0x8A8043AE, 0xB7C8CF96, 0xE68D73F8, 0xD6B7B34F, 0xF386F38F)
  {
    ZeroHalf(mix, 0xE68D73F8, 0x8A8043AE, 0xB7C8CF96, 0xD6B7B34F, 0x68D73F80, 0x710DB7A6, 0x07346B9F);
    ZeroHalf(mix, 0xD6B7B34F, 0x8A8043AE, 0xE68D73F8, 0xF386F38F, 0x6B7B34F0, 0x6137F6FD, 0x06B5BD9A);
  }

  lemma Round31(mix: Mixer)
    requires IsTea(mix)
    ensures Turns(mix, 0x28B7BD67, 0xD6B7B34F, 0xF386F38F, 0xFA8572E9, 0x804528E6)
  {
    ZeroHalf(mix, 0xF386F38F, 0x28B7BD67, 0xD6B7B34F, 0xFA8572E9, 0x386F38F0, 0x1C3EB0F6, 0x079C379C);
    ZeroHalf(mix, 0xFA8572E9, 0x28B7BD67, 0xF386F38F, 0x804528E6, 0xA8572E90, 0x233D3050, 0x07D42B97);
  }

  lemma Round32(mix: Mixer)
    requires IsTea(mix)
    ensures Turns(mix, 0xC6EF3720, 0xFA8572E9, 0x804528E6, 0x41EA3A0A, 0x94BAA940)
  {
    ZeroHalf(mix, 0x804528E6, 0xC6EF3720, 0xFA8572E9, 0x41EA3A0A, 0x04528E60, 0x47346006, 0x04022947);
    ZeroHalf(mix, 0x41EA3A0A, 0xC6EF3720, 0x804528E6, 0x94BAA940, 0x1EA3A0A0, 0x08D9712A, 0x020F51D0);
  }

  /** Encryption takes eight zero bytes under the zero key to the words 0x41EA3A0A and 0x94BAA940. */
  lemma ZeroBlock(mix: Mixer) returns (n: nat)
    requires IsTea(mix)
    ensures n == 32 && After(mix, n, 0xC6EF3720, 0x41EA3A0A, 0x94BAA940)
  {
    n := NoRound(mix);
    Round01(mix);
    n := OneMore(mix, n, 0x9E3779B9, 0x00000000, 0x00000000, 0x9E3779B9, 0xDBE8D32F);
    Round02(mix);
    n := OneMore(mix, n, 0x3C6EF372, 0x9E3779B9, 0xDBE8D32F, 0x3E3D2C81, 0x747811B6);
    Round03(mix);
    n := OneMore(mix, n, 0xDAA66D2B, 0x3E3D2C81, 0x747811B6, 0x4979D18D, 0x266EFA9A);
    Round04(mix);
    n := OneMore(mix, n, 0x78DDE6E4, 0x4979D18D, 0x266EFA9A, 0x420A1097, 0xBEC5A929);
    Round05(mix);
    n := OneMore(mix, n, 0x1715609D, 0x420A1097, 0xBEC5A929, 0x7E81C6B6, 0x3D44EB2F);
    Round06(mix);
    n := OneMore(mix, n, 0xB54CDA56, 0x7E81C6B6, 0x3D44EB2F, 0xA5B716E2, 0x42A412DE);
    Round07(mix);
    n := OneMore(mix, n, 0x5384540F, 0xA5B716E2, 0x42A412DE, 0x6433827D, 0x3A52802D);
    Round08(mix);
    n := OneMore(mix, n, 0xF1BBCDC8, 0x6433827D, 0x3A52802D, 0xED285DA1, 0x455B33C1);
    Round09(mix);
    n := OneMore(mix, n, 0x8FF34781, 0xED285DA1, 0x455B33C1, 0x6FFFFC6D, 0x48CEAE9E);
    Round10(mix);
    n := OneMore(mix, n, 0x2E2AC13A, 0x6FFFFC6D, 0x48CEAE9E, 0x6855EFB9, 0x596B92BC);
    Round11(mix);
    n := OneMore(mix, n, 0xCC623AF3, 0x6855EFB9, 0x596B92BC, 0x1A15AAB3, 0xA169767F);
    Round12(mix);
    n := OneMore(mix, n, 0x6A99B4AC, 0x1A15AAB3, 0xA169767F, 0x39B4B21B, 0xE0325966);
    Round13(mix);
    n := OneMore(mix, n, 0x08D12E65, 0x39B4B21B, 0xE0325966, 0x26DC357B, 0x238B2F61);
    Round14(mix);
    n := OneMore(mix, n, 0xA708A81E, 0x26DC357B, 0x238B2F61, 0x1A19AD8F, 0x83F36F92);
    Round15(mix);
    n := OneMore(mix, n, 0x454021D7, 0x1A19AD8F, 0x83F36F92, 0x0C34A0C4, 0x1652DB6F);
    Round16(mix);
    n := OneMore(mix, n, 0xE3779B90, 0x0C34A0C4, 0x1652DB6F, 0xA889F798, 0x182D8083);
    Round17(mix);
    n := OneMore(mix, n, 0x81AF1549, 0xA889F798, 0x182D8083, 0xC44FE990, 0x1F4F9918);
    Round18(mix);
    n := OneMore(mix, n, 0x1FE68F02, 0xC44FE990, 0x1F4F9918, 0x8F85AEE2, 0x729A97CB);
    Round19(mix);
    n := OneMore(mix, n, 0xBE1E08BB, 0x8F85AEE2, 0x729A97CB, 0xAA0AB76A, 0x406E7B09);
    Round20(mix);
    n := OneMore(mix, n, 0x5C558274, 0xAA0AB76A, 0x406E7B09, 0x4231F59F, 0xFFF82958);
    Round21(mix);
    n := OneMore(mix, n, 0xFA8CFC2D, 0x4231F59F, 0xFFF82958, 0x452A66EE, 0x6F308824);
    Round22(mix);
    n := OneMore(mix, n, 0x98C475E6, 0x452A66EE, 0x6F308824, 0x3CB05EF9, 0x8EC541DC);
    Round23(mix);
    n := OneMore(mix, n, 0x36FBEF9F, 0x3CB05EF9, 0x8EC541DC, 0x6A9365AE, 0x9AB2D65C);
    Round24(mix);
    n := OneMore(mix, n, 0xD5336958, 0x6A9365AE, 0x9AB2D65C, 0x2AB23274, 0xF046037B);
    Round25(mix);
    n := OneMore(mix, n, 0x736AE311, 0x2AB23274, 0xF046037B, 0x8B05139B, 0x3AACEAFB);
    Round26(mix);
    n := OneMore(mix, n, 0x11A25CCA, 0x8B05139B, 0x3AACEAFB, 0x7259A2BD, 0xE0A0043D);
    Round27(mix);
    n := OneMore(mix, n, 0xAFD9D683, 0x7259A2BD, 0xE0A0043D, 0x0FD63BEE, 0x234D218B);
    Round28(mix);
    n := OneMore(mix, n, 0x4E11503C, 0x0FD63BEE, 0x234D218B, 0x546C3C69, 0x096A4D61);
    Round29(mix);
    n := OneMore(mix, n, 0xEC48C9F5, 0x546C3C69, 0x096A4D61, 0xB7C8CF96, 0xE68D73F8);
    Round30(mix);
    n := OneMore(mix, n, 0x8A8043AE, 0xB7C8CF96, 0xE68D73F8, 0xD6B7B34F, 0xF386F38F);
    Round31(mix);
    n := OneMore(mix, n, 0x28B7BD67, 0xD6B7B34F, 0xF386F38F, 0xFA8572E9, 0x804528E6);
    Round32(mix);
    n := OneMore(mix, n, 0xC6EF3720, 0xFA8572E9, 0x804528E6, 0x41EA3A0A, 0x94BAA940);
  }

  const ZEROS: Block := [0, 0, 0, 0, 0, 0, 0, 0]
  const CODED: Block := [0x0A, 0x3A, 0xEA, 0x41, 0x40, 0xA9, 0xBA, 0x94]

  /** So in memory, and back. */
  lemma KnownBlock()
    ensures Tea.Encoded(ZERO)(ZEROS) == CODED && Tea.Decoded(ZERO)(CODED) == ZEROS
  {
    KnownPair(Tea.Mix);
    Tea.BlockInverse(ZEROS, ZERO);
  }

  lemma KnownPair(mix: Mixer)
    requires IsTea(mix)
    ensures PairBytes(Enc(mix, Tea.Sums(Tea.ROUNDS), PairAt(ZEROS, 0), ZERO)) == CODED
  {
    var n := ZeroBlock(mix);
    KnownBytes();
    assert n == Tea.ROUNDS;
  }

  lemma KnownBytes()
    ensures PairAt(ZEROS, 0) == Pair(0, 0) && PairBytes(Pair(0x41EA3A0A, 0x94BAA940)) == CODED
  {
  }
}
