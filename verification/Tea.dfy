/**
 What makes the cipher of src/tea.c invertible, whatever it mixes: each half-round adds to one
 word something that depends on the other word only.
 */
module Feistel {
  import opened Words

  datatype Pair = Pair(v0: Word, v1: Word)

  type Key = k: seq<Word> | |k| == 4 witness [0, 0, 0, 0]

  /** What a half-round adds: a function of the other word, the running sum and two key words. */
  type Mixer = (Word, Word, Word, Word) -> Word

  function Round(mix: Mixer, p: Pair, sum: Word, k: Key): Pair
  {
    var v0 := Plus(p.v0, mix(p.v1, sum, k[0], k[1]));
    Pair(v0, Plus(p.v1, mix(v0, sum, k[2], k[3])))
  }

  function Unround(mix: Mixer, p: Pair, sum: Word, k: Key): Pair
  {
    var v1 := Minus(p.v1, mix(p.v0, sum, k[2], k[3]));
    Pair(Minus(p.v0, mix(v1, sum, k[0], k[1])), v1)
  }

  /** One round for each running sum. */
  function Enc(mix: Mixer, sums: seq<Word>, p: Pair, k: Key): Pair
  {
    if sums == [] then p else Enc(mix, sums[1..], Round(mix, p, sums[0], k), k)
  }

  function Dec(mix: Mixer, sums: seq<Word>, p: Pair, k: Key): Pair
  {
    if sums == [] then p else Unround(mix, Dec(mix, sums[1..], p, k), sums[0], k)
  }

  lemma {:induction false} DecEnc(mix: Mixer, sums: seq<Word>, p: Pair, k: Key)
    ensures Dec(mix, sums, Enc(mix, sums, p, k), k) == p
  {
    if sums != [] {
      DecEnc(mix, sums[1..], Round(mix, p, sums[0], k), k);
    }
  }

  lemma {:induction false} EncDec(mix: Mixer, sums: seq<Word>, p: Pair, k: Key)
    ensures Enc(mix, sums, Dec(mix, sums, p, k), k) == p
  {
    if sums != [] {
      EncDec(mix, sums[1..], p, k);
    }
  }

  /** The loop of encryption, seen from its last round. */
  lemma {:induction false} EncLast(mix: Mixer, sums: seq<Word>, sum: Word, p: Pair, k: Key)
    ensures Enc(mix, sums + [sum], p, k) == Round(mix, Enc(mix, sums, p, k), sum, k)
  {
    if sums == [] {
      assert (sums + [sum])[1..] == [];
    } else {
      assert (sums + [sum])[1..] == sums[1..] + [sum];
      EncLast(mix, sums[1..], sum, Round(mix, p, sums[0], k), k);
    }
  }

  /** The loop of decryption, from the last round down. */
  lemma {:induction false} DecLast(mix: Mixer, sums: seq<Word>, sum: Word, p: Pair, k: Key)
    ensures Dec(mix, sums + [sum], p, k) == Dec(mix, sums, Unround(mix, p, sum, k), k)
  {
    if sums == [] {
      assert (sums + [sum])[1..] == [];
    } else {
      assert (sums + [sum])[1..] == sums[1..] + [sum];
      DecLast(mix, sums[1..], sum, p, k);
    }
  }
}

/**
 Coding a byte buffer eight bytes at a time, for any coding of blocks.
 */
module Blocks {
  import opened Words
  import opened Feistel

  type Block = s: seq<Byte> | |s| == 8 witness [0, 0, 0, 0, 0, 0, 0, 0]

  function PairAt(s: seq<Byte>, at: nat): Pair
    requires at + 8 <= |s|
  {
    Pair(Load(s, at), Load(s, at + 4))
  }

  function PairBytes(p: Pair): Block
  {
    Bytes(p.v0) + Bytes(p.v1)
  }

  lemma PairRoundTrip(p: Pair)
    ensures PairAt(PairBytes(p), 0) == p
  {
    LoadBytes(p.v0);
    LoadBytes(p.v1);
  }

  lemma BytesRoundTrip(b: Block)
    ensures PairBytes(PairAt(b, 0)) == b
  {
    BytesLoad(b[0], b[1], b[2], b[3]);
    BytesLoad(b[4], b[5], b[6], b[7]);
  }

  /** A buffer whose length is a multiple of 8, block by block. */
  function CodeAll(code: Block -> Block, s: seq<Byte>): (r: seq<Byte>)
    requires |s| % 8 == 0
    ensures |r| == |s|
  {
    if s == [] then [] else code(s[..8]) + CodeAll(code, s[8..])
  }

  lemma CodeOne(code: Block -> Block, b: Block)
    ensures CodeAll(code, b) == code(b)
  {
    assert b[..8] == b && b[8..] == [];
  }

  /** Cutting a buffer at a multiple of 8 does not change the result. */
  lemma {:induction false} CodeConcat(code: Block -> Block, a: seq<Byte>, b: seq<Byte>)
    requires |a| % 8 == 0 && |b| % 8 == 0
    ensures CodeAll(code, a + b) == CodeAll(code, a) + CodeAll(code, b)
  {
    if a == [] {
      assert a + b == b;
    } else {
      CutBlock(a, b);
      CodeConcat(code, a[8..], b);
      assert CodeAll(code, a + b) == code((a + b)[..8]) + CodeAll(code, (a + b)[8..]);
    }
  }

  lemma CutBlock(a: seq<Byte>, b: seq<Byte>)
    requires 8 <= |a|
    ensures (a + b)[8..] == a[8..] + b && (a + b)[..8] == a[..8]
  {
  }

  /** If `decode` undoes `code` on blocks, it does so on buffers. */
  lemma {:induction false} CodeUndo(code: Block -> Block, decode: Block -> Block, s: seq<Byte>)
    requires |s| % 8 == 0
    requires forall b: Block :: decode(code(b)) == b
    ensures CodeAll(decode, CodeAll(code, s)) == s
  {
    if s != [] {
      CodeConcat(decode, code(s[..8]), CodeAll(code, s[8..]));
      CodeOne(decode, code(s[..8]));
      CodeUndo(code, decode, s[8..]);
      assert s == s[..8] + s[8..];
    }
  }

  /** A buffer coded up to `at`, after one more block was coded in place. */
  lemma HalfStep(code: Block -> Block, s: seq<Byte>, at: nat, b: seq<Byte>, b': seq<Byte>)
    requires at % 8 == 0 && at + 8 <= |s|
    requires b == CodeAll(code, s[..at]) + s[at..]
    requires b' == b[..at] + code(b[at..at + 8]) + b[at + 8..]
    ensures b' == CodeAll(code, s[..at + 8]) + s[at + 8..]
  {
    var c, m := CodeAll(code, s[..at]), s[at..at + 8];
    assert |c| == at && s[..at + 8] == s[..at] + m;
    assert b[..at] == c && b[at..at + 8] == m && b[at + 8..] == s[at + 8..];
    CodeConcat(code, s[..at], m);
    CodeOne(code, m);
  }

  method StorePair(b: array<Byte>, at: nat, p: Pair)
    requires at + 8 <= b.Length
    modifies b
    ensures b[..] == old(b[..at]) + PairBytes(p) + old(b[at + 8..])
  {
    ghost var s := b[..];
    StoreWord(b, at, p.v0);
    StoreWord(b, at + 4, p.v1);
    TwoStores(s, at, p);
  }

  lemma TwoStores(s: seq<Byte>, at: nat, p: Pair)
    requires at + 8 <= |s|
    ensures Store(Store(s, at, p.v0), at + 4, p.v1) == s[..at] + PairBytes(p) + s[at + 8..]
  {
    var x, y := Bytes(p.v0), Bytes(p.v1);
    var t := s[..at] + x + s[at + 4..];
    assert t[..at + 4] == s[..at] + x && t[at + 8..] == s[at + 8..];
    assert (s[..at] + x) + y == s[..at] + (x + y);
  }

  method LoadPair(b: array<Byte>, at: nat) returns (p: Pair)
    requires at + 8 <= b.Length
    ensures p == PairAt(b[at..at + 8], 0)
  {
    p := Pair(Join(b[at], b[at + 1], b[at + 2], b[at + 3]),
              Join(b[at + 4], b[at + 5], b[at + 6], b[at + 7]));
  }
}

/**
 The block cipher of src/tea.c: 32 rounds on a pair of words, block by block in place.
 */
module Tea {
  import opened Words
  import opened Feistel
  import opened Blocks

  const DELTA: Word := 0x9e3779b9
  const DECRYPT_SUM: Word := 0xC6EF3720
  const ROUNDS := 32

  function Mix(v: Word, sum: Word, a: Word, b: Word): Word
  {
    Xor(Xor(Plus(v * 16 % M32, a), Plus(v, sum)), Plus(v / 32, b))
  }

  /** The running sum in round n. */
  function Sum(n: nat): Word
  {
    if n == 0 then 0 else Plus(Sum(n - 1), DELTA)
  }

  lemma {:induction false} SumAdd(a: nat, b: nat)
    ensures Sum(a + b) == Plus(Sum(a), Sum(b))
  {
    if b > 0 {
      SumAdd(a, b - 1);
      assert Sum(a + b) == Plus(Sum(a + (b - 1)), DELTA);
    }
  }

  /** Decryption starts with the sum that encryption ended with. */
  lemma SumEnd()
    ensures Sum(ROUNDS) == DECRYPT_SUM
  {
    assert Sum(1) == DELTA;
    SumAdd(1, 1);
    SumAdd(2, 2);
    SumAdd(4, 4);
    SumAdd(8, 8);
    SumAdd(16, 16);
  }

  /** The running sums of the first n rounds. */
  function Sums(n: nat): (s: seq<Word>)
    ensures |s| == n && forall i :: 0 <= i < n ==> s[i] == Sum(i + 1)
  {
    seq(n, (i: nat) => Sum(i + 1))
  }

  // ------------------------------------------------------------------- the coding

  function Encoded(k: Key): Block -> Block
  {
    (b: Block) => PairBytes(Enc(Mix, Sums(ROUNDS), PairAt(b, 0), k))
  }

  function Decoded(k: Key): Block -> Block
  {
    (b: Block) => PairBytes(Dec(Mix, Sums(ROUNDS), PairAt(b, 0), k))
  }

  /** A buffer encrypted or decrypted. */
  function Encrypted(s: seq<Byte>, k: Key): (r: seq<Byte>)
    requires |s| % 8 == 0
    ensures |r| == |s|
  {
    CodeAll(Encoded(k), s)
  }

  function Decrypted(s: seq<Byte>, k: Key): (r: seq<Byte>)
    requires |s| % 8 == 0
    ensures |r| == |s|
  {
    CodeAll(Decoded(k), s)
  }

  lemma BlockInverse(b: Block, k: Key)
    ensures Decoded(k)(Encoded(k)(b)) == b && Encoded(k)(Decoded(k)(b)) == b
  {
    var p := PairAt(b, 0);
    PairRoundTrip(Enc(Mix, Sums(ROUNDS), p, k));
    PairRoundTrip(Dec(Mix, Sums(ROUNDS), p, k));
    BytesRoundTrip(b);
    DecEnc(Mix, Sums(ROUNDS), p, k);
    EncDec(Mix, Sums(ROUNDS), p, k);
  }

  /** Decryption undoes encryption and encryption undoes decryption, on every aligned buffer. */
  lemma CryptInverse(s: seq<Byte>, k: Key)
    requires |s| % 8 == 0
    ensures Decrypted(Encrypted(s, k), k) == s && Encrypted(Decrypted(s, k), k) == s
  {
    forall b: Block
      ensures Decoded(k)(Encoded(k)(b)) == b && Encoded(k)(Decoded(k)(b)) == b
    {
      BlockInverse(b, k);
    }
    CodeUndo(Encoded(k), Decoded(k), s);
    CodeUndo(Decoded(k), Encoded(k), s);
  }

  lemma CryptConcat(a: seq<Byte>, b: seq<Byte>, k: Key)
    requires |a| % 8 == 0 && |b| % 8 == 0
    ensures Encrypted(a + b, k) == Encrypted(a, k) + Encrypted(b, k)
    ensures Decrypted(a + b, k) == Decrypted(a, k) + Decrypted(b, k)
  {
    CodeConcat(Encoded(k), a, b);
    CodeConcat(Decoded(k), a, b);
  }

  // -------------------------------------------------------------------- the loops

  /** encrypt: the pair at v, in place. */
  method Encrypt(b: array<Byte>, at: nat, k: Key)
    requires at + 8 <= b.Length
    modifies b
    ensures b[..] == old(b[..at]) + Encoded(k)(old(b[at..at + 8])) + old(b[at + 8..])
  {
    var v := LoadPair(b, at);
    var v0, v1, sum: Word := v.v0, v.v1, 0;
    for i := 0 to ROUNDS
      invariant sum == Sum(i) && Pair(v0, v1) == Enc(Mix, Sums(i), v, k)
      invariant b[..] == old(b[..])
    {
      SumsLast(i);
      EncLast(Mix, Sums(i), Sum(i + 1), v, k);
      sum := Plus(sum, DELTA);
      v0 := Plus(v0, Mix(v1, sum, k[0], k[1]));
      v1 := Plus(v1, Mix(v0, sum, k[2], k[3]));
    }
    StorePair(b, at, Pair(v0, v1));
  }

  /** decrypt: the pair at v, in place. */
  method Decrypt(b: array<Byte>, at: nat, k: Key)
    requires at + 8 <= b.Length
    modifies b
    ensures b[..] == old(b[..at]) + Decoded(k)(old(b[at..at + 8])) + old(b[at + 8..])
  {
    var v := LoadPair(b, at);
    var v0, v1, sum := v.v0, v.v1, DECRYPT_SUM;
    SumEnd();
    ghost var n: nat := ROUNDS;
    for i := 0 to ROUNDS
      invariant n == ROUNDS - i && sum == Sum(n)
      invariant Dec(Mix, Sums(n), Pair(v0, v1), k) == Dec(Mix, Sums(ROUNDS), v, k)
      invariant b[..] == old(b[..])
    {
      ghost var p := Pair(v0, v1);
      v1 := Minus(v1, Mix(v0, sum, k[2], k[3]));
      v0 := Minus(v0, Mix(v1, sum, k[0], k[1]));
      SumsLast(n - 1);
      DecLast(Mix, Sums(n - 1), Sum(n), p, k);
      SumDown(n);
      sum := Minus(sum, DELTA);
      n := n - 1;
    }
    StorePair(b, at, Pair(v0, v1));
  }

  lemma SumsLast(n: nat)
    ensures Sums(n + 1) == Sums(n) + [Sum(n + 1)]
  {
  }

  lemma SumDown(n: nat)
    requires n > 0
    ensures Minus(Sum(n), DELTA) == Sum(n - 1)
  {
  }

  lemma EvenWords(len: nat)
    requires len % 8 == 0
    ensures 4 * (len / 4) == len
  {
  }

  lemma NextPair(at: nat, len: nat)
    requires at % 8 == 0 && len % 8 == 0 && at < len
    ensures at + 8 <= len && (at + 8) % 8 == 0
  {
  }

  /** The length is a multiple of 8 bytes. */
  method EncryptBlock(b: array<Byte>, len: nat, k: Key)
    requires len % 8 == 0 && len <= b.Length
    modifies b
    ensures b[..] == Encrypted(old(b[..len]), k) + old(b[len..])
  {
    var count, i := len / 4, 0;
    EvenWords(len);
    ghost var s, at, code := b[..], 0, Encoded(k);
    while i < count
      invariant at == 4 * i && at % 8 == 0 && at <= len
      invariant b[..] == CodeAll(code, s[..at]) + s[at..]
    {
      NextPair(at, len);
      ghost var half := b[..];
      Encrypt(b, 4 * i, k);
      HalfStep(code, s, at, half, b[..]);
      i := i + 2;
      at := at + 8;
    }
  }

  method DecryptBlock(b: array<Byte>, len: nat, k: Key)
    requires len % 8 == 0 && len <= b.Length
    modifies b
    ensures b[..] == Decrypted(old(b[..len]), k) + old(b[len..])
  {
    var count, i := len / 4, 0;
    EvenWords(len);
    ghost var s, at, code := b[..], 0, Decoded(k);
    while i < count
      invariant at == 4 * i && at % 8 == 0 && at <= len
      invariant b[..] == CodeAll(code, s[..at]) + s[at..]
    {
      NextPair(at, len);
      ghost var half := b[..];
      Decrypt(b, 4 * i, k);
      HalfStep(code, s, at, half, b[..]);
      i := i + 2;
      at := at + 8;
    }
  }
}
