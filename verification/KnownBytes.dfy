/**
 What the formats of the repository look like in bytes: texts in ASCII, hexadecimal numbers digit by digit,
 and a small track and a small score spelt out.
 */
module KnownBytes {
  import opened Words
  import opened Feistel
  import opened Bits
  import opened Keys
  import opened FlashSpec
  import opened Score
  import opened MidiTrack
  import Merge

  /** The bytes of a text. */
  ghost predicate Spells(b: seq<Byte>, text: string)
  {
    |b| == |text| && forall i :: 0 <= i < |b| ==> b[i] == text[i] as int
  }

  // ------------------------------------------------------------------------ texts

  lemma Names()
    ensures Spells([SLASH], "/") && Spells(FIRMWARE, "FIRMWARE.BIN")
    ensures Spells(FORM, "FIRMWARE.BIN?volby=") && Spells(SUBMIT, "&ok=Odeslat")
  {
  }

  const DIGITS := "0123456789ABCDEF"

  /** Position i of a number in w hexadecimal digits shows its digit with the weight 16^(w - 1 - i). */
  lemma {:induction false} HexAt(n: nat, w: nat, i: nat)
    requires i < w
    ensures Place(n, w - 1 - i) < |DIGITS| && Hex(n, w)[i] == DIGITS[Place(n, w - 1 - i)] as int
  {
    if i < w - 1 {
      HexAt(n / 16, w - 1, i);
    }
  }

  /** The hexadecimal digit of n with the weight 16^p. */
  function Place(n: nat, p: nat): nat { if p == 0 then n % 16 else Place(n / 16, p - 1) }

  /** A key is shown word by word, each in eight digits with the highest first. */
  lemma {:induction false} HexKeyAt(k: seq<Word>, i: nat, j: nat)
    requires i < |k| && j < 8
    ensures 8 * i + j < |HexWords(k)| && Place(k[i], 7 - j) < |DIGITS|
    ensures HexWords(k)[8 * i + j] == DIGITS[Place(k[i], 7 - j)] as int
  {
    if i == 0 {
      HexAt(k[0], 8, j);
    } else {
      HexKeyAt(k[1..], i - 1, j);
      assert HexWords(k)[8 * i + j] == HexWords(k[1..])[8 * (i - 1) + j];
    }
  }

  // --------------------------------------------------------------------- halfwords

  /** Programming takes the bitwise and of what is in flash and what is written: bits are only cleared. */
  lemma ProgramsClear(was: Half, written: Half) returns (x: bv32, y: bv32)
    ensures Num(x) == was && Num(y) == written && AndHalf(was, written) == Num(x & y)
  {
    x := Registered(was);
    y := Registered(written);
    AndNum(x, y);
  }

  // ------------------------------------------------------------------ a track, a score

  /** A tempo of half a second, and a note of 96 ticks that is ended by a second note on without a status byte. */
  const TRACK: seq<Byte> := [0x00, 0xFF, 0x51, 3, 0x07, 0xA1, 0x20, 0x00, 0x90, 60, 64, 96, 60, 0]

  predicate Opened(b: bool) { true }

  /** The items after status byte `last` and the time, in bytes and as they are heard. */
  ghost predicate Means(items: seq<Item>, last: Byte, time: nat, mask: set<int>, bytes: seq<Byte>,
                        heard: seq<MidiEvent>)
  {
    forall b {:trigger Opened(b)} :: Opened(b) ==>
      AllWritable(items, last) && TrackBytes(items, last) == bytes && Heard(items, last, mask, time) == heard
  }

  type MidiEvent = MidiTrack.Event

  lemma OneItem(i: Item, rest: seq<Item>, last: Byte, time: nat, mask: set<int>, bytes: seq<Byte>,
                heard: seq<MidiEvent>)
    requires Writable(i, last) && Means(rest, Status(i.wire), time + i.delta, mask, bytes, heard)
    ensures Means([i] + rest, last, time, mask, VarBytes(i.delta) + (StatusBytes(i) + (Body(i.wire) + bytes)),
                  Sense(i.wire, mask, time + i.delta) + heard)
  {
    assert Opened(true);
    assert ([i] + rest)[1..] == rest;
  }

  lemma NoteItem(b: Byte, delta: nat, running: bool, last: Byte, mask: set<int>) returns (i: Item)
    requires delta < 128 && 0 in mask && (running ==> last == 0x90)
    ensures i == Item(delta, Channel(9, 0, 60, b), running) && Writable(i, last) && Status(i.wire) == 0x90
    ensures VarBytes(i.delta) == [delta] && StatusBytes(i) == (if running then [] else [0x90])
    ensures Body(i.wire) == [60, b] && Sense(i.wire, mask, delta) == [if b == 0 then Off(delta, 60) else On(delta, 60)]
  {
    i := Item(delta, Channel(9, 0, 60, b), running);
    assert VarBytes(delta) == [] + [delta];
  }

  lemma TempoItem(last: Byte, mask: set<int>, x: Byte, y: Byte, z: Byte) returns (i: Item)
    ensures Writable(i, last) && i.delta == 0 && Status(i.wire) == 0xFF
    ensures VarBytes(i.delta) == [0] && StatusBytes(i) == [0xFF] && Body(i.wire) == [0x51, 3, x, y, z]
    ensures Sense(i.wire, mask, 0) == [NewTempo(0, Three(x, y, z))]
  {
    i := Item(0, Meta(0x51, [x, y, z]), false);
    assert VarBytes(0) == [] + [0];
    assert Body(i.wire) == [0x51, 3] + [x, y, z];
  }

  lemma LastItems(mask: set<int>) returns (c: seq<Item>)
    requires 0 in mask
    ensures Means(c, 0x90, 0, mask, [96, 60, 0], [Off(96, 60)])
  {
    var off := NoteItem(0, 96, true, 0x90, mask);
    NoItems(96, mask);
    OneItem(off, [], 0x90, 0, mask, [], []);
    assert [96] + ([] + ([60, 0] + [])) == [96, 60, 0] && [Off(96, 60)] + [] == [Off(96, 60)];
    c := [off] + [];
  }

  lemma NoteItems(mask: set<int>, c: seq<Item>, bytes: seq<Byte>, heard: seq<MidiEvent>) returns (b: seq<Item>)
    requires 0 in mask && Means(c, 0x90, 0, mask, bytes, heard)
    ensures Means(b, 0xFF, 0, mask, [0, 0x90, 60, 64] + bytes, [On(0, 60)] + heard)
  {
    var on := NoteItem(64, 0, false, 0xFF, mask);
    OneItem(on, c, 0xFF, 0, mask, bytes, heard);
    assert [0] + ([0x90] + ([60, 64] + bytes)) == [0, 0x90, 60, 64] + bytes;
    b := [on] + c;
  }

  lemma TempoItems(mask: set<int>, b: seq<Item>, bytes: seq<Byte>, heard: seq<MidiEvent>, x: Byte, y: Byte, z: Byte)
    returns (a: seq<Item>)
    requires Means(b, 0xFF, 0, mask, bytes, heard)
    ensures Means(a, 0, 0, mask, [0, 0xFF, 0x51, 3, x, y, z] + bytes, [NewTempo(0, Three(x, y, z))] + heard)
  {
    var tempo := TempoItem(0, mask, x, y, z);
    OneItem(tempo, b, 0, 0, mask, bytes, heard);
    assert [0] + ([0xFF] + ([0x51, 3, x, y, z] + bytes)) == [0, 0xFF, 0x51, 3, x, y, z] + bytes;
    a := [tempo] + b;
  }

  lemma Items(mask: set<int>) returns (a: seq<Item>)
    requires 0 in mask
    ensures Means(a, 0, 0, mask, TRACK, [NewTempo(0, 500000), On(0, 60), Off(96, 60)])
  {
    var c := LastItems(mask);
    var bytes, heard := [96, 60, 0], [Off(96, 60)];
    var b := NoteItems(mask, c, bytes, heard);
    a := TempoItems(mask, b, [0, 0x90, 60, 64] + bytes, [On(0, 60)] + heard, 0x07, 0xA1, 0x20);
    assert [0, 0xFF, 0x51, 3, 0x07, 0xA1, 0x20] + ([0, 0x90, 60, 64] + bytes) == TRACK;
    assert [NewTempo(0, 500000)] + ([On(0, 60)] + heard) == [NewTempo(0, 500000), On(0, 60), Off(96, 60)];
  }

  lemma NoItems(time: nat, mask: set<int>)
    ensures Means([], 0x90, time, mask, [], [])
  {
  }

  /** What is read from these bytes. */
  lemma SmallTrack(mem: Memory, mask: set<int>, t: Track)
    requires 0 in mask && Holds(mem, 0, TRACK) && t == Merge.RawTrack((0, |TRACK|))
    ensures Listen(mem, mask, t) == [NewTempo(0, 500000), On(0, 60), Off(96, 60)]
  {
    var items := Items(mask);
    assert Opened(true);
    TrackReadsBack(mem, mask, t, items);
  }

  /** A note on generator 3, half a second, and its end; at 44 samples for a millisecond, and one more. */
  lemma SmallScore()
    ensures ScoreOf([Play(3, 60), Delay(500), Stop(3), End]) == [0x93, 60, 0x01, 0xF4, 0x83, 0xF0]
    ensures Samples([Play(3, 60), Delay(500), Stop(3), End]) == 22001
  {
    var d := [End];
    var c := [Stop(3)] + d;
    var b := [Delay(500)] + c;
    var a := [Play(3, 60)] + b;
    assert d[1..] == [] && c[1..] == d && b[1..] == c && a[1..] == b;
    assert ScoreOf(d) == [0xF0];
    assert Samples(d) == 0 && Samples(c) == 0 && Samples(b) == 22001;
    assert ScoreOf(c) == [0x83, 0xF0];
    assert ScoreOf(b) == [0x01, 0xF4, 0x83, 0xF0];
    assert a == [Play(3, 60), Delay(500), Stop(3), End];
  }
}
