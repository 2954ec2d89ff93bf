/**
 Whole commands that answer from the device itself, told byte by byte: which bytes of a command block mean
 what, what the host reads, what is reported, and what is pending afterwards.
 */
module MassReplies {
  import opened Words
  import opened DiskSpec
  import opened MassSpec
  import opened MassRuns
  import opened MassCommands

  // ------------------------------------------------------------------ command blocks

  function Little(b0: Byte, b1: Byte, b2: Byte, b3: Byte): nat
  {
    b0 + 0x100 * b1 + 0x1_0000 * b2 + 0x100_0000 * b3
  }

  /** p is a command block of the USB Mass Storage Bulk-Only Transport, section 5.1: "USBC", a tag, a length,
      the direction in the highest bit of byte 12, unit 0, and a command that begins with op in byte 15. */
  ghost predicate Commands(p: seq<Byte>, tag: Word, length: Word, toHost: bool, op: Byte)
  {
    && |p| == 31 && p[0] == 0x55 && p[1] == 0x53 && p[2] == 0x42 && p[3] == 0x43
    && tag == Little(p[4], p[5], p[6], p[7]) && length == Little(p[8], p[9], p[10], p[11])
    && toHost == (0x80 <= p[12]) && p[13] == 0 && 1 <= p[14] <= 16 && p[15] == op
  }

  lemma JoinIs(b0: Byte, b1: Byte, b2: Byte, b3: Byte)
    ensures Join(b0, b1, b2, b3) == Little(b0, b1, b2, b3)
    ensures Join(b0, b1, b2, b3) == 0x43425355 <==> b0 == 0x55 && b1 == 0x53 && b2 == 0x42 && b3 == 0x43
  {
  }

  /** The fields of a block that is accepted are the ones described, and no other block is. */
  lemma CommandFields(p: seq<Byte>)
    ensures ValidCbw(p) && GoodLun(p) <==>
      |p| == 31 && Commands(p, Little(p[4], p[5], p[6], p[7]), Little(p[8], p[9], p[10], p[11]), 0x80 <= p[12], p[15])
    ensures forall tag, length, toHost, op :: Commands(p, tag, length, toHost, op) ==>
      Tag(p) == tag && Length(p) == length && DirIn(p) == toHost && Opcode(p) == op
  {
    if |p| == 31 {
      JoinIs(p[0], p[1], p[2], p[3]);
      JoinIs(p[4], p[5], p[6], p[7]);
      JoinIs(p[8], p[9], p[10], p[11]);
    }
  }

  /** READ and WRITE: the block address is in bytes 17 to 20, highest first; the number of blocks in bytes 22
      and 23, or in 21 to 24 for the commands of 12 bytes. */
  lemma TransferFields(p: seq<Byte>)
    requires |p| == 31
    ensures Lba(p) == Little(p[20], p[19], p[18], p[17])
    ensures Blocks(p) == if p[15] == 0xA8 || p[15] == 0xAA then Little(p[24], p[23], p[22], p[21])
                         else Little(p[23], p[22], 0, 0)
    ensures IsRead(p) <==> p[15] == 0x28 || p[15] == 0xA8
    ensures IsWrite(p) <==> p[15] == 0x2A || p[15] == 0xAA
  {
    JoinIs(p[20], p[19], p[18], p[17]);
    JoinIs(p[24], p[23], p[22], p[21]);
    JoinIs(p[23], p[22], 0, 0);
  }

  // ----------------------------------------------------------------- replies

  /** The text that names the device. */
  const NAME := "Mrazik. SDHC Card on USB 1.0"

  /** What the device answers, in full. */
  ghost predicate Answers(op: Byte, sense: Word, readOnly: bool, reply: seq<Byte>)
  {
    match op
    case 0x03 => |reply| == 18 && reply[0] == 0x70 && reply[7] == 10
      && Little(reply[13], reply[12], reply[2], 0) == sense % 0x100_0000
      && forall i :: 0 <= i < 18 && i != 0 && i != 2 && i != 7 && i != 12 && i != 13 ==> reply[i] == 0
    case 0x12 => |reply| == 36 && |NAME| == 28 && reply[..8] == [0, 0x80, 0, 1, 32, 0x80, 0, 0]
      && forall i :: 0 <= i < 28 ==> reply[8 + i] == NAME[i] as int
    case 0x1A => reply == [3, 0, if readOnly then 0x80 else 0, 0]
    case 0x5A => reply == [0, 6, 0, 0, 0, 0, 0, 0]
    case 0x23 => |reply| == 12 && reply[..4] == [0, 0, 0, 8] && reply[8] == 2
      && Little(reply[7], reply[6], reply[5], reply[4]) == 128 && Little(reply[11], reply[10], reply[9], 0) == 512
    case 0x25 => |reply| == 8
      && Little(reply[3], reply[2], reply[1], reply[0]) == 127 && Little(reply[7], reply[6], reply[5], reply[4]) == 512
    case _ => false
  }

  /** One of the commands that are answered. */
  predicate Answered(op: Byte)
  {
    op == 0x03 || op == 0x12 || op == 0x1A || op == 0x5A || op == 0x23 || op == 0x25
  }

  lemma SenseIs(sense: Word)
    ensures Answers(0x03, sense, false, SenseReply(sense)) && Answers(0x03, sense, true, SenseReply(sense))
  {
    var q := sense / 256;
    var q2 := q / 256;
    ThreeBytes(sense, sense % 256, q, q % 256, q2, q2 % 256, q2 / 256);
    assert sense / 0x1_0000 == q2;
  }

  lemma ThreeBytes(n: nat, a: Byte, q: nat, b: Byte, q2: nat, c: Byte, q3: nat)
    requires n == a + 256 * q && q == b + 256 * q2 && q2 == c + 256 * q3
    ensures Little(a, b, c, 0) == n % 0x100_0000
  {
    Remains(n, Little(a, b, c, 0), q3);
  }

  lemma Remains(n: nat, r: nat, k: nat)
    requires n == r + 0x100_0000 * k && r < 0x100_0000
    ensures n % 0x100_0000 == r
  {
  }

  lemma InquiryIs(sense: Word, readOnly: bool)
    ensures Answers(0x12, sense, readOnly, INQUIRY_REPLY)
  {
    var text := INQUIRY_REPLY[8..];
    assert text == [77, 114, 97, 122, 105, 107, 46, 32, 83, 68, 72, 67, 32, 67, 97, 114, 100, 32, 111, 110, 32, 85, 83,
                    66, 32, 49, 46, 48];
    NameIs(text);
  }

  lemma NameIs(text: seq<Byte>)
    requires text == [77, 114, 97, 122, 105, 107, 46, 32, 83, 68, 72, 67, 32, 67, 97, 114, 100, 32, 111, 110, 32, 85,
                      83, 66, 32, 49, 46, 48]
    ensures |NAME| == 28 && forall i :: 0 <= i < 28 ==> text[i] == NAME[i] as int
  {
  }

  lemma BeIs(w: Word)
    ensures var b := BeBytes(w); Little(b[3], b[2], b[1], b[0]) == w
  {
    LoadBytes(w);
    var b := Bytes(w);
    JoinIs(b[0], b[1], b[2], b[3]);
  }

  lemma CapacityIs(sense: Word, readOnly: bool)
    ensures Answers(0x25, sense, readOnly, CapacityReply())
  {
    BeIs(127);
    BeIs(512);
  }

  lemma FormatCapacityIs(sense: Word, readOnly: bool)
    ensures Answers(0x23, sense, readOnly, FormatCapacityReply())
  {
    BeIs(128);
    assert FormatCapacityReply()[..4] == [0, 0, 0, 8];
  }

  /** How the parser answers: with the bytes described, and nothing pending after REQUEST SENSE. */
  lemma ParseAnswers(s: State) returns (reply: seq<Byte>)
    requires Answered(Opcode(s.cbw)) && FormatOk(s)
    ensures Answers(Opcode(s.cbw), s.sense, s.readOnly, reply) && |reply| <= 64
    ensures Parse(s) == Transfer(s.(sense := if Opcode(s.cbw) == 0x03 then 0 else s.sense), reply)
  {
    var op := Opcode(s.cbw);
    if op == 0x03 {
      SenseIs(s.sense);
      reply := SenseReply(s.sense);
    } else if op == 0x12 {
      InquiryIs(s.sense, s.readOnly);
      reply := INQUIRY_REPLY;
    } else if op == 0x1A {
      reply := Modes6(s.readOnly);
    } else if op == 0x5A {
      reply := MODES10;
    } else if op == 0x23 {
      FormatCapacityIs(s.sense, s.readOnly);
      reply := FormatCapacityReply();
    } else {
      CapacityIs(s.sense, s.readOnly);
      reply := CapacityReply();
    }
  }

  // ------------------------------------------------------------------ whole commands

  function Cut(reply: seq<Byte>, length: Word): seq<Byte>
  {
    if |reply| <= length then reply else reply[..length]
  }

  lemma TakenUp(s: State, p: seq<Byte>, tag: Word, length: Word, toHost: bool, op: Byte)
    requires s.stage == AwaitCbw && Commands(p, tag, length, toHost, op)
    ensures ValidCbw(p) && MayCome(s, p) && BulkOut(s, p) == Parse(Accept(s.(cbw := p)))
    ensures Tag(p) == tag && Length(p) == length && DirIn(p) == toHost && Opcode(p) == op
  {
    CommandFields(p);
    assert Overlaid(s.cbw, p) == p;
  }

  lemma TransferCuts(s: State, reply: seq<Byte>, tag: Word, length: Word)
    requires |reply| <= 64 && Length(s.cbw) == length && s.csw.tag == tag && s.csw.residue == length
    ensures var sent := Cut(reply, length);
      |sent| <= length && Transfer(s, reply) ==
        s.(stage := DataInLast, csw := Csw(tag, length - |sent|, Passed), log := s.log + [Sent(sent)])
  {
    assert |reply| == length ==> reply[..length] == reply;
    assert |reply| <= length ==> reply[..|reply|] == reply;
  }

  lemma ThreeEvents(log: seq<Event>, a: Event, b: Event, c: Event)
    ensures ((log + [a]) + [b]) + [c] == log + [a, b, c] && (log + [a]) + [b] == log + [a, b]
  {
  }

  /** A command that is answered from the device: the reply, cut to the length that the host announced, and then
      success, with what the host announced too much. REQUEST SENSE, and nothing else, forgets what was pending. */
  lemma ReplyDelivers(s: State, p: seq<Byte>, tag: Word, length: Word, op: Byte) returns (reply: seq<Byte>)
    requires s.stage == AwaitCbw && Commands(p, tag, length, true, op) && Answered(op) && 0 < length
    ensures Answers(op, s.sense, s.readOnly, reply)
    ensures var ins := [HostOut(p)] + Takes(2);
      Conforming(s, ins) && var s' := Exec(s, ins); var sent := Cut(reply, length);
      && s'.stage == AwaitCbw && s'.store == s.store && s'.sense == (if op == 0x03 then 0 else s.sense)
      && |sent| <= length
      && s'.log == s.log + [Accepted(tag, length), Sent(sent), Reported(Csw(tag, length - |sent|, Passed))]
  {
    TakenUp(s, p, tag, length, true, op);
    var s1 := Accept(s.(cbw := p));
    reply := ParseAnswers(s1);
    var s2 := s1.(sense := if op == 0x03 then 0 else s.sense);
    TransferCuts(s2, reply, tag, length);
    var sent := Cut(reply, length);
    var c := Csw(tag, length - |sent|, Passed);
    Finish(Transfer(s2, reply));
    Cons(s, HostOut(p), Takes(2));
    ThreeEvents(s.log, Accepted(tag, length), Sent(sent), Reported(c));
  }

  /** After the command block and the report, this was logged, and this is pending. */
  ghost predicate Reports(s: State, p: seq<Byte>, es: seq<Event>, sense: Word)
  {
    var ins := [HostOut(p)] + Takes(1);
    Conforming(s, ins) && var s' := Exec(s, ins);
    s'.stage == AwaitCbw && s'.store.disk == s.store.disk && s'.sense == sense && s'.log == s.log + es
  }

  lemma StatusTaken(s: State, p: seq<Byte>, e: Event, es: seq<Event>)
    requires MayCome(s, p)
    requires var s1 := BulkOut(s, p);
      s1.stage == AwaitCsw && s1.store.disk == s.store.disk && s1.log == (s.log + [e]) + es
    ensures Reports(s, p, [e] + es, BulkOut(s, p).sense)
  {
    TakeReport(BulkOut(s, p));
    Cons(s, HostOut(p), Takes(1));
    assert (s.log + [e]) + es == s.log + ([e] + es);
  }

  /** The stall that goes before the report of a command that announced data. */
  function Stall(length: Word, dir: Direction): seq<Event>
  {
    if length == 0 then [] else [Stalled(dir)]
  }

  /** s has been told to stall and report; sense is pending, and the storage is as it was. */
  ghost predicate Ended(s: State, s': State, es: seq<Event>, sense: Word)
  {
    s'.stage == AwaitCsw && s'.store == s.store && s'.sense == sense && s'.log == s.log + es
  }

  lemma Refuses(s: State)
    requires Answered(Opcode(s.cbw)) && !FormatOk(s)
    ensures Parse(s) == FormatError(s)
  {
  }

  lemma RefusedEnds(s: State)
    ensures Ended(s, FormatError(s), Stall(Length(s.cbw), Out) + [Reported(s.csw.(status := PhaseError))], s.sense)
  {
    assert s.log + ([Stalled(Out)] + [Reported(s.csw.(status := PhaseError))]) ==
      (s.log + [Stalled(Out)]) + [Reported(s.csw.(status := PhaseError))];
    assert [] + [Reported(s.csw.(status := PhaseError))] == [Reported(s.csw.(status := PhaseError))];
  }

  /** A command that is answered is a phase error when the host announces no data or sends some. */
  lemma ReplyRefused(s: State, p: seq<Byte>, tag: Word, length: Word, toHost: bool, op: Byte)
    requires s.stage == AwaitCbw && Commands(p, tag, length, toHost, op) && Answered(op) && (length == 0 || !toHost)
    ensures Reports(s, p, [Accepted(tag, length)] + (Stall(length, Out) + [Reported(Csw(tag, length, PhaseError))]),
                    s.sense)
  {
    TakenUp(s, p, tag, length, toHost, op);
    var s1 := Accept(s.(cbw := p));
    Refuses(s1);
    RefusedEnds(s1);
    StatusTaken(s, p, Accepted(tag, length), Stall(length, Out) + [Reported(Csw(tag, length, PhaseError))]);
  }

  lemma ReadyEnds(s: State)
    ensures var status := if s.sense == 0x062900 then Failed else Passed;
      Ended(s, TestUnitReady(s), Stall(Length(s.cbw), if DirIn(s.cbw) then In else Out)
                                 + [Reported(s.csw.(status := status))], s.sense)
  {
    var r := Reported(s.csw.(status := if s.sense == 0x062900 then Failed else Passed));
    var e := Stalled(if DirIn(s.cbw) then In else Out);
    assert s.log + ([e] + [r]) == (s.log + [e]) + [r] && [] + [r] == [r];
  }

  /** TEST UNIT READY fails exactly while the reset is pending. */
  lemma UnitReady(s: State, p: seq<Byte>, tag: Word, length: Word, toHost: bool)
    requires s.stage == AwaitCbw && Commands(p, tag, length, toHost, 0x00)
    ensures var status := if s.sense == 0x062900 then Failed else Passed;
      Reports(s, p, [Accepted(tag, length)] + (Stall(length, if toHost then In else Out)
                                               + [Reported(Csw(tag, length, status))]), s.sense)
  {
    TakenUp(s, p, tag, length, toHost, 0x00);
    var s1 := Accept(s.(cbw := p));
    var status := if s.sense == 0x062900 then Failed else Passed;
    ReadyEnds(s1);
    StatusTaken(s, p, Accepted(tag, length), Stall(length, if toHost then In else Out)
                                             + [Reported(Csw(tag, length, status))]);
  }

  /** VERIFY without byte check moves no data and passes. */
  lemma VerifyPasses(s: State, p: seq<Byte>, tag: Word, length: Word, toHost: bool)
    requires s.stage == AwaitCbw && Commands(p, tag, length, toHost, 0x2F) && p[16] / 2 % 2 == 0
    ensures Reports(s, p, [Accepted(tag, length)] + [Reported(Csw(tag, length, Passed))], s.sense)
  {
    TakenUp(s, p, tag, length, toHost, 0x2F);
    StatusTaken(s, p, Accepted(tag, length), [Reported(Csw(tag, length, Passed))]);
  }

  /** A command that the device does not know fails, and an invalid field is pending. */
  lemma UnknownFails(s: State, p: seq<Byte>, tag: Word, length: Word, toHost: bool, op: Byte)
    requires s.stage == AwaitCbw && Commands(p, tag, length, toHost, op)
    requires op !in {0x00, 0x03, 0x12, 0x1A, 0x23, 0x25, 0x28, 0x2A, 0x2F, 0x5A, 0xA8, 0xAA}
    ensures Reports(s, p, [Accepted(tag, length)] + [Reported(Csw(tag, length, Failed))], 0x052400)
  {
    TakenUp(s, p, tag, length, toHost, op);
    StatusTaken(s, p, Accepted(tag, length), [Reported(Csw(tag, length, Failed))]);
  }

  /** So does a command to another unit, or of a length that no command has. */
  lemma OtherUnitFails(s: State, p: seq<Byte>)
    requires s.stage == AwaitCbw && |p| == 31 && p[0] == 0x55 && p[1] == 0x53 && p[2] == 0x42 && p[3] == 0x43
    requires p[13] != 0 || p[14] < 1 || 16 < p[14]
    ensures var tag, length := Little(p[4], p[5], p[6], p[7]), Little(p[8], p[9], p[10], p[11]);
      tag < M32 && length < M32
      && Reports(s, p, [Accepted(tag, length)] + [Reported(Csw(tag, length, Failed))], 0x052500)
  {
    JoinIs(p[0], p[1], p[2], p[3]);
    JoinIs(p[4], p[5], p[6], p[7]);
    JoinIs(p[8], p[9], p[10], p[11]);
    assert Overlaid(s.cbw, p) == p;
    StatusTaken(s, p, Accepted(Tag(p), Length(p)), [Reported(Csw(Tag(p), Length(p), Failed))]);
  }

  // --------------------------------------------------------------- after a reset

  /** Whatever is pending: REQUEST SENSE for 18 bytes or more tells it, and then nothing is. */
  lemma SenseForgets(s: State, p: seq<Byte>, tag: Word, length: Word) returns (reply: seq<Byte>, s': State)
    requires Ready(s) && Commands(p, tag, length, true, 0x03) && 18 <= length
    ensures Conforming(s, [HostOut(p)] + Takes(2)) && s' == Exec(s, [HostOut(p)] + Takes(2))
    ensures s'.log == s.log + [Accepted(tag, length), Sent(reply), Reported(Csw(tag, length - 18, Passed))]
    ensures Answers(0x03, s.sense, s.readOnly, reply) && s'.sense == 0 && Ready(s') && s'.store == s.store
  {
    reply := ReplyDelivers(s, p, tag, length, 0x03);
    s' := Exec(s, [HostOut(p)] + Takes(2));
  }

  /** With nothing pending TEST UNIT READY passes, and READ delivers its blocks and passes. */
  lemma ClearWorks(s: State, q: seq<Byte>, tag: Word, rd: seq<Byte>, lba: nat, n: nat)
    requires Ready(s) && s.sense == 0 && Commands(q, tag, 0, true, 0x00)
    requires Transfers(rd, lba, n) && IsRead(rd) && DirIn(rd)
    ensures Reports(s, q, [Accepted(tag, 0)] + [Reported(Csw(tag, 0, Passed))], 0)
    ensures Conforming(s, [HostOut(rd)] + Takes(8 * n + 1))
    ensures Done(s, Exec(s, [HostOut(rd)] + Takes(8 * n + 1)), rd, n, SentFrom(s.store.disk, 8 * lba, 8 * n), Passed)
  {
    UnitReady(s, q, tag, 0, true);
    assert [] + [Reported(Csw(tag, 0, Passed))] == [Reported(Csw(tag, 0, Passed))];
    ReadDelivers(s, rd, lba, n);
  }
}
