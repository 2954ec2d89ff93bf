/**
 Runs of the Bulk-Only state machine with a host that keeps to the protocol: what the device
 reports about each command, and what whole READ, WRITE and VERIFY commands do to the disk.
 */
module MassRuns {
  import opened Words
  import opened DiskSpec
  import opened MassSpec

  datatype Input = HostIn | HostOut(p: seq<Byte>)

  /** The host sends OUT packets only when one is due; it may take IN packets at any time. */
  predicate Conforming(s: State, ins: seq<Input>)
    decreases |ins|
  {
    ins == [] ||
    match ins[0]
    case HostIn => Conforming(BulkIn(s), ins[1..])
    case HostOut(p) => MayCome(s, p) && Conforming(BulkOut(s, p), ins[1..])
  }

  function Exec(s: State, ins: seq<Input>): State
    requires Conforming(s, ins)
    decreases |ins|
  {
    if ins == [] then s
    else
      match ins[0]
      case HostIn => Exec(BulkIn(s), ins[1..])
      case HostOut(p) => Exec(BulkOut(s, p), ins[1..])
  }

  lemma {:induction false} ExecConcat(s: State, a: seq<Input>, b: seq<Input>)
    requires Conforming(s, a) && Conforming(Exec(s, a), b)
    ensures Conforming(s, a + b) && Exec(s, a + b) == Exec(Exec(s, a), b)
    decreases |a|
  {
    if a == [] {
      assert a + b == b;
    } else {
      assert (a + b)[1..] == a[1..] + b;
      match a[0]
      case HostIn => ExecConcat(BulkIn(s), a[1..], b);
      case HostOut(p) => ExecConcat(BulkOut(s, p), a[1..], b);
    }
  }

  // ---------------------------------------------------------------- reading the log

  /** Where a log stands: between commands, or inside one that was accepted with a tag and a length
      and has moved some bytes. */
  datatype Phase = Idle | Open(tag: Word, length: Word, moved: nat) | Broken

  /** A report ends the command that is open. It carries its tag, and when it says passed, its
      residue is what the command did not move. */
  predicate Honest(ph: Phase, c: Csw)
  {
    ph.Open? && c.tag == ph.tag && ph.moved <= ph.length &&
    (c.status == Passed ==> c.residue == ph.length - ph.moved)
  }

  function Next(ph: Phase, e: Event): Phase
  {
    match e
    case Accepted(t, l) => if ph.Idle? then Open(t, l, 0) else Broken
    case Sent(d) => if ph.Open? then ph.(moved := ph.moved + |d|) else Broken
    case Got(d) => if ph.Open? then ph.(moved := ph.moved + |d|) else Broken
    case Reported(c) => if Honest(ph, c) then Idle else Broken
    case Stalled(_) => ph
  }

  function Scan(ph: Phase, log: seq<Event>): Phase
  {
    if log == [] then ph else Next(Scan(ph, log[..|log| - 1]), log[|log| - 1])
  }

  lemma ScanLogged(s: State, e: Event)
    ensures Scan(Idle, Logged(s, e).log) == Next(Scan(Idle, s.log), e)
  {
  }

  lemma {:induction false} ScanConcat(ph: Phase, a: seq<Event>, b: seq<Event>)
    ensures Scan(ph, a + b) == Scan(Scan(ph, a), b)
  {
    if b == [] {
      assert a + b == a;
    } else {
      var n := |b| - 1;
      assert (a + b)[..|a + b| - 1] == a + b[..n];
      ScanConcat(ph, a, b[..n]);
    }
  }

  // ------------------------------------------------------------------ the invariant

  /** A transfer between host and storage: what was moved and what is left make up the length. */
  ghost predicate Transferring(s: State, ph: Phase)
  {
    && ph.Open? && ph.tag == s.csw.tag && ph.length == Length(s.cbw)
    && 0 < s.store.left && s.store.left % 64 == 0 && ph.moved + s.store.left == ph.length
    && s.csw.residue == if s.sense == NO_SENSE then s.store.left else ph.length
  }

  /** The data phase of a reply or a READ is over; the report is still to come. */
  ghost predicate Finishing(s: State, ph: Phase)
  {
    && ph.Open? && ph.tag == s.csw.tag && ph.length == Length(s.cbw) && ph.moved <= ph.length
    && (s.csw.status == Passed ==> s.csw.residue == ph.length - ph.moved)
  }

  ghost predicate GoodIn(s: State, ph: Phase)
  {
    match s.stage
    case DataIn => IsRead(s.cbw) && Transferring(s, ph)
    case DataOut => (IsWrite(s.cbw) || Opcode(s.cbw) == VERIFY10) && Transferring(s, ph)
    case DataInLast => Finishing(s, ph)
    case DataInLastStall => Finishing(s, ph)
    case _ => ph == Idle
  }

  ghost predicate Good(s: State)
  {
    GoodIn(s, Scan(Idle, s.log))
  }

  /** Inside a command that has just been accepted. */
  ghost predicate Begun(s: State)
  {
    Scan(Idle, s.log) == Open(s.csw.tag, Length(s.cbw), 0) && s.csw.residue == Length(s.cbw)
  }

  lemma SetCswGood(s: State, status: Status)
    requires Honest(Scan(Idle, s.log), s.csw.(status := status))
    ensures Good(SetCsw(s, status))
  {
    ScanLogged(s.(csw := s.csw.(status := status), stage := AwaitCsw), Reported(s.csw.(status := status)));
  }

  lemma StallCswGood(s: State, dir: Direction, status: Status)
    requires Honest(Scan(Idle, s.log), s.csw.(status := status))
    ensures Good(StallCsw(s, dir, status))
  {
    ScanLogged(s, Stalled(dir));
    SetCswGood(Logged(s, Stalled(dir)), status);
  }

  lemma TransferGood(s: State, reply: seq<Byte>)
    requires Begun(s) && |reply| <= 64
    ensures Good(Transfer(s, reply))
  {
    var n := if |reply| >= Length(s.cbw) then Length(s.cbw) else |reply|;
    ScanLogged(s.(stage := DataInLast), Sent(reply[..n]));
  }

  lemma ReplyGood(s: State, reply: seq<Byte>)
    requires Begun(s) && |reply| <= 64
    ensures Good(Reply(s, reply))
  {
    if FormatOk(s) { TransferGood(s, reply); } else { FormatErrorGood(s); }
  }

  lemma FormatErrorGood(s: State)
    requires Begun(s)
    ensures Good(FormatError(s))
  {
    if Length(s.cbw) == 0 { SetCswGood(s, PhaseError); } else { StallCswGood(s, Out, PhaseError); }
  }

  /** The length that the host announced is the one that the storage was told, also where the number
      of blocks times 512 wraps around. */
  lemma SetupTransfers(s: State)
    requires Begun(s) && SetupOk(s)
    ensures Transferring(Setup(s), Scan(Idle, s.log))
  {
    WholePackets(Blocks(s.cbw));
  }

  lemma SetupErrorGood(s: State)
    requires Begun(s)
    ensures Good(SetupError(s))
  {
    if Length(s.cbw) == 0 { SetCswGood(s, Failed); } else { StallCswGood(s, if DirIn(s.cbw) then In else Out, Failed); }
  }

  /** The packet was moved, and the residue follows what is left. */
  ghost predicate Packeted(s: State, s1: State)
  {
    var ph, ph1 := Scan(Idle, s.log), Scan(Idle, s1.log);
    && ph.Open? && ph1 == ph.(moved := ph.moved + 64) && s1.cbw == s.cbw && s1.sense == s.sense && s1.stage == s.stage
    && s1.store.left == s.store.left - 64 && s1.csw.tag == s.csw.tag
    && s1.csw.residue == if s.sense == NO_SENSE then s.csw.residue - 64 else s.csw.residue
  }

  lemma PacketedGood(s: State, s1: State)
    requires Scan(Idle, s.log).Open? && Transferring(s, Scan(Idle, s.log)) && Packeted(s, s1)
    ensures s1.store.left != 0 ==> Transferring(s1, Scan(Idle, s1.log))
    ensures s1.store.left == 0 ==> Scan(Idle, s1.log) == Open(s.csw.tag, Length(s.cbw), Length(s.cbw))
    ensures s1.store.left == 0 && s.sense == NO_SENSE ==> s1.csw.residue == 0
  {
  }

  lemma SendPacketGood(s: State, p: Packet)
    requires s.stage == DataIn && Good(s)
    ensures Good(SendPacket(s, p))
  {
    PacketedGood(s, Logged(DecResidue(s.(store := Advanced(s.store))), Sent(p)));
  }

  lemma MemoryReadGood(s: State)
    requires s.stage == DataIn && Good(s)
    ensures Good(MemoryRead(s))
  {
    SendPacketGood(s, StoreRead(s.store));
  }

  lemma StallOutGood(s: State)
    ensures Scan(Idle, StallOutOfRange(s).log) == Scan(Idle, s.log)
  {
    ScanLogged(s, Stalled(Out));
  }

  lemma GotPacketed(s: State, s0: State, p: Packet)
    requires Scan(Idle, s.log).Open? && Transferring(s, Scan(Idle, s.log))
    requires s0 == s.(store := s0.store, memOk := s0.memOk) && s0.store.left == Minus(s.store.left, 64)
    ensures Packeted(s, DecResidue(Logged(s0, Got(p))))
  {
    ScanLogged(s0, Got(p));
  }

  lemma MemoryWriteGood(s: State, p: Packet)
    requires s.stage == DataOut && Good(s) && IsWrite(s.cbw)
    ensures Good(MemoryWrite(s, p))
  {
    var s0 := s.(store := StoreWritten(s.store, p));
    var s1 := DecResidue(Logged(s0, Got(p)));
    GotPacketed(s, s0, p);
    PacketedGood(s, s1);
    if s1.store.left == 0 {
      StallOutGood(s1);
      SetCswGood(StallOutOfRange(s1), Outcome(s.sense == NO_SENSE));
    }
  }

  lemma MemoryVerifyGood(s: State, p: Packet)
    requires s.stage == DataOut && Good(s) && Opcode(s.cbw) == VERIFY10
    ensures Good(MemoryVerify(s, p))
  {
    var s0 := s.(store := Advanced(s.store), memOk := s.memOk && StoreRead(s.store) == p);
    var s1 := DecResidue(Logged(s0, Got(p)));
    GotPacketed(s, s0, p);
    PacketedGood(s, s1);
    if s1.store.left == 0 {
      var s2 := s1.(memOk := s1.memOk && s.sense == NO_SENSE);
      StallOutGood(s2);
      SetCswGood(StallOutOfRange(s2), Outcome(s2.memOk));
    }
  }

  lemma ReadCommandGood(s: State)
    requires Begun(s) && IsRead(s.cbw)
    ensures Good(ReadCommand(s))
  {
    if !SetupOk(s) {
      SetupErrorGood(s);
    } else {
      SetupTransfers(s);
      if DirIn(s.cbw) { MemoryReadGood(Setup(s).(stage := DataIn)); } else { StallCswGood(Setup(s), Out, PhaseError); }
    }
  }

  lemma WriteCommandGood(s: State)
    requires Begun(s) && IsWrite(s.cbw)
    ensures Good(WriteCommand(s))
  {
    if !SetupOk(s) {
      SetupErrorGood(s);
    } else {
      SetupTransfers(s);
      if DirIn(s.cbw) { StallCswGood(Setup(s), In, PhaseError); }
    }
  }

  lemma VerifyCommandGood(s: State)
    requires Begun(s) && Opcode(s.cbw) == VERIFY10
    ensures Good(VerifyCommand(s))
  {
    if !ByteCheck(s.cbw) {
      SetCswGood(s, Passed);
    } else if !SetupOk(s) {
      SetupErrorGood(s);
    } else {
      SetupTransfers(s);
      if DirIn(s.cbw) { StallCswGood(Setup(s), In, PhaseError); }
    }
  }

  lemma TestUnitReadyGood(s: State)
    requires Begun(s)
    ensures Good(TestUnitReady(s))
  {
    var dir := if DirIn(s.cbw) then In else Out;
    ScanLogged(s, Stalled(dir));
    SetCswGood(if Length(s.cbw) != 0 then Logged(s, Stalled(dir)) else s, Outcome(s.sense != RESET_OCCURRED));
  }

  lemma ParseGood(s: State)
    requires Begun(s)
    ensures Good(Parse(s))
  {
    var op := Opcode(s.cbw);
    if op == TEST_UNIT_READY {
      TestUnitReadyGood(s);
    } else if op == REQUEST_SENSE {
      if FormatOk(s) { TransferGood(s.(sense := NO_SENSE), SenseReply(s.sense)); } else { FormatErrorGood(s); }
    } else if op == INQUIRY {
      ReplyGood(s, INQUIRY_REPLY);
    } else if op == MODE_SENSE6 {
      ReplyGood(s, Modes6(s.readOnly));
    } else if op == MODE_SENSE10 {
      ReplyGood(s, MODES10);
    } else if op == READ_FORMAT_CAPACITIES {
      ReplyGood(s, FormatCapacityReply());
    } else if op == READ_CAPACITY {
      ReplyGood(s, CapacityReply());
    } else if IsRead(s.cbw) {
      ReadCommandGood(s);
    } else if IsWrite(s.cbw) {
      WriteCommandGood(s);
    } else if op == VERIFY10 {
      VerifyCommandGood(s);
    } else {
      SetCswGood(s.(sense := INVALID_FIELD_IN_CDB), Failed);
    }
  }

  lemma AcceptGood(s: State)
    requires Scan(Idle, s.log) == Idle
    ensures Begun(Accept(s))
  {
    ScanLogged(s.(csw := s.csw.(tag := Tag(s.cbw), residue := Length(s.cbw))), Accepted(Tag(s.cbw), Length(s.cbw)));
  }

  lemma InvalidGood(s: State)
    requires Scan(Idle, s.log) == Idle
    ensures Good(Logged(Logged(s, Stalled(In)), Stalled(Out)).(stage := Fault))
  {
    ScanLogged(s, Stalled(In));
    ScanLogged(Logged(s, Stalled(In)), Stalled(Out));
  }

  lemma GetCbwGood(s: State, p: seq<Byte>)
    requires s.stage == AwaitCbw && Good(s) && |p| <= CBW_BYTES
    ensures Good(GetCbw(s, p))
  {
    var s0 := s.(cbw := Overlaid(s.cbw, p));
    if ValidCbw(p) {
      var s1 := Accept(s0);
      AcceptGood(s0);
      if GoodLun(s1.cbw) { ParseGood(s1); } else { SetCswGood(s1.(sense := LUN_NOT_SUPPORTED), Failed); }
    } else {
      InvalidGood(s0);
    }
  }

  lemma BulkInGood(s: State)
    requires Good(s)
    ensures Good(BulkIn(s))
  {
    match s.stage
    case DataIn => MemoryReadGood(s);
    case DataInLast => SetCswGood(s, s.csw.status);
    case DataInLastStall => StallCswGood(s, In, s.csw.status);
    case _ =>
  }

  /** An OUT packet keeps the invariant exactly if no report waits and the last command block was valid; else it
      draws a report that belongs to no command. */
  lemma BulkOutGood(s: State, p: seq<Byte>)
    requires Good(s) && Fits(s, p)
    ensures Good(BulkOut(s, p)) <==> Listens(s)
    ensures !Listens(s) ==> Scan(Idle, BulkOut(s, p).log) == Broken
  {
    if s.stage == AwaitCbw {
      GetCbwGood(s, p);
    } else if s.stage != DataOut {
      PhaseErrorGood(s);
    } else if IsWrite(s.cbw) {
      MemoryWriteGood(s, p);
    } else {
      MemoryVerifyGood(s, p);
    }
  }

  lemma PhaseErrorGood(s: State)
    requires Good(s) && s.stage != DataOut && s.stage != AwaitCbw
    ensures Listens(s) ==> Good(StallCsw(s, Out, PhaseError))
    ensures !Listens(s) ==> Scan(Idle, StallCsw(s, Out, PhaseError).log) == Broken
  {
    if Listens(s) {
      StallCswGood(s, Out, PhaseError);
    } else {
      var s1 := Logged(s, Stalled(Out));
      var c := s.csw.(status := PhaseError);
      ScanLogged(s, Stalled(Out));
      ScanLogged(s1.(csw := c, stage := AwaitCsw), Reported(c));
    }
  }

  lemma {:induction false} RunGood(s: State, ins: seq<Input>)
    requires Good(s) && Conforming(s, ins)
    ensures Good(Exec(s, ins))
    decreases |ins|
  {
    if ins != [] {
      match ins[0]
      case HostIn =>
        BulkInGood(s);
        RunGood(BulkIn(s), ins[1..]);
      case HostOut(p) =>
        BulkOutGood(s, p);
        RunGood(BulkOut(s, p), ins[1..]);
    }
  }

  // --------------------------------------------------------------- one report each

  function Reports(log: seq<Event>): seq<Csw>
  {
    if log == [] then []
    else
      var e := log[|log| - 1];
      Reports(log[..|log| - 1]) + (if e.Reported? then [e.csw] else [])
  }

  /** The data bytes in a part of a log. */
  function Moved(log: seq<Event>): nat
  {
    if log == [] then 0
    else
      var e := log[|log| - 1];
      Moved(log[..|log| - 1]) + (match e case Sent(d) => |d| case Got(d) => |d| case _ => 0)
  }

  ghost predicate NoneAccepted(log: seq<Event>)
  {
    forall i :: 0 <= i < |log| ==> !log[i].Accepted?
  }

  lemma {:induction false} ScanPart(ph: Phase, log: seq<Event>)
    requires ph.Open? && NoneAccepted(log) && Scan(ph, log) != Broken
    ensures Scan(ph, log).Open? ==> Reports(log) == [] && Scan(ph, log) == ph.(moved := ph.moved + Moved(log))
    ensures Scan(ph, log).Idle? ==>
      |Reports(log)| == 1 && Honest(ph.(moved := ph.moved + Moved(log)), Reports(log)[0])
  {
    if log != [] {
      ScanPart(ph, log[..|log| - 1]);
    }
  }

  /** In every run from power-on, between a valid command block and the next one accepted there is
      exactly one report. It carries the tag, and if it says passed, its residue is the announced
      length less the bytes that were moved. */
  lemma OneHonestReport(s: State, ins: seq<Input>, i: nat, j: nat)
    requires s.stage == AwaitCbw && s.log == [] && Conforming(s, ins)
    requires var log := Exec(s, ins).log;
      i < j < |log| && log[i].Accepted? && log[j].Accepted? && NoneAccepted(log[i + 1..j])
    ensures var log := Exec(s, ins).log; var part := log[i + 1..j];
      && |Reports(part)| == 1 && Reports(part)[0].tag == log[i].tag
      && (Reports(part)[0].status == Passed ==> Reports(part)[0].residue == log[i].length - Moved(part))
  {
    RunGood(s, ins);
    Consecutive(Exec(s, ins).log, i, j);
  }

  lemma Consecutive(log: seq<Event>, i: nat, j: nat)
    requires Scan(Idle, log) != Broken
    requires i < j < |log| && log[i].Accepted? && log[j].Accepted? && NoneAccepted(log[i + 1..j])
    ensures var part := log[i + 1..j];
      |Reports(part)| == 1 && Honest(Open(log[i].tag, log[i].length, Moved(part)), Reports(part)[0])
  {
    NotBroken(log, j + 1);
    NotBroken(log, i + 1);
    assert log[..j + 1][..j] == log[..j] && log[..i + 1][..i] == log[..i];
    assert log[..j] == log[..i + 1] + log[i + 1..j];
    ScanConcat(Idle, log[..i + 1], log[i + 1..j]);
    ScanPart(Open(log[i].tag, log[i].length, 0), log[i + 1..j]);
  }

  lemma {:induction false} BrokenStays(log: seq<Event>)
    ensures Scan(Broken, log) == Broken
  {
    if log != [] { BrokenStays(log[..|log| - 1]); }
  }

  lemma NotBroken(log: seq<Event>, n: nat)
    requires Scan(Idle, log) != Broken && n <= |log|
    ensures Scan(Idle, log[..n]) != Broken
  {
    assert log == log[..n] + log[n..];
    ScanConcat(Idle, log[..n], log[n..]);
    BrokenStays(log[n..]);
  }
}
