/**
 Whole READ, WRITE and VERIFY commands: from the command block to the report, packet by packet,
 and what they read from the disk or leave on it.
 */
module MassCommands {
  import opened Words
  import opened DiskSpec
  import opened MassSpec
  import opened MassRuns

  lemma ReplySense(s: State, reply: seq<Byte>)
    requires |reply| <= 64
    ensures Reply(s, reply).sense == s.sense
  {
  }

  lemma MoveSense(s: State)
    ensures ReadCommand(s).sense == s.sense && WriteCommand(s).sense == s.sense && VerifyCommand(s).sense == s.sense
  {
  }

  lemma ParseSense(s: State)
    requires s.sense != OUT_OF_RANGE
    ensures Parse(s).sense != OUT_OF_RANGE
  {
    var op := Opcode(s.cbw);
    if op == INQUIRY {
      ReplySense(s, INQUIRY_REPLY);
    } else if op == MODE_SENSE6 {
      ReplySense(s, Modes6(s.readOnly));
    } else if op == MODE_SENSE10 {
      ReplySense(s, MODES10);
    } else if op == READ_FORMAT_CAPACITIES {
      ReplySense(s, FormatCapacityReply());
    } else if op == READ_CAPACITY {
      ReplySense(s, CapacityReply());
    } else if op == REQUEST_SENSE {
      ReplySense(s.(sense := NO_SENSE), SenseReply(s.sense));
      assert Parse(s) == if FormatOk(s) then Transfer(s.(sense := NO_SENSE), SenseReply(s.sense)) else FormatError(s);
    } else {
      MoveSense(s);
    }
  }

  lemma StepSense(s: State, i: Input)
    requires s.sense != OUT_OF_RANGE && (i.HostOut? ==> MayCome(s, i.p))
    ensures (if i.HostOut? then BulkOut(s, i.p) else BulkIn(s)).sense != OUT_OF_RANGE
  {
    if i.HostOut? && s.stage == AwaitCbw {
      ParseSense(Accept(s.(cbw := Overlaid(s.cbw, i.p))));
    }
  }

  /** The one sense that would stall a data phase is never set, in any run. */
  lemma {:induction false} NeverOutOfRange(s: State, ins: seq<Input>)
    requires s.sense != OUT_OF_RANGE && Conforming(s, ins)
    ensures Exec(s, ins).sense != OUT_OF_RANGE
    decreases |ins|
  {
    if ins != [] {
      StepSense(s, ins[0]);
      NeverOutOfRange(if ins[0].HostOut? then BulkOut(s, ins[0].p) else BulkIn(s), ins[1..]);
    }
  }

  /** A valid command block for the transfer of n blocks from block lba on, inside the disk. */
  ghost predicate Transfers(p: seq<Byte>, lba: nat, n: nat)
  {
    && ValidCbw(p) && GoodLun(p) && 1 <= n && lba + n <= TOTAL
    && Lba(p) == lba && Blocks(p) == n && Length(p) == 512 * n
  }

  /** Between commands. Something may be there to complain about, but never a range: see NeverOutOfRange. */
  ghost predicate Ready(s: State)
  {
    s.stage == AwaitCbw && s.sense != OUT_OF_RANGE && Sound(s.store.disk)
  }

  /** Nothing to complain about. */
  predicate Clear(s: State) { s.sense == NO_SENSE }

  /** The packets from k on, as n events. */
  function SentFrom(d: Disk, k: nat, n: nat): (es: seq<Event>)
    requires Sound(d) && k + n <= PACKETS
    ensures |es| == n && forall i :: 0 <= i < n ==> es[i] == Sent(ReadPacket(d, k + i))
    decreases n
  {
    if n == 0 then [] else [Sent(ReadPacket(d, k))] + SentFrom(d, k + 1, n - 1)
  }

  function GotAll(ps: seq<Packet>): (es: seq<Event>)
    ensures |es| == |ps| && forall i :: 0 <= i < |ps| ==> es[i] == Got(ps[i])
  {
    if ps == [] then [] else [Got(ps[0])] + GotAll(ps[1..])
  }

  function Takes(n: nat): (ins: seq<Input>)
    ensures |ins| == n
  {
    if n == 0 then [] else [HostIn] + Takes(n - 1)
  }

  function Gives(ps: seq<Packet>): (ins: seq<Input>)
    ensures |ins| == |ps|
  {
    if ps == [] then [] else [HostOut(ps[0])] + Gives(ps[1..])
  }

  // --------------------------------------------------------------------- transfers

  /** n packets are to come, the first of them number k of the disk. */
  ghost predicate Underway(s: State, k: nat, n: nat)
  {
    && s.sense != OUT_OF_RANGE && Sound(s.store.disk) && 1 <= n && k + n <= PACKETS
    && s.store.ofs == 64 * k && s.store.left == 64 * n && s.csw.residue == ResidueAt(s, n)
  }

  /** The residue with n packets to come: it follows them unless there is something to complain about. */
  function ResidueAt(s: State, n: nat): Word
    requires n <= PACKETS
  {
    if Clear(s) then 64 * n else s.csw.residue
  }

  /** The state after the first of n packets. */
  function Moved1(s: State, d: Disk, k: nat, n: nat, e: Event): State
    requires 1 <= n && k + n <= PACKETS
  {
    s.(store := Store(d, 64 * (k + 1), 64 * (n - 1)), csw := s.csw.(residue := ResidueAt(s, n - 1)), log := s.log + [e])
  }

  /** The state after all n packets. */
  function After(s: State, d: Disk, k: nat, n: nat, es: seq<Event>): State
    requires k + n <= PACKETS
  {
    s.(store := Store(d, 64 * (k + n), 0), csw := s.csw.(residue := ResidueAt(s, 0)), log := s.log + es)
  }

  lemma AfterMoved(s: State, d1: Disk, d: Disk, k: nat, n: nat, e: Event, es: seq<Event>)
    requires 1 <= n && k + n <= PACKETS
    ensures After(Moved1(s, d1, k, n, e), d, k + 1, n - 1, es) == After(s, d, k, n, [e] + es)
    ensures n == 1 ==> Moved1(s, d, k, n, e) == After(s, d, k, n, [e])
  {
    assert (s.log + [e]) + es == s.log + ([e] + es);
  }

  lemma ExecTake(s: State, n: nat)
    requires Conforming(BulkIn(s), Takes(n))
    ensures Conforming(s, Takes(n + 1)) && Exec(s, Takes(n + 1)) == Exec(BulkIn(s), Takes(n))
  {
    assert Takes(n + 1)[1..] == Takes(n);
  }

  lemma ExecGive(s: State, ps: seq<Packet>)
    requires ps != [] && MayCome(s, ps[0]) && Conforming(BulkOut(s, ps[0]), Gives(ps[1..]))
    ensures Conforming(s, Gives(ps)) && Exec(s, Gives(ps)) == Exec(BulkOut(s, ps[0]), Gives(ps[1..]))
  {
    assert Gives(ps)[1..] == Gives(ps[1..]);
  }

  lemma ExecNothing(s: State)
    ensures Conforming(s, []) && Exec(s, []) == s
  {
  }

  function LastSent(s: State): State { s.(stage := DataInLast, csw := s.csw.(status := Outcome(Clear(s)))) }

  lemma ReadStep(s: State, k: nat, n: nat)
    requires s.stage == DataIn && Underway(s, k, n)
    ensures var s1 := Moved1(s, s.store.disk, k, n, Sent(ReadPacket(s.store.disk, k)));
      MemoryRead(s) == if n > 1 then s1 else LastSent(s1)
  {
  }

  /** All packets of a READ, once its first one is due. */
  lemma {:induction false} ReadAll(s: State, k: nat, n: nat)
    requires s.stage == DataIn && IsRead(s.cbw) && Underway(s, k, n)
    ensures Conforming(MemoryRead(s), Takes(n - 1))
    ensures Exec(MemoryRead(s), Takes(n - 1)) ==
      LastSent(After(s, s.store.disk, k, n, SentFrom(s.store.disk, k, n)))
    decreases n
  {
    var d, e := s.store.disk, Sent(ReadPacket(s.store.disk, k));
    ReadStep(s, k, n);
    AfterMoved(s, d, d, k, n, e, SentFrom(d, k + 1, n - 1));
    if n > 1 {
      var s1 := Moved1(s, d, k, n, e);
      ReadAll(s1, k + 1, n - 1);
      ExecTake(s1, n - 2);
    } else {
      assert SentFrom(d, k + 1, 0) == [] && [e] + [] == [e];
      ExecNothing(MemoryRead(s));
    }
  }

  /** The last packet taken, the report, and its taking. */
  lemma Finish(s: State)
    requires s.stage == DataInLast
    ensures Conforming(s, Takes(2)) && Exec(s, Takes(2)) == s.(stage := AwaitCbw, log := s.log + [Reported(s.csw)])
  {
    assert Takes(2)[1..] == Takes(1) && Takes(1)[1..] == Takes(0);
    var s1 := SetCsw(s, s.csw.status);
    assert s1 == s.(stage := AwaitCsw, log := s.log + [Reported(s.csw)]);
    assert Conforming(BulkIn(s1), []);
    assert Conforming(s1, Takes(1)) && Exec(s1, Takes(1)) == BulkIn(s1);
  }

  /** The command block accepted and the storage told. */
  function Started(s: State, p: Cbw, lba: nat, n: nat): State
    requires lba + n <= TOTAL
  {
    s.(cbw := p, csw := s.csw.(tag := Tag(p), residue := 512 * n), log := s.log + [Accepted(Tag(p), 512 * n)],
       store := Store(s.store.disk, 512 * lba, 512 * n))
  }

  /** How a command block for a transfer is taken. */
  lemma TakenUp(s: State, p: seq<Byte>, lba: nat, n: nat)
    requires Ready(s) && Transfers(p, lba, n)
    ensures MayCome(s, p) && BulkOut(s, p) == Parse(Accept(s.(cbw := p)))
  {
    assert Overlaid(s.cbw, p) == p;
  }

  lemma NoWrap(n: nat)
    requires n <= TOTAL
    ensures 512 * n % M32 == 512 * n
  {
  }

  lemma SetUp(s: State, p: seq<Byte>, lba: nat, n: nat)
    requires Transfers(p, lba, n)
    ensures var s1 := Accept(s.(cbw := p)); Setup(s1) == Started(s, p, lba, n) && SetupOk(s1)
  {
    NoWrap(lba);
    NoWrap(n);
  }

  lemma StartedUnderway(s: State, p: Cbw, lba: nat, n: nat)
    requires Ready(s) && 1 <= n && lba + n <= TOTAL
    ensures Underway(Started(s, p, lba, n), 8 * lba, 8 * n)
  {
  }

  /** What a whole command leaves behind: the log, the report taken, the storage. */
  ghost predicate Done(s: State, s': State, p: seq<Byte>, n: nat, es: seq<Event>, status: Status)
  {
    && |p| == CBW_BYTES && n <= TOTAL && s'.stage == AwaitCbw && s'.sense == s.sense
    && s'.log == s.log + [Accepted(Tag(p), 512 * n)] + es +
      [Reported(Csw(Tag(p), if Clear(s) then 0 else 512 * n, status))]
  }

  lemma ReadTail(s: State, k: nat, n: nat)
    requires s.stage == DataIn && IsRead(s.cbw) && Underway(s, k, n)
    ensures var c := s.csw.(residue := ResidueAt(s, 0), status := Outcome(Clear(s)));
      && Conforming(MemoryRead(s), Takes(n + 1))
      && Exec(MemoryRead(s), Takes(n + 1)) == After(s, s.store.disk, k, n, SentFrom(s.store.disk, k, n) + [Reported(c)])
                                              .(stage := AwaitCbw, csw := c)
  {
    ReadAll(s, k, n);
    Finish(Exec(MemoryRead(s), Takes(n - 1)));
    ExecConcat(MemoryRead(s), Takes(n - 1), Takes(2));
    TakesAdd(n - 1, 2);
    var es, c := SentFrom(s.store.disk, k, n), s.csw.(residue := ResidueAt(s, 0), status := Outcome(Clear(s)));
    assert (s.log + es) + [Reported(c)] == s.log + (es + [Reported(c)]);
  }

  lemma ReadStarts(s: State, p: seq<Byte>, lba: nat, n: nat, ins: seq<Input>)
    requires Ready(s) && Transfers(p, lba, n) && IsRead(p) && DirIn(p)
    requires Conforming(MemoryRead(Started(s, p, lba, n).(stage := DataIn)), ins)
    ensures Conforming(s, [HostOut(p)] + ins)
    ensures Exec(s, [HostOut(p)] + ins) == Exec(MemoryRead(Started(s, p, lba, n).(stage := DataIn)), ins)
  {
    TakenUp(s, p, lba, n);
    SetUp(s, p, lba, n);
    Cons(s, HostOut(p), ins);
  }

  /** READ10 and READ12 deliver exactly the blocks asked for, and then report: success, unless there was
      something to complain about. The disk stays. */
  lemma ReadDelivers(s: State, p: seq<Byte>, lba: nat, n: nat)
    requires Ready(s) && Transfers(p, lba, n) && IsRead(p) && DirIn(p)
    ensures Conforming(s, [HostOut(p)] + Takes(8 * n + 1))
    ensures var s' := Exec(s, [HostOut(p)] + Takes(8 * n + 1));
      Done(s, s', p, n, SentFrom(s.store.disk, 8 * lba, 8 * n), Outcome(Clear(s))) && s'.store.disk == s.store.disk
  {
    StartedUnderway(s, p, lba, n);
    ReadTail(Started(s, p, lba, n).(stage := DataIn), 8 * lba, 8 * n);
    ReadWith(s, p, lba, n, Takes(8 * n + 1));
  }

  lemma {:induction false} TakesAdd(m: nat, n: nat)
    ensures Takes(m) + Takes(n) == Takes(m + n)
  {
    if m > 0 {
      TakesAdd(m - 1, n);
    }
  }

  lemma ReadWith(s: State, p: seq<Byte>, lba: nat, n: nat, ins: seq<Input>)
    requires Ready(s) && Transfers(p, lba, n) && IsRead(p) && DirIn(p)
    requires var s0 := Started(s, p, lba, n).(stage := DataIn);
             var c := s0.csw.(residue := ResidueAt(s0, 0), status := Outcome(Clear(s0)));
      Underway(s0, 8 * lba, 8 * n) && Conforming(MemoryRead(s0), ins)
      && Exec(MemoryRead(s0), ins)
         == After(s0, s0.store.disk, 8 * lba, 8 * n, SentFrom(s0.store.disk, 8 * lba, 8 * n) + [Reported(c)])
            .(stage := AwaitCbw, csw := c)
    ensures Conforming(s, [HostOut(p)] + ins)
    ensures var s' := Exec(s, [HostOut(p)] + ins);
      Done(s, s', p, n, SentFrom(s.store.disk, 8 * lba, 8 * n), Outcome(Clear(s))) && s'.store.disk == s.store.disk
  {
    ReadStarts(s, p, lba, n, ins);
  }

  lemma Cons(s: State, i: Input, ins: seq<Input>)
    requires i.HostOut? && MayCome(s, i.p) && Conforming(BulkOut(s, i.p), ins)
    ensures Conforming(s, [i] + ins) && Exec(s, [i] + ins) == Exec(BulkOut(s, i.p), ins)
  {
    assert ([i] + ins)[1..] == ins;
  }

  // ------------------------------------------------------------------------- WRITE

  lemma WriteStep(s: State, k: nat, n: nat, p: Packet)
    requires s.stage == DataOut && IsWrite(s.cbw) && Underway(s, k, n)
    ensures var s1 := Moved1(s, WritePacket(s.store.disk, k, p), k, n, Got(p));
      BulkOut(s, p) == if n > 1 then s1 else SetCsw(s1, Outcome(Clear(s)))
  {
  }

  lemma {:induction false} WriteAllPackets(s: State, k: nat, ps: seq<Packet>)
    requires s.stage == DataOut && IsWrite(s.cbw) && Underway(s, k, |ps|)
    ensures Conforming(s, Gives(ps))
    ensures Exec(s, Gives(ps)) ==
            SetCsw(After(s, WriteAll(s.store.disk, k, ps), k, |ps|, GotAll(ps)), Outcome(Clear(s)))
    decreases |ps|
  {
    var n, p, rest := |ps|, ps[0], ps[1..];
    WriteOne(s, k, n, p, rest);
    if n > 1 {
      WriteAllPackets(BulkOut(s, p), k + 1, rest);
    } else {
      ExecNothing(BulkOut(s, p));
    }
    ExecGive(s, ps);
  }

  /** The first of n packets, and what it means for the state after all of them. */
  lemma WriteOne(s: State, k: nat, n: nat, p: Packet, rest: seq<Packet>)
    requires s.stage == DataOut && IsWrite(s.cbw) && Underway(s, k, n) && n == 1 + |rest|
    ensures var d1 := WritePacket(s.store.disk, k, p); var s1 := BulkOut(s, p); var d := WriteAll(d1, k + 1, rest);
      if n > 1 then
        && s1.stage == DataOut && IsWrite(s1.cbw) && Underway(s1, k + 1, n - 1) && s1.sense == s.sense
          && s1.store.disk == d1
        && After(s1, d, k + 1, n - 1, GotAll(rest)) == After(s, d, k, n, [Got(p)] + GotAll(rest))
      else
        d == d1 && s1 == SetCsw(After(s, d1, k, 1, [Got(p)] + GotAll(rest)), Outcome(Clear(s)))
  {
    WriteStep(s, k, n, p);
    var d1 := WritePacket(s.store.disk, k, p);
    AfterMoved(s, d1, WriteAll(d1, k + 1, rest), k, n, Got(p), GotAll(rest));
    if n > 1 {
    } else {
      assert GotAll(rest) == [] && [Got(p)] + [] == [Got(p)];
    }
  }

  /** The report taken. */
  lemma TakeReport(s: State)
    requires s.stage == AwaitCsw
    ensures Conforming(s, Takes(1)) && Exec(s, Takes(1)) == s.(stage := AwaitCbw)
  {
    assert Takes(1)[1..] == [];
    assert Conforming(BulkIn(s), []);
  }

  /** WRITE10 and WRITE12 leave the packets on the disk, and nothing else, and report likewise. */
  lemma WriteStores(s: State, p: seq<Byte>, lba: nat, n: nat, ps: seq<Packet>)
    requires Ready(s) && Transfers(p, lba, n) && IsWrite(p) && !DirIn(p) && |ps| == 8 * n
    ensures Conforming(s, [HostOut(p)] + (Gives(ps) + Takes(1)))
    ensures var s' := Exec(s, [HostOut(p)] + (Gives(ps) + Takes(1)));
      Done(s, s', p, n, GotAll(ps), Outcome(Clear(s))) && s'.store.disk == WriteAll(s.store.disk, 8 * lba, ps)
  {
    TakenUp(s, p, lba, n);
    SetUp(s, p, lba, n);
    StartedUnderway(s, p, lba, n);
    var s1 := Started(s, p, lba, n).(stage := DataOut);
    assert BulkOut(s, p) == s1;
    WriteAllPackets(s1, 8 * lba, ps);
    TakeReport(Exec(s1, Gives(ps)));
    ExecConcat(s1, Gives(ps), Takes(1));
    Cons(s, HostOut(p), Gives(ps) + Takes(1));
  }

  // ------------------------------------------------------------------------ VERIFY

  /** The packets are the ones on the disk. */
  predicate Matches(d: Disk, k: nat, ps: seq<Packet>)
    requires Sound(d) && k + |ps| <= PACKETS
  {
    forall i :: 0 <= i < |ps| ==> ReadPacket(d, k + i) == ps[i]
  }

  lemma VerifyStep(s: State, k: nat, n: nat, p: Packet)
    requires s.stage == DataOut && Opcode(s.cbw) == VERIFY10 && Underway(s, k, n)
    ensures var s1 := Moved1(s.(memOk := s.memOk && ReadPacket(s.store.disk, k) == p), s.store.disk, k, n, Got(p));
      BulkOut(s, p) == if n > 1 then s1 else SetCsw(s1.(memOk := s1.memOk && Clear(s)), Outcome(s1.memOk && Clear(s)))
  {
  }

  lemma {:induction false} VerifyAllPackets(s: State, k: nat, ps: seq<Packet>)
    requires s.stage == DataOut && Opcode(s.cbw) == VERIFY10 && Underway(s, k, |ps|)
    ensures Conforming(s, Gives(ps))
    ensures var ok := s.memOk && Matches(s.store.disk, k, ps) && Clear(s);
      Exec(s, Gives(ps)) == SetCsw(After(s.(memOk := ok), s.store.disk, k, |ps|, GotAll(ps)), Outcome(ok))
    decreases |ps|
  {
    var n, p, rest, d := |ps|, ps[0], ps[1..], s.store.disk;
    MatchesCons(d, k, ps);
    VerifyOne(s, k, n, p, rest, s.memOk && Matches(d, k, ps) && Clear(s));
    if n > 1 {
      VerifyAllPackets(BulkOut(s, p), k + 1, rest);
    } else {
      ExecNothing(BulkOut(s, p));
    }
    ExecGive(s, ps);
  }

  /** The first of n packets, and what it means for the state after all of them, with verdict `all`. */
  lemma VerifyOne(s: State, k: nat, n: nat, p: Packet, rest: seq<Packet>, all: bool)
    requires s.stage == DataOut && Opcode(s.cbw) == VERIFY10 && Underway(s, k, n) && n == 1 + |rest|
    ensures var d := s.store.disk; var s1 := BulkOut(s, p); var ok := s.memOk && ReadPacket(d, k) == p;
      if n > 1 then
        && s1.stage == DataOut && Opcode(s1.cbw) == VERIFY10 && Underway(s1, k + 1, n - 1)
        && s1.memOk == ok && s1.sense == s.sense && s1.store.disk == d
        && After(s1.(memOk := all), d, k + 1, n - 1, GotAll(rest)) ==
          After(s.(memOk := all), d, k, n, [Got(p)] + GotAll(rest))
      else
        s1 == SetCsw(After(s.(memOk := ok && Clear(s)), d, k, 1, [Got(p)] + GotAll(rest)), Outcome(ok && Clear(s)))
  {
    VerifyStep(s, k, n, p);
    var d, ok := s.store.disk, s.memOk && ReadPacket(s.store.disk, k) == p;
    if n > 1 {
      AfterMoved(s.(memOk := all), d, d, k, n, Got(p), GotAll(rest));
    } else {
      AfterMoved(s.(memOk := ok && Clear(s)), d, d, k, n, Got(p), GotAll(rest));
      assert GotAll(rest) == [] && [Got(p)] + [] == [Got(p)];
    }
  }

  lemma MatchesCons(d: Disk, k: nat, ps: seq<Packet>)
    requires Sound(d) && k + |ps| <= PACKETS && ps != []
    ensures Matches(d, k, ps) <==> ReadPacket(d, k) == ps[0] && Matches(d, k + 1, ps[1..])
  {
    if Matches(d, k, ps) {
      forall i | 0 <= i < |ps| - 1
        ensures ReadPacket(d, k + 1 + i) == ps[1..][i]
      {
        assert ReadPacket(d, k + (i + 1)) == ps[i + 1];
      }
    }
    if ReadPacket(d, k) == ps[0] && Matches(d, k + 1, ps[1..]) {
      forall i | 0 <= i < |ps|
        ensures ReadPacket(d, k + i) == ps[i]
      {
        if i > 0 { assert ReadPacket(d, k + 1 + (i - 1)) == ps[1..][i - 1]; }
      }
    }
  }

  /** VERIFY10 with byte check reports success exactly if the disk holds the packets and there is nothing
      to complain about; it changes nothing. */
  lemma VerifyCompares(s: State, p: seq<Byte>, lba: nat, n: nat, ps: seq<Packet>)
    requires Ready(s) && Transfers(p, lba, n) && Opcode(p) == VERIFY10 && ByteCheck(p) && !DirIn(p) && |ps| == 8 * n
    ensures Conforming(s, [HostOut(p)] + (Gives(ps) + Takes(1)))
    ensures var s' := Exec(s, [HostOut(p)] + (Gives(ps) + Takes(1)));
      && Done(s, s', p, n, GotAll(ps), Outcome(Clear(s) && Matches(s.store.disk, 8 * lba, ps)))
      && s'.store.disk == s.store.disk
  {
    TakenUp(s, p, lba, n);
    SetUp(s, p, lba, n);
    StartedUnderway(s, p, lba, n);
    var s1 := Started(s, p, lba, n).(stage := DataOut, memOk := true);
    assert BulkOut(s, p) == s1;
    VerifyAllPackets(s1, 8 * lba, ps);
    TakeReport(Exec(s1, Gives(ps)));
    ExecConcat(s1, Gives(ps), Takes(1));
    Cons(s, HostOut(p), Gives(ps) + Takes(1));
  }

  // --------------------------------------------------------- what was written is read

  lemma {:induction false} WrittenReads(d: Disk, k: nat, ps: seq<Packet>, j: nat)
    requires Sound(d) && Undoes(d.coder) && k + |ps| <= PACKETS && j < PACKETS
    ensures ReadPacket(WriteAll(d, k, ps), j) ==
      if k <= j < k + |ps| && Visible(d.imageSize, j) then ps[j - k] else ReadPacket(d, j)
    decreases |ps|
  {
    if ps != [] {
      WriteRead(d, k, ps[0], j);
      WrittenReads(WritePacket(d, k, ps[0]), k + 1, ps[1..], j);
    }
  }

  /** After a WRITE a VERIFY of the same packets passes if and only if all of them are either visible
      on the disk or zero. */
  lemma WrittenVerifies(d: Disk, k: nat, ps: seq<Packet>)
    requires Sound(d) && Undoes(d.coder) && k + |ps| <= PACKETS
    ensures Matches(WriteAll(d, k, ps), k, ps) <==>
      forall i :: 0 <= i < |ps| ==> Visible(d.imageSize, k + i) || ps[i] == Zeros()
  {
    forall i | 0 <= i < |ps|
      ensures ReadPacket(WriteAll(d, k, ps), k + i) == if Visible(d.imageSize, k + i) then ps[i] else Zeros()
    {
      WrittenReads(d, k, ps, k + i);
      if !Visible(d.imageSize, k + i) { InvisibleReadsZero(d, k + i); }
    }
  }
}
