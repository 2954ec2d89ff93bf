/**
 The mass-storage class (usb/class/msclass.cpp) on the emulated disk: bulk packets, the command
 parser and the transfers, as they update the fields of the device.
 */
module MassStorage {
  import opened Words
  import opened DiskSpec
  import opened Fat12
  import opened MassSpec

  /** A WRITE that moves packets names blocks of the disk; so do READ and VERIFY, unless the image ends inside the
      disk. */
  predicate RangeOk(p: seq<Byte>, imageSize: Word)
  {
    ValidCbw(p) && Moves(p) ==> Lba(p) + Blocks(p) <= TOTAL || (!IsWrite(p) && imageSize <= IMAGE_BYTES)
  }

  /** What is still to be transferred lies inside the disk, or is read and zero behind it. */
  predicate Reach(t: Store, writes: bool)
  {
    && t.ofs % 64 == 0 && t.left % 64 == 0 && 0 < t.left
    && (t.ofs + t.left <= 65536 || (!writes && t.disk.imageSize <= IMAGE_BYTES))
  }

  predicate InReach(s: State)
  {
    s.stage == DataIn || s.stage == DataOut ==> Reach(s.store, IsWrite(s.cbw))
  }

  lemma ReachStep(t: Store, writes: bool)
    requires Reach(t, writes)
    ensures Minus(t.left, 64) == t.left - 64
    ensures Inside(t) || (t.ofs % 64 == 0 && !writes && t.disk.imageSize <= IMAGE_BYTES)
    ensures t.left != 64 ==> Reach(Advanced(t), writes)
  {
  }

  lemma ReachSetup(s: State, p: Cbw)
    requires s.cbw == p && RangeOk(p, s.store.disk.imageSize) && ValidCbw(p) && Moves(p)
    ensures Reach(StoreCommand(s.store, Lba(p), Blocks(p)), IsWrite(p))
  {
    WholePackets(Lba(p));
    WholePackets(Blocks(p));
    if Lba(p) + Blocks(p) <= TOTAL {
      NoWrapping(Lba(p));
      NoWrapping(Blocks(p));
    }
  }

  lemma NoWrapping(n: nat)
    requires n <= TOTAL
    ensures 512 * n % M32 == 512 * n && 512 * n % 64 == 0
  {
  }

  class MsClass {
    const mmc: Fat12Emul
    const bulkBuf: array<Byte>
    const cbw: array<Byte>
    const readOnly: bool
    var bulkLen: nat
    var stage: Stage
    var csw: Csw
    var sense: Word
    var memOk: bool
    var log: seq<Event>

    ghost predicate Valid()
      reads mmc
    {
      && mmc.Valid() && mmc.Ready() && bulkBuf.Length == 64 && cbw.Length == CBW_BYTES && bulkBuf != cbw
      && mmc.io !in {bulkBuf, cbw} && mmc.memory.image !in {bulkBuf, cbw}
    }

    ghost function View(): State
      requires Valid()
      reads this, cbw, mmc, mmc.io, mmc.memory.image
    {
      State(stage, cbw[..], csw, sense, memOk, readOnly, Store(mmc.View(), mmc.rwofs, mmc.rwlen), log)
    }

    /** Power-on. */
    constructor (mmc: Fat12Emul, readOnly: bool)
      requires mmc.Valid() && mmc.Ready()
      ensures Valid() && InReach(View()) && this.mmc == mmc && fresh(bulkBuf) && fresh(cbw)
      ensures stage == AwaitCbw && sense == RESET_OCCURRED && log == []
    {
      this.mmc, this.readOnly := mmc, readOnly;
      bulkBuf, cbw := new Byte[64](_ => 0), new Byte[CBW_BYTES](_ => 0);
      bulkLen, stage, csw, sense, memOk, log := 0, AwaitCbw, Csw(0, 0, Passed), RESET_OCCURRED, false, [];
    }

    method Record(e: Event)
      requires Valid()
      modifies `log
      ensures View() == Logged(old(View()), e)
    {
      log := log + [e];
    }

    /** A status into the CSW, and the CSW to the host. */
    method MscSetCsw(status: Status)
      requires Valid()
      modifies `csw, `stage, `log
      ensures View() == SetCsw(old(View()), status)
    {
      csw := csw.(status := status);
      stage := AwaitCsw;
      Record(Reported(csw));
    }

    method StallAndReport(dir: Direction, status: Status)
      requires Valid()
      modifies `csw, `stage, `log
      ensures View() == StallCsw(old(View()), dir, status)
    {
      Record(Stalled(dir));
      MscSetCsw(status);
    }

    /** The storage tells how much it moved. */
    method Decrease()
      requires Valid()
      modifies `csw
      ensures View() == DecResidue(old(View()))
    {
      if sense == NO_SENSE {
        csw := csw.(residue := Minus(csw.residue, 64));
      }
    }

    /** The storage's next packet into a buffer. */
    method NextPacket(buf: array<Byte>) returns (st: IOState)
      requires Valid() && InReach(View()) && (stage == DataIn || stage == DataOut)
      requires buf.Length == 64 && buf !in {cbw, mmc.io, mmc.memory.image}
      modifies buf, mmc`rwofs, mmc`rwlen
      ensures Valid() && buf[..] == StoreRead(old(View().store))
      ensures View() == old(View()).(store := Advanced(old(View().store)))
      ensures st == if mmc.rwlen == 0 then Ended else Pending
      ensures st == Pending ==> InReach(View())
    {
      ReachStep(View().store, IsWrite(cbw[..]));
      assert Sound(mmc.View());
      st := mmc.Read(buf);
    }

    /** The packet from the bulk buffer into the storage. */
    method StorePacket() returns (st: IOState)
      requires Valid() && stage == DataOut && IsWrite(cbw[..]) && InReach(View())
      modifies mmc.io, mmc.memory.image, mmc`rwofs, mmc`rwlen
      ensures Valid() && View() == old(View()).(store := StoreWritten(old(View().store), bulkBuf[..]))
      ensures st == if mmc.rwlen == 0 then Ended else Pending
      ensures st == Pending ==> InReach(View())
    {
      ReachStep(View().store, true);
      assert Sound(mmc.View());
      st := mmc.Write(bulkBuf);
    }

    method MscMemoryRead()
      requires Valid() && stage == DataIn && Reach(View().store, IsWrite(cbw[..]))
      modifies `csw, `stage, `log, bulkBuf, mmc`rwofs, mmc`rwlen
      ensures Valid() && View() == MemoryRead(old(View())) && InReach(View())
    {
      var st := NextPacket(bulkBuf);
      Decrease();
      Record(Sent(bulkBuf[..]));
      if st == Pending { return; }
      stage := DataInLast;
      if sense == OUT_OF_RANGE { stage := DataInLastStall; }
      if sense == NO_SENSE {
        csw := csw.(status := Passed);
      } else {
        csw := csw.(status := Failed);
      }
    }

    method MscMemoryWrite()
      requires Valid() && stage == DataOut && IsWrite(cbw[..]) && Reach(View().store, true)
      modifies `csw, `stage, `log, mmc.io, mmc.memory.image, mmc`rwofs, mmc`rwlen
      ensures Valid() && View() == MemoryWrite(old(View()), bulkBuf[..]) && InReach(View())
    {
      Record(Got(bulkBuf[..]));
      var st := StorePacket();
      Decrease();
      if st == Pending { return; }
      if sense == OUT_OF_RANGE { Record(Stalled(Out)); }
      if sense == NO_SENSE { MscSetCsw(Passed); } else { MscSetCsw(Failed); }
    }

    method MscMemoryVerify()
      requires Valid() && stage == DataOut && Reach(View().store, IsWrite(cbw[..]))
      modifies `csw, `stage, `log, `memOk, mmc`rwofs, mmc`rwlen
      ensures Valid() && View() == MemoryVerify(old(View()), bulkBuf[..]) && InReach(View())
    {
      var tmp := new Byte[64](_ => 0);
      Record(Got(bulkBuf[..]));
      var st := NextPacket(tmp);
      Compare(tmp);
      Decrease();
      if st == Ended { ConcludeVerify(); }
    }

    /** After the last packet to be compared. */
    method ConcludeVerify()
      requires Valid()
      modifies `csw, `stage, `log, `memOk
      ensures var s := old(View()).(memOk := old(memOk) && sense == NO_SENSE);
        View() == SetCsw(StallOutOfRange(s), Outcome(s.memOk))
    {
      if sense == OUT_OF_RANGE { Record(Stalled(Out)); }
      if sense != NO_SENSE { memOk := false; }
      if memOk { MscSetCsw(Passed); } else { MscSetCsw(Failed); }
    }

    /** The comparing loop of VERIFY. */
    method Compare(tmp: array<Byte>)
      requires Valid() && tmp.Length == 64
      modifies `memOk
      ensures memOk == (old(memOk) && tmp[..] == bulkBuf[..])
    {
      var n := 0;
      while n < 64
        invariant 0 <= n <= 64 && tmp[..n] == bulkBuf[..n] && memOk == old(memOk)
      {
        if tmp[n] != bulkBuf[n] {
          memOk := false;
          assert tmp[..][n] != bulkBuf[..][n];
          return;
        }
        n := n + 1;
      }
      assert tmp[..] == tmp[..64] && bulkBuf[..] == bulkBuf[..64];
    }

    method DataInFormat() returns (ok: bool)
      requires Valid()
      modifies `csw, `stage, `log
      ensures ok == FormatOk(old(View()))
      ensures View() == if ok then old(View()) else FormatError(old(View()))
    {
      if Load(cbw[..], 8) == 0 {
        MscSetCsw(PhaseError);
        return false;
      }
      if cbw[12] < 128 {
        StallAndReport(Out, PhaseError);
        return false;
      }
      return true;
    }

    method DataInTransfer()
      requires Valid() && bulkLen <= 64
      modifies `csw, `stage, `log, `bulkLen
      ensures View() == Transfer(old(View()), old(bulkBuf[..bulkLen]))
    {
      ghost var s, reply := View(), bulkBuf[..bulkLen];
      var length := Load(cbw[..], 8);
      if bulkLen >= length { bulkLen := length; }
      assert bulkBuf[..bulkLen] == reply[..if |reply| >= Length(s.cbw) then Length(s.cbw) else |reply|];
      stage := DataInLast;
      Record(Sent(bulkBuf[..bulkLen]));
      csw := Csw(csw.tag, Minus(csw.residue, bulkLen), Passed);
    }

    /** bytecopy into the bulk buffer. */
    method Fill(reply: seq<Byte>)
      requires Valid() && |reply| <= 64
      modifies bulkBuf, `bulkLen
      ensures bulkLen == |reply| && bulkBuf[..bulkLen] == reply
    {
      for i := 0 to |reply|
        invariant bulkBuf[..i] == reply[..i]
      {
        bulkBuf[i] := reply[i];
      }
      bulkLen := |reply|;
    }

    method SendReply(reply: seq<Byte>)
      requires Valid() && |reply| <= 64
      modifies `csw, `stage, `log, `bulkLen, bulkBuf
      ensures View() == Reply(old(View()), reply)
    {
      var ok := DataInFormat();
      if !ok { return; }
      Fill(reply);
      DataInTransfer();
    }

    method MscRequestSense()
      requires Valid()
      modifies `csw, `stage, `log, `bulkLen, `sense, bulkBuf
      ensures View() == RequestSense(old(View()))
      ensures var c := old(View()).cbw; sense == if Length(c) != 0 && DirIn(c) then 0 else old(sense)
    {
      var ok := DataInFormat();
      if !ok { return; }
      Fill(SenseReply(sense));
      sense := NO_SENSE;
      DataInTransfer();
    }

    method MscTestUnitReady()
      requires Valid()
      modifies `csw, `stage, `log
      ensures View() == TestUnitReady(old(View()))
    {
      if Load(cbw[..], 8) != 0 {
        Record(Stalled(if cbw[12] >= 128 then In else Out));
      }
      if sense == RESET_OCCURRED { MscSetCsw(Failed); } else { MscSetCsw(Passed); }
    }

    /** The checks that reading and writing share. */
    method SetupChecks() returns (ok: bool)
      requires Valid()
      modifies `csw, `stage, `log
      ensures ok == SetupOk(old(View()))
      ensures View() == if ok then old(View()) else SetupError(old(View()))
    {
      var length := Load(cbw[..], 8);
      if length == 0 {
        MscSetCsw(Failed);
        return false;
      }
      if length != 512 * Blocks(cbw[..]) % M32 {
        StallAndReport(if cbw[12] >= 128 then In else Out, Failed);
        return false;
      }
      return true;
    }

    method MscReadSetup() returns (ok: bool)
      requires Valid()
      modifies `csw, `stage, `log, mmc`rwofs, mmc`rwlen
      ensures Valid() && ok == SetupOk(old(View()))
      ensures View() == if ok then Setup(old(View())) else SetupError(old(View()))
    {
      ok := SetupChecks();
      if ok { mmc.CmdRead(Lba(cbw[..]), Blocks(cbw[..])); }
    }

    method MscWriteSetup() returns (ok: bool)
      requires Valid()
      modifies `csw, `stage, `log, mmc`rwofs, mmc`rwlen
      ensures Valid() && ok == SetupOk(old(View()))
      ensures View() == if ok then Setup(old(View())) else SetupError(old(View()))
    {
      ok := SetupChecks();
      if ok { var request := mmc.CmdWrite(Lba(cbw[..]), Blocks(cbw[..])); }
    }

    method CommandRead()
      requires Valid() && stage == AwaitCbw && ValidCbw(cbw[..]) && RangeOk(cbw[..], mmc.imageSize) && IsRead(cbw[..])
      modifies `csw, `stage, `log, bulkBuf, mmc`rwofs, mmc`rwlen
      ensures Valid() && View() == ReadCommand(old(View())) && InReach(View())
    {
      ghost var s := View();
      var ok := MscReadSetup();
      if ok {
        if cbw[12] >= 128 {
          ReachSetup(s, s.cbw);
          stage := DataIn;
          MscMemoryRead();
        } else {
          StallAndReport(Out, PhaseError);
        }
      }
    }

    method CommandWrite()
      requires Valid() && stage == AwaitCbw && ValidCbw(cbw[..]) && RangeOk(cbw[..], mmc.imageSize) && IsWrite(cbw[..])
      modifies `csw, `stage, `log, mmc`rwofs, mmc`rwlen
      ensures Valid() && View() == WriteCommand(old(View())) && InReach(View())
    {
      ghost var s := View();
      var ok := MscWriteSetup();
      if ok {
        if cbw[12] < 128 {
          ReachSetup(s, s.cbw);
          stage := DataOut;
        } else {
          StallAndReport(In, PhaseError);
        }
      }
    }

    method CommandVerify()
      requires Valid() && stage == AwaitCbw && ValidCbw(cbw[..]) && RangeOk(cbw[..], mmc.imageSize)
               && Opcode(cbw[..]) == VERIFY10
      modifies `csw, `stage, `log, `memOk, mmc`rwofs, mmc`rwlen
      ensures Valid() && View() == VerifyCommand(old(View())) && InReach(View())
    {
      ghost var s := View();
      if !ByteCheck(cbw[..]) {
        MscSetCsw(Passed);
        return;
      }
      var ok := MscReadSetup();
      if ok {
        if cbw[12] < 128 {
          ReachSetup(s, s.cbw);
          stage := DataOut;
          memOk := true;
        } else {
          StallAndReport(In, PhaseError);
        }
      }
    }

    /** The commands that are about blocks, and those that nobody knows. */
    method CommandMoves()
      requires Valid() && stage == AwaitCbw && ValidCbw(cbw[..]) && RangeOk(cbw[..], mmc.imageSize)
      requires cbw[15] !in {TEST_UNIT_READY, REQUEST_SENSE, INQUIRY, MODE_SENSE6, MODE_SENSE10, READ_FORMAT_CAPACITIES,
                            READ_CAPACITY}
      modifies `csw, `stage, `log, `memOk, `sense, bulkBuf, mmc`rwofs, mmc`rwlen
      ensures Valid() && View() == Parse(old(View())) && InReach(View())
    {
      var op := cbw[15];
      if op == READ10 || op == READ12 {
        CommandRead();
      } else if op == WRITE10 || op == WRITE12 {
        CommandWrite();
      } else if op == VERIFY10 {
        CommandVerify();
      } else {
        sense := INVALID_FIELD_IN_CDB;
        MscSetCsw(Failed);
      }
    }

    method CommandParser()
      requires Valid() && stage == AwaitCbw && ValidCbw(cbw[..]) && RangeOk(cbw[..], mmc.imageSize)
      modifies `csw, `stage, `log, `memOk, `bulkLen, `sense, bulkBuf, mmc`rwofs, mmc`rwlen
      ensures Valid() && View() == Parse(old(View())) && InReach(View())
    {
      var op := cbw[15];
      if op == TEST_UNIT_READY {
        MscTestUnitReady();
      } else if op == REQUEST_SENSE {
        MscRequestSense();
      } else if op == INQUIRY {
        SendReply(INQUIRY_REPLY);
      } else if op == MODE_SENSE6 {
        SendReply(Modes6(readOnly));
      } else if op == MODE_SENSE10 {
        SendReply(MODES10);
      } else if op == READ_FORMAT_CAPACITIES {
        SendReply(FormatCapacityReply());
      } else if op == READ_CAPACITY {
        SendReply(CapacityReply());
      } else {
        CommandMoves();
      }
    }

    /** The loop that takes the packet over into the command block. */
    method Overlay(p: seq<Byte>)
      requires Valid() && |p| <= CBW_BYTES
      modifies cbw
      ensures cbw[..] == Overlaid(old(cbw[..]), p)
    {
      for n := 0 to |p|
        invariant forall k :: 0 <= k < CBW_BYTES ==> cbw[k] == if k < n then p[k] else old(cbw[k])
      {
        cbw[n] := p[n];
      }
    }

    method MscGetCbw(p: seq<Byte>)
      requires Valid() && stage == AwaitCbw && |p| <= CBW_BYTES
      requires ValidCbw(p) && GoodLun(p) ==> RangeOk(p, mmc.imageSize)
      modifies `csw, `stage, `log, `memOk, `bulkLen, `sense, cbw, bulkBuf, mmc`rwofs, mmc`rwlen
      ensures Valid() && View() == GetCbw(old(View()), p) && InReach(View())
    {
      Overlay(p);
      if |p| == CBW_BYTES && Load(cbw[..], 0) == CBW_SIGNATURE {
        assert cbw[..] == p;
        csw := csw.(tag := Load(cbw[..], 4), residue := Load(cbw[..], 8));
        Record(Accepted(csw.tag, csw.residue));
        if cbw[13] != 0 || cbw[14] < 1 || cbw[14] > 16 {
          sense := LUN_NOT_SUPPORTED;
          MscSetCsw(Failed);
        } else {
          CommandParser();
        }
      } else {
        Record(Stalled(In));
        Record(Stalled(Out));
        stage := Fault;
      }
    }

    /** The host has taken an IN packet. */
    method HandleIn()
      requires Valid() && InReach(View())
      modifies `csw, `stage, `log, bulkBuf, mmc`rwofs, mmc`rwlen
      ensures Valid() && View() == BulkIn(old(View())) && InReach(View())
    {
      match stage
      case DataIn =>
        if cbw[15] == READ10 || cbw[15] == READ12 {
          MscMemoryRead();
        }
      case DataInLast =>
        MscSetCsw(csw.status);
      case DataInLastStall =>
        StallAndReport(In, csw.status);
      case AwaitCsw =>
        stage := AwaitCbw;
      case _ =>
    }

    /** A packet from the host. */
    method HandleOut(p: seq<Byte>)
      requires Valid() && InReach(View()) && Fits(View(), p)
      requires stage == AwaitCbw && ValidCbw(p) && GoodLun(p) ==> RangeOk(p, mmc.imageSize)
      modifies `csw, `stage, `log, `memOk, `bulkLen, `sense, cbw, bulkBuf
      modifies mmc.io, mmc.memory.image, mmc`rwofs, mmc`rwlen
      ensures Valid() && View() == BulkOut(old(View()), p) && InReach(View())
    {
      if stage == AwaitCbw {
        MscGetCbw(p);
      } else if stage != DataOut {
        StallAndReport(Out, PhaseError);
      } else {
        Fill(p);
        assert bulkBuf[..] == p;
        if cbw[15] == WRITE10 || cbw[15] == WRITE12 {
          MscMemoryWrite();
        } else if cbw[15] == VERIFY10 {
          MscMemoryVerify();
        }
      }
    }
  }
}
