/**
 The Bulk-Only state machine (usb/class/msclass.cpp) as steps on a state: what one IN or OUT
 packet does. The log records what crosses the wire and which command blocks were accepted.
 */
module MassSpec {
  import opened Words
  import opened DiskSpec

  const CBW_BYTES := 31
  const CBW_SIGNATURE: Word := 0x43425355

  const NO_SENSE: Word := 0x000000
  const RESET_OCCURRED: Word := 0x062900
  const INVALID_FIELD_IN_CDB: Word := 0x052400
  const OUT_OF_RANGE: Word := 0x052100
  const LUN_NOT_SUPPORTED: Word := 0x052500

  const TEST_UNIT_READY: Byte := 0x00
  const REQUEST_SENSE: Byte := 0x03
  const INQUIRY: Byte := 0x12
  const MODE_SENSE6: Byte := 0x1A
  const READ_FORMAT_CAPACITIES: Byte := 0x23
  const READ_CAPACITY: Byte := 0x25
  const READ10: Byte := 0x28
  const WRITE10: Byte := 0x2A
  const VERIFY10: Byte := 0x2F
  const MODE_SENSE10: Byte := 0x5A
  const READ12: Byte := 0xA8
  const WRITE12: Byte := 0xAA

  datatype Stage = AwaitCbw | DataOut | DataIn | DataInLast | DataInLastStall | AwaitCsw | Fault
  datatype Status = Passed | Failed | PhaseError
  datatype Csw = Csw(tag: Word, residue: Word, status: Status)
  datatype Direction = Out | In

  datatype Event = Accepted(tag: Word, length: Word)
                 | Sent(data: seq<Byte>)
                 | Got(data: seq<Byte>)
                 | Reported(csw: Csw)
                 | Stalled(dir: Direction)

  /** The storage: the disk, and the transfer in progress on it. */
  datatype Store = Store(disk: Disk, ofs: Word, left: Word)

  /** The last 31 bytes received as a command block, field by field. */
  type Cbw = s: seq<Byte> | |s| == CBW_BYTES witness seq(CBW_BYTES, _ => 0)

  datatype State = State(stage: Stage, cbw: Cbw, csw: Csw, sense: Word, memOk: bool, readOnly: bool,
                         store: Store, log: seq<Event>)

  // ------------------------------------------------------------------ command blocks

  function Tag(c: Cbw): Word { Load(c, 4) }
  function Length(c: Cbw): Word { Load(c, 8) }
  predicate DirIn(c: Cbw) { c[12] >= 128 }
  function Opcode(c: Cbw): Byte { c[15] }

  predicate ByteCheck(c: Cbw) { c[16] / 2 % 2 == 1 }

  function Be32(b0: Byte, b1: Byte, b2: Byte, b3: Byte): Word { Join(b3, b2, b1, b0) }

  function Lba(c: Cbw): Word { Be32(c[17], c[18], c[19], c[20]) }

  /** The number of blocks: two bytes or four, by the command. */
  function Blocks(c: Cbw): Word
  {
    if Opcode(c) == READ12 || Opcode(c) == WRITE12 then Be32(c[21], c[22], c[23], c[24]) else Be32(0, 0, c[22], c[23])
  }

  predicate IsRead(c: Cbw) { Opcode(c) == READ10 || Opcode(c) == READ12 }
  predicate IsWrite(c: Cbw) { Opcode(c) == WRITE10 || Opcode(c) == WRITE12 }

  // ------------------------------------------------------------------------ storage

  /** The packet at the offset lies inside the disk. */
  predicate Inside(t: Store) { t.ofs % 64 == 0 && t.ofs + 64 <= 65536 }

  function Advanced(t: Store): Store { t.(ofs := Plus(t.ofs, 64), left := Minus(t.left, 64)) }

  /** Beyond the disk there is nothing to read, and writes are outside the model. */
  function StoreRead(t: Store): Packet
  {
    if Sound(t.disk) && Inside(t) then ReadPacket(t.disk, t.ofs / 64) else Zeros()
  }

  function StoreWritten(t: Store, p: Packet): Store
  {
    Advanced(if Sound(t.disk) && Inside(t) then t.(disk := WritePacket(t.disk, t.ofs / 64, p)) else t)
  }

  /** Blocks are whole packets, also where their bytes wrap. */
  lemma WholePackets(n: Word)
    ensures 512 * n % M32 % 64 == 0
  {
    var q := 512 * n / M32;
    assert 512 * n % M32 == 64 * (8 * n - 0x400_0000 * q);
  }

  function StoreCommand(t: Store, lba: Word, blocks: Word): Store
  {
    t.(ofs := 512 * lba % M32, left := 512 * blocks % M32)
  }

  // -------------------------------------------------------------------------- steps

  function Logged(s: State, e: Event): State { s.(log := s.log + [e]) }

  /** MSC_SetCSW, with the status that was put into the CSW before. */
  function SetCsw(s: State, status: Status): State
  {
    var c := s.csw.(status := status);
    Logged(s.(csw := c, stage := AwaitCsw), Reported(c))
  }

  /** A failed command, with a stall of one endpoint. */
  function StallCsw(s: State, dir: Direction, status: Status): State
  {
    SetCsw(Logged(s, Stalled(dir)), status)
  }

  /** DecResidue, as the storage calls it. */
  function DecResidue(s: State): State
  {
    if s.sense == NO_SENSE then s.(csw := s.csw.(residue := Minus(s.csw.residue, 64))) else s
  }

  function Outcome(ok: bool): Status { if ok then Passed else Failed }

  function MemoryRead(s: State): State { SendPacket(s, StoreRead(s.store)) }

  /** The packet that the storage gave is sent; after the last one the status is known. */
  function SendPacket(s: State, p: Packet): State
  {
    var s1 := Logged(DecResidue(s.(store := Advanced(s.store))), Sent(p));
    if s1.store.left != 0 then s1
    else s1.(stage := if s.sense == OUT_OF_RANGE then DataInLastStall else DataInLast,
             csw := s1.csw.(status := Outcome(s.sense == NO_SENSE)))
  }

  function StallOutOfRange(s: State): State
  {
    if s.sense == OUT_OF_RANGE then Logged(s, Stalled(Out)) else s
  }

  function MemoryWrite(s: State, p: Packet): State
  {
    var s1 := DecResidue(Logged(s.(store := StoreWritten(s.store, p)), Got(p)));
    if s1.store.left != 0 then s1
    else SetCsw(StallOutOfRange(s1), Outcome(s.sense == NO_SENSE))
  }

  function MemoryVerify(s: State, p: Packet): State
  {
    var s0 := Logged(s.(store := Advanced(s.store), memOk := s.memOk && StoreRead(s.store) == p), Got(p));
    var s1 := DecResidue(s0);
    if s1.store.left != 0 then s1
    else
      var s2 := s1.(memOk := s1.memOk && s.sense == NO_SENSE);
      SetCsw(StallOutOfRange(s2), Outcome(s2.memOk))
  }

  /** DataInFormat: can the host take a reply? */
  function FormatError(s: State): State
  {
    if Length(s.cbw) == 0 then SetCsw(s, PhaseError) else StallCsw(s, Out, PhaseError)
  }

  predicate FormatOk(s: State) { Length(s.cbw) != 0 && DirIn(s.cbw) }

  /** DataInTransfer: as much of the reply as the host asked for. */
  function Transfer(s: State, reply: seq<Byte>): State
    requires |reply| <= 64
  {
    var n := if |reply| >= Length(s.cbw) then Length(s.cbw) else |reply|;
    var s1 := Logged(s.(stage := DataInLast), Sent(reply[..n]));
    s1.(csw := Csw(s.csw.tag, Minus(s.csw.residue, n), Passed))
  }

  function Reply(s: State, reply: seq<Byte>): State
    requires |reply| <= 64
  {
    if FormatOk(s) then Transfer(s, reply) else FormatError(s)
  }

  const INQUIRY_REPLY: seq<Byte> := [
    0, 0x80, 0, 0x01, 32, 0x80, 0, 0,
    77, 114, 97, 122, 105, 107, 46, 32, 83, 68, 72, 67, 32, 67, 97, 114, 100, 32, 111, 110, 32, 85, 83, 66, 32, 49,
    46, 48]

  function SenseReply(sense: Word): (r: seq<Byte>)
    ensures |r| == 18
  {
    [0x70, 0, sense / 0x1_0000 % 256, 0, 0, 0, 0, 10, 0, 0, 0, 0, sense / 256 % 256, sense % 256, 0, 0, 0, 0]
  }

  function Modes6(readOnly: bool): (r: seq<Byte>)
    ensures |r| == 4
  {
    [3, 0, if readOnly then 0x80 else 0, 0]
  }

  const MODES10: seq<Byte> := [0, 6, 0, 0, 0, 0, 0, 0]

  function BeBytes(w: Word): (r: seq<Byte>)
    ensures |r| == 4
  {
    var b := Bytes(w);
    [b[3], b[2], b[1], b[0]]
  }

  function CapacityReply(): (r: seq<Byte>)
    ensures |r| == 8
  {
    BeBytes(TOTAL - 1) + BeBytes(512)
  }

  function FormatCapacityReply(): (r: seq<Byte>)
    ensures |r| == 12
  {
    [0, 0, 0, 8] + BeBytes(TOTAL) + [2, 0, 2, 0]
  }

  /** Is the length that the host announced the one it asks for? */
  predicate LengthOk(c: Cbw) { Length(c) != 0 && Length(c) == 512 * Blocks(c) % M32 }

  /** The command gets as far as moving packets. */
  predicate Moves(c: Cbw)
  {
    && LengthOk(c)
    && ((IsRead(c) && DirIn(c)) || (IsWrite(c) && !DirIn(c)) || (Opcode(c) == VERIFY10 && ByteCheck(c) && !DirIn(c)))
  }

  /** MSC_ReadSetup and MSC_WriteSetup. */
  predicate SetupOk(s: State) { LengthOk(s.cbw) }

  function SetupError(s: State): State
  {
    if Length(s.cbw) == 0 then SetCsw(s, Failed)
    else StallCsw(s, if DirIn(s.cbw) then In else Out, Failed)
  }

  function Setup(s: State): State
  {
    s.(store := StoreCommand(s.store, Lba(s.cbw), Blocks(s.cbw)))
  }

  function ReadCommand(s: State): State
  {
    if !SetupOk(s) then SetupError(s)
    else if DirIn(s.cbw) then MemoryRead(Setup(s).(stage := DataIn))
    else StallCsw(Setup(s), Out, PhaseError)
  }

  function WriteCommand(s: State): State
  {
    if !SetupOk(s) then SetupError(s)
    else if !DirIn(s.cbw) then Setup(s).(stage := DataOut)
    else StallCsw(Setup(s), In, PhaseError)
  }

  function VerifyCommand(s: State): State
  {
    if !ByteCheck(s.cbw) then SetCsw(s, Passed)
    else if !SetupOk(s) then SetupError(s)
    else if !DirIn(s.cbw) then Setup(s).(stage := DataOut, memOk := true)
    else StallCsw(Setup(s), In, PhaseError)
  }

  function TestUnitReady(s: State): State
  {
    var s1 := if Length(s.cbw) != 0 then Logged(s, Stalled(if DirIn(s.cbw) then In else Out)) else s;
    SetCsw(s1, Outcome(s.sense != RESET_OCCURRED))
  }

  function RequestSense(s: State): State
  {
    if FormatOk(s) then Transfer(s.(sense := NO_SENSE), SenseReply(s.sense)) else FormatError(s)
  }

  function Parse(s: State): State
  {
    var op := Opcode(s.cbw);
    if op == TEST_UNIT_READY then TestUnitReady(s)
    else if op == REQUEST_SENSE then RequestSense(s)
    else if op == INQUIRY then Reply(s, INQUIRY_REPLY)
    else if op == MODE_SENSE6 then Reply(s, Modes6(s.readOnly))
    else if op == MODE_SENSE10 then Reply(s, MODES10)
    else if op == READ_FORMAT_CAPACITIES then Reply(s, FormatCapacityReply())
    else if op == READ_CAPACITY then Reply(s, CapacityReply())
    else if IsRead(s.cbw) then ReadCommand(s)
    else if IsWrite(s.cbw) then WriteCommand(s)
    else if op == VERIFY10 then VerifyCommand(s)
    else SetCsw(s.(sense := INVALID_FIELD_IN_CDB), Failed)
  }

  /** A packet that is shorter overwrites only the front of the command block. */
  function Overlaid(c: Cbw, p: seq<Byte>): Cbw
    requires |p| <= CBW_BYTES
  {
    p + c[|p|..]
  }

  predicate ValidCbw(p: seq<Byte>) { |p| == CBW_BYTES && Load(p, 0) == CBW_SIGNATURE }

  predicate GoodLun(c: Cbw) { c[13] == 0 && 1 <= c[14] <= 16 }

  function Accept(s: State): State
  {
    Logged(s.(csw := s.csw.(tag := Tag(s.cbw), residue := Length(s.cbw))), Accepted(Tag(s.cbw), Length(s.cbw)))
  }

  function GetCbw(s: State, p: seq<Byte>): State
    requires |p| <= CBW_BYTES
  {
    var s0 := s.(cbw := Overlaid(s.cbw, p));
    if ValidCbw(p) then
      var s1 := Accept(s0);
      if !GoodLun(s1.cbw) then SetCsw(s1.(sense := LUN_NOT_SUPPORTED), Failed) else Parse(s1)
    else Logged(Logged(s0, Stalled(In)), Stalled(Out)).(stage := Fault)
  }

  /** The host has taken an IN packet. */
  function BulkIn(s: State): State
  {
    match s.stage
    case DataIn => if IsRead(s.cbw) then MemoryRead(s) else s
    case DataInLast => SetCsw(s, s.csw.status)
    case DataInLastStall => StallCsw(s, In, s.csw.status)
    case AwaitCsw => s.(stage := AwaitCbw)
    case _ => s
  }

  /** An OUT packet that the buffers take: a command block at most where one is due, a whole packet where data
      are due, anything where neither is. */
  predicate Fits(s: State, p: seq<Byte>)
  {
    match s.stage
    case AwaitCbw => |p| <= CBW_BYTES
    case DataOut => |p| == 64
    case _ => |p| <= 64
  }

  /** No report waits for the host, and the last command block was valid. */
  predicate Listens(s: State) { s.stage != AwaitCsw && s.stage != Fault }

  predicate MayCome(s: State, p: seq<Byte>) { Fits(s, p) && Listens(s) }

  /** A packet from the host; a phase error where none is due. */
  function BulkOut(s: State, p: seq<Byte>): State
    requires Fits(s, p)
  {
    if s.stage == AwaitCbw then GetCbw(s, p)
    else if s.stage != DataOut then StallCsw(s, Out, PhaseError)
    else if IsWrite(s.cbw) then MemoryWrite(s, p)
    else if Opcode(s.cbw) == VERIFY10 then MemoryVerify(s, p)
    else s
  }
}
