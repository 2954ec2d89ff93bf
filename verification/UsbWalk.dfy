/**
 How the device reads its own configuration table (usb/usbdevice.cpp, ReqSetConfiguration):
 from descriptor to descriptor by their lengths, up to a zero length byte.
 */
module UsbWalk {
  import opened Words
  import opened UsbTree

  /** Where descriptor j starts. */
  function Offset(ds: seq<Descriptor>, j: nat): nat
    requires FitsAll(ds) && j <= |ds|
  {
    |Print(ds, j)|
  }

  /** The table, then a zero byte, then anything. */
  ghost predicate Printed(table: seq<Byte>, ds: seq<Descriptor>)
    requires FitsAll(ds)
  {
    && |Print(ds, |ds|)| < |table| && table[..|Print(ds, |ds|)|] == Print(ds, |ds|)
    && table[|Print(ds, |ds|)|] == 0
  }

  ghost predicate Opened(b: bool) { true }

  /** The trigger keeps the table shut in proofs that only hand it on. */
  ghost predicate Holds(table: seq<Byte>, ds: seq<Descriptor>)
  {
    FitsAll(ds) && forall b {:trigger Opened(b)} :: Opened(b) ==> Printed(table, ds)
  }

  predicate Extends(p: seq<Byte>, q: seq<Byte>) { |p| <= |q| && q[..|p|] == p }

  lemma {:induction false} Prefixes(pre: nat -> seq<Byte>, j: nat, n: nat)
    requires j <= n && forall k :: j <= k < n ==> Extends(pre(k), pre(k + 1))
    ensures Extends(pre(j), pre(n))
    decreases n
  {
    if j < n {
      Prefixes(pre, j, n - 1);
      assert pre(n)[..|pre(j)|] == pre(n)[..|pre(n - 1)|][..|pre(j)|];
    }
  }

  function PrintUpTo(ds: seq<Descriptor>, k: nat): seq<Byte>
  {
    if FitsAll(ds) && k <= |ds| then Print(ds, k) else []
  }

  lemma UpToGrows(ds: seq<Descriptor>, n: nat)
    requires FitsAll(ds) && n < |ds|
    ensures Extends(PrintUpTo(ds, n), PrintUpTo(ds, n + 1))
  {
    PrintGrows(ds, n);
  }

  lemma UpToPrefix(ds: seq<Descriptor>, j: nat, n: nat)
    requires FitsAll(ds) && j <= n <= |ds|
    ensures Extends(PrintUpTo(ds, j), PrintUpTo(ds, n))
  {
    var pre := (k: nat) => PrintUpTo(ds, k);
    forall k | j <= k < n
      ensures Extends(pre(k), pre(k + 1))
    {
      UpToGrows(ds, k);
    }
    Prefixes(pre, j, n);
  }

  lemma PrintPrefix(ds: seq<Descriptor>, j: nat, n: nat)
    requires FitsAll(ds) && j <= n <= |ds|
    ensures Offset(ds, j) <= Offset(ds, n) && Print(ds, n)[..Offset(ds, j)] == Print(ds, j)
  {
    UpToPrefix(ds, j, n);
  }

  lemma PrintGrows(ds: seq<Descriptor>, n: nat)
    requires FitsAll(ds) && n < |ds|
    ensures Extends(Print(ds, n), Print(ds, n + 1))
  {
    assert (Print(ds, n) + Encoding(ds[n]))[..|Print(ds, n)|] == Print(ds, n);
  }

  /** Descriptor j can be read in its place. */
  lemma Placed(ds: seq<Descriptor>, j: nat, n: nat)
    requires FitsAll(ds) && j < n <= |ds|
    ensures Offset(ds, j) + Length(ds[j]) == Offset(ds, j + 1) <= Offset(ds, n)
    ensures Print(ds, n)[Offset(ds, j)..Offset(ds, j + 1)] == Encoding(ds[j])
  {
    EncodingLength(ds[j]);
    PrintPrefix(ds, j + 1, n);
    var p, q, o := Print(ds, n), Print(ds, j + 1), Offset(ds, j);
    assert q == Print(ds, j) + Encoding(ds[j]);
    assert p[o..|q|] == p[..|q|][o..] == q[o..];
  }

  lemma ReadAt(table: seq<Byte>, ds: seq<Descriptor>, j: nat)
    requires Holds(table, ds) && j < |ds|
    ensures Offset(ds, j) + Length(ds[j]) == Offset(ds, j + 1) < |table|
    ensures table[Offset(ds, j)..Offset(ds, j + 1)] == Encoding(ds[j])
    ensures |Encoding(ds[j])| == Length(ds[j]) == table[Offset(ds, j)] && 4 <= Length(ds[j])
  {
    assert Opened(true);
    Placed(ds, j, |ds|);
    EncodingLength(ds[j]);
    var p := Print(ds, |ds|);
    assert table[Offset(ds, j)..Offset(ds, j + 1)] == table[..|p|][Offset(ds, j)..Offset(ds, j + 1)];
    assert table[Offset(ds, j)] == table[Offset(ds, j)..Offset(ds, j + 1)][0];
  }

  /** The bit of an endpoint address in the masks: OUT endpoints below, IN endpoints above 16. */
  function BitOf(address: Byte): nat
  {
    if address >= 128 then 16 + address % 16 else address % 16
  }

  /** The bits of the endpoints among the first n descriptors. */
  function Bits(ds: seq<Descriptor>, n: nat): set<nat>
    requires n <= |ds|
  {
    if n == 0 then {}
    else
      match ds[n - 1]
      case Endpoint(addr, dirIn, _) => Bits(ds, n - 1) + {if dirIn then 16 + addr else addr}
      case _ => Bits(ds, n - 1)
  }

  const CONTROL_BITS: set<nat> := {0, 16} // 0x00010001

  /** The endpoints of a device by its shape: two bits for a bulk endpoint, one for an interrupt
      endpoint. */
  function ShapeBits(sh: seq<Shape>, n: nat): set<nat>
    requires n <= |sh|
  {
    if n == 0 then {}
    else
      var a := Count(sh, n - 1) + 1;
      ShapeBits(sh, n - 1) + if sh[n - 1].CdcShape? then {16 + a, a + 1, 16 + a + 1} else {a, 16 + a}
  }

  lemma {:induction false} BitsAdd(a: seq<Descriptor>, b: seq<Descriptor>, n: nat)
    requires n <= |b|
    ensures Bits(a + b, |a| + n) == Bits(a, |a|) + Bits(b, n)
    decreases n
  {
    if n == 0 {
      BitsPrefix(a, b, |a|);
    } else {
      BitsAdd(a, b, n - 1);
      assert (a + b)[|a| + n - 1] == b[n - 1];
    }
  }

  lemma {:induction false} BitsPrefix(a: seq<Descriptor>, b: seq<Descriptor>, n: nat)
    requires n <= |a|
    ensures Bits(a + b, n) == Bits(a, n)
    decreases n
  {
    if n > 0 {
      BitsPrefix(a, b, n - 1);
      assert (a + b)[n - 1] == a[n - 1];
    }
  }

  lemma InterfaceBits(f: Interface)
    ensures var ds := InterfaceDescs(f);
      Bits(ds, |ds|) == if f.role == Ctrl then {16 + f.addr} else {f.addr, 16 + f.addr}
  {
    var ds := InterfaceDescs(f);
    assert Bits(ds, 1) == {};
    if f.role == Ctrl {
      assert Bits(ds, 2) == {} && Bits(ds, 3) == {} && Bits(ds, 4) == {} && Bits(ds, 5) == {};
    } else {
      assert Bits(ds, 2) == {f.addr};
    }
  }

  lemma ClassBits(c: Class)
    requires c.Cdc? ==> c.ctrl.role == Ctrl && c.data.role == Data
    requires c.Msc? ==> c.iface.role == Storage
    ensures var ds := ClassDescs(c);
      Bits(ds, |ds|) == match c
        case Cdc(_, ctrl, data) => {16 + ctrl.addr} + {data.addr, 16 + data.addr}
        case Msc(iface) => {iface.addr, 16 + iface.addr}
  {
    match c
    case Cdc(iFunction, ctrl, data) =>
      var a, x, y := [Assoc(ctrl.number, iFunction)], InterfaceDescs(ctrl), InterfaceDescs(data);
      InterfaceBits(ctrl);
      InterfaceBits(data);
      BitsAdd(a, x, |x|);
      BitsAdd(a + x, y, |y|);
      assert Bits(a, 1) == Bits(a, 0) == {};
    case Msc(iface) =>
      InterfaceBits(iface);
  }

  lemma ClassAtBits(sh: seq<Shape>, n: nat, before: nat)
    requires n < |sh|
    ensures var ds := ClassDescs(ClassAt(sh, n, before)); ShapeBits(sh, n + 1) == ShapeBits(sh, n) + Bits(ds, |ds|)
  {
    ClassBits(ClassAt(sh, n, before));
  }

  lemma BitsBoth(a: seq<Descriptor>, b: seq<Descriptor>)
    ensures Bits(a + b, |a + b|) == Bits(a, |a|) + Bits(b, |b|)
  {
    BitsAdd(a, b, |b|);
  }

  /** The table of a device mentions exactly the endpoints of its classes. */
  lemma {:induction false} JoinedBits(part: nat -> seq<Descriptor>, bits: nat -> set<nat>, n: nat)
    requires bits(0) == {} && forall k :: 0 <= k < n ==> bits(k + 1) == bits(k) + Bits(part(k), |part(k)|)
    ensures Bits(Joined(part, n), |Joined(part, n)|) == bits(n)
    decreases n
  {
    if n > 0 {
      JoinedBits(part, bits, n - 1);
      BitsBoth(Joined(part, n - 1), part(n - 1));
    }
  }

  function BitsUpTo(sh: seq<Shape>, k: nat): set<nat> { if k <= |sh| then ShapeBits(sh, k) else {} }

  lemma PartBits(sh: seq<Shape>, before: nat, k: nat)
    requires k < |sh|
    ensures BitsUpTo(sh, k + 1) == BitsUpTo(sh, k) + Bits(Part(sh, before, k), |Part(sh, before, k)|)
  {
    ClassAtBits(sh, k, before);
  }

  lemma TreeBits(sh: seq<Shape>, n: nat, before: nat)
    requires n <= |sh|
    ensures Bits(TreeDescs(sh, n, before), |TreeDescs(sh, n, before)|) == ShapeBits(sh, n)
  {
    var part, bits := (k: nat) => Part(sh, before, k), (k: nat) => BitsUpTo(sh, k);
    forall k | 0 <= k < n
      ensures bits(k + 1) == bits(k) + Bits(part(k), |part(k)|)
    {
      PartBits(sh, before, k);
    }
    JoinedBits(part, bits, n);
  }

  /** A table that starts with its configuration descriptor and has no other. */
  predicate OneConfig(ds: seq<Descriptor>)
  {
    ds != [] && ds[0].Config? && ds[0].total == TotalLength(ds) && forall j :: 0 < j < |ds| ==> !ds[j].Config?
  }

  class UsbDevice {
    const table: seq<Byte>
    var mask: set<nat>
    var configuration: Byte
    var useifs: nat
    var halt: set<nat>
    var stall: set<nat>

    constructor (table: seq<Byte>, useifs: nat)
      ensures this.table == table && configuration == 0 && mask == CONTROL_BITS && halt == {} && stall == {}
      ensures this.useifs == useifs
    {
      this.table, this.useifs := table, useifs;
      configuration, mask, halt, stall := 0, CONTROL_BITS, {}, {};
    }

    /** The fields that the walk reads of any descriptor. */
    method Look(pD: nat, ghost ds: seq<Descriptor>, ghost j: nat) returns (length: nat, kind: Byte, b2: Byte, b3: Byte)
      requires Holds(table, ds) && j < |ds| && pD == Offset(ds, j)
      ensures length == Length(ds[j]) && pD + length == Offset(ds, j + 1) < |table| && pD < |table| && table[pD] != 0
      ensures (kind == CONFIGURATION <==> ds[j].Config?) && (kind == INTERFACE <==> ds[j].Iface?)
      ensures (kind == ENDPOINT <==> ds[j].Endpoint?) && (ds[j].Iface? ==> b3 == 0)
      ensures ds[j].Endpoint? ==> BitOf(b2) == if ds[j].dirIn then 16 + ds[j].addr else ds[j].addr
    {
      ReadAt(table, ds, j);
      DescBytes(table, ds, j);
      ghost var e := table[pD..pD + Length(ds[j])];
      length, kind, b2, b3 := table[pD], table[pD + 1], table[pD + 2], table[pD + 3];
      assert length == e[0] && kind == e[1] && b2 == e[2] && b3 == e[3];
    }

    /** Those of a configuration descriptor. */
    method LookConfig(pD: nat, ghost ds: seq<Descriptor>, ghost j: nat)
      returns (total: nat, interfaces: Byte, value: Byte)
      requires Holds(table, ds) && j < |ds| && pD == Offset(ds, j) && ds[j].Config?
      ensures total == ds[j].total && interfaces == ds[j].interfaces && value == 1
    {
      ReadAt(table, ds, j);
      DescBytes(table, ds, j);
      ghost var e := table[pD..pD + Length(ds[j])];
      total, interfaces, value := TotalOf(table[pD + 2], table[pD + 3]), table[pD + 4], table[pD + 5];
      assert table[pD + 2] == e[2] && table[pD + 3] == e[3] && interfaces == e[4] && value == e[5];
    }

    /** What the device is configured to. */
    function View(): Setting
      reads this
    {
      Setting(configuration, mask, halt, stall, useifs)
    }

    /** A configuration descriptor: it is entered if it has the value, else its whole extent is skipped. */
    method Configure(pD: nat, value: Byte, ghost ds: seq<Descriptor>, ghost j: nat) returns (entered: bool, skip: nat)
      requires Holds(table, ds) && j < |ds| && pD == Offset(ds, j) && ds[j].Config? && value != 0
      modifies this
      ensures View() == Visited(old(View()), ds[j], value)
      ensures entered == (value == 1) && skip == ds[j].total
    {
      var total, interfaces, v := LookConfig(pD, ds, j);
      entered, skip := v == value, total;
      if entered {
        configuration, useifs := value, interfaces;
        mask, halt, stall := CONTROL_BITS, {}, {};
      }
    }

    /** What one descriptor does to the device, and where the walk goes on. */
    method Visit(pD: nat, alt: Byte, value: Byte, ghost ds: seq<Descriptor>, ghost j: nat)
      returns (next: nat, alt': Byte)
      requires Holds(table, ds) && j < |ds| && pD == Offset(ds, j) && alt == 0 && value != 0
      modifies this
      ensures View() == Visited(old(View()), ds[j], value) && alt' == 0
      ensures next == if ds[j].Config? && value != 1 then pD + ds[j].total else Offset(ds, j + 1)
    {
      var length, kind, b2, b3 := Look(pD, ds, j);
      alt' := alt;
      if kind == CONFIGURATION {
        var entered, skip := Configure(pD, value, ds, j);
        if !entered {
          next := pD + skip;
          return;
        }
      } else if kind == INTERFACE {
        alt' := b3;
      } else if kind == ENDPOINT {
        if alt == 0 { mask := mask + {BitOf(b2)}; }
      }
      next := pD + length;
    }

    /** ReqSetConfiguration for the device, with the value from the request. `visited` are the
        places where the walk found a descriptor. */
    method ReqSetConfiguration(value: Byte, ghost ds: seq<Descriptor>) returns (ok: bool, ghost visited: seq<nat>)
      requires Holds(table, ds) && OneConfig(ds) && configuration in {0, 1}
      modifies this
      ensures ok == (value in {0, 1})
      ensures View() == if value == 0 then Setting(0, CONTROL_BITS, {}, {}, old(useifs))
        else if value == 1 then Setting(1, CONTROL_BITS + Bits(ds, |ds|), {}, {}, ds[0].interfaces)
        else old(View())
      ensures visited == if value == 0 then [] else if value == 1 then Offsets(ds, |ds|) else [0]
    {
      visited := [];
      if value != 0 {
        var pD, alt := 0, 0;
        ghost var s, j := View(), 0;
        TotalOffset(ds);
        TableLonger(table, ds);
        while table[pD] != 0
          invariant j <= |ds| && pD == Offset(ds, j) < |table| && alt == 0
          invariant value == 1 || j == 0 || j == |ds|
          invariant View() == AfterVisits(s, ds, j, value)
          invariant visited == if value == 1 then Offsets(ds, j) else if j == 0 then [] else [0]
          decreases |ds| - j
        {
          StillInside(table, ds, j);
          visited := visited + [pD];
          pD, alt := Visit(pD, alt, value, ds, j);
          OneVisit(s, ds, j, value);
          j := if value == 1 then j + 1 else |ds|;
        }
        AtTheEnd(table, ds, j);
        AllVisits(s, ds, |ds|, value);
      } else {
        configuration, mask, halt, stall := 0, CONTROL_BITS, {}, {};
      }
      ok := configuration == value;
    }
  }

  function Offsets(ds: seq<Descriptor>, n: nat): seq<nat>
    requires FitsAll(ds) && n <= |ds|
  {
    if n == 0 then [] else Offsets(ds, n - 1) + [Offset(ds, n - 1)]
  }

  /** A descriptor during the walk for a value: the configuration with that value resets the masks,
      an endpoint adds its bit. */
  function Visited(s: Setting, d: Descriptor, value: Byte): Setting
  {
    match d
    case Config(_, interfaces) =>
      if value == 1 && interfaces < 256 then Setting(1, CONTROL_BITS, {}, {}, interfaces) else s
    case Endpoint(addr, dirIn, _) => s.(mask := s.mask + {if dirIn then 16 + addr else addr})
    case _ => s
  }

  /** The first n descriptors visited; for another value only the configuration is. */
  function AfterVisits(s: Setting, ds: seq<Descriptor>, n: nat, value: Byte): Setting
    requires n <= |ds|
  {
    if value != 1 || n == 0 then s else Visited(AfterVisits(s, ds, n - 1, value), ds[n - 1], value)
  }

  lemma TotalOffset(ds: seq<Descriptor>)
    requires FitsAll(ds)
    ensures Offset(ds, |ds|) == TotalLength(ds) && Offset(ds, 0) == 0
  {
    PrintLength(ds, |ds|);
    assert ds[..|ds|] == ds;
  }

  lemma TableLonger(table: seq<Byte>, ds: seq<Descriptor>)
    requires Holds(table, ds)
    ensures Offset(ds, 0) == 0 <= Offset(ds, |ds|) < |table|
  {
    assert Opened(true);
  }

  lemma StillInside(table: seq<Byte>, ds: seq<Descriptor>, j: nat)
    requires Holds(table, ds) && j <= |ds| && Offset(ds, j) < |table| && table[Offset(ds, j)] != 0
    ensures j < |ds| && Offset(ds, j + 1) < |table|
  {
    assert Opened(true);
    if j < |ds| { ReadAt(table, ds, j); }
  }

  lemma AtTheEnd(table: seq<Byte>, ds: seq<Descriptor>, j: nat)
    requires Holds(table, ds) && j <= |ds| && Offset(ds, j) < |table| && table[Offset(ds, j)] == 0
    ensures j == |ds|
  {
    if j < |ds| { ReadAt(table, ds, j); }
  }

  lemma OneVisit(s: Setting, ds: seq<Descriptor>, j: nat, value: Byte)
    requires j < |ds| && FitsAll(ds) && OneConfig(ds) && (value == 1 || j == 0)
    ensures value == 1 ==> AfterVisits(s, ds, j + 1, value) == Visited(AfterVisits(s, ds, j, value), ds[j], value)
    ensures value != 1 ==> Visited(s, ds[j], value) == s && ds[j].Config?
    ensures Offsets(ds, j + 1) == Offsets(ds, j) + [Offset(ds, j)]
  {
  }

  lemma {:induction false} AllVisits(s: Setting, ds: seq<Descriptor>, n: nat, value: Byte)
    requires n <= |ds| && FitsAll(ds) && OneConfig(ds)
    ensures value == 1 && n > 0 ==>
      AfterVisits(s, ds, n, value) == Setting(1, CONTROL_BITS + Bits(ds, n), {}, {}, ds[0].interfaces)
  {
    if n == 1 {
      assert Bits(ds, 1) == {};
      assert Fits(ds[0]);
    } else if n > 1 {
      AllVisits(s, ds, n - 1, value);
    }
  }

  datatype Setting = Setting(configuration: Byte, mask: set<nat>, halt: set<nat>, stall: set<nat>, useifs: nat)

  /** wTotalLength, little endian. */
  function TotalOf(lo: Byte, hi: Byte): nat { var l: int := lo; l + 256 * hi }

  /** What the walk reads of a descriptor that was printed as e. */
  ghost predicate Reads(d: Descriptor, e: seq<Byte>)
  {
    && |e| == Length(d) && 4 <= Length(d) && e[0] == Length(d)
    && (e[1] == CONFIGURATION <==> d.Config?)
    && (e[1] == INTERFACE <==> d.Iface?)
    && (e[1] == ENDPOINT <==> d.Endpoint?)
    && (d.Config? ==> e[5] == 1 && e[4] == d.interfaces && TotalOf(e[2], e[3]) == d.total)
    && (d.Iface? ==> e[3] == 0)
    && (d.Endpoint? ==> BitOf(e[2]) == if d.dirIn then 16 + d.addr else d.addr)
  }

  lemma EncodingReads(d: Descriptor)
    requires Fits(d)
    ensures Reads(d, Encoding(d))
  {
  }

  /** ... at its place in the table. */
  lemma DescBytes(table: seq<Byte>, ds: seq<Descriptor>, j: nat)
    requires Holds(table, ds) && j < |ds|
    ensures var o, n := Offset(ds, j), Length(ds[j]); o + n < |table| && Reads(ds[j], table[o..o + n])
  {
    ReadAt(table, ds, j);
    EncodingReads(ds[j]);
  }

  ghost predicate NoConfig(ds: seq<Descriptor>) { forall j :: 0 <= j < |ds| ==> !ds[j].Config? }

  lemma ClassHasNoConfig(c: Class)
    ensures NoConfig(ClassDescs(c))
  {
  }

  lemma {:induction false} JoinedHasNoConfig(part: nat -> seq<Descriptor>, n: nat)
    requires forall k :: 0 <= k < n ==> NoConfig(part(k))
    ensures NoConfig(Joined(part, n))
  {
    if n > 0 { JoinedHasNoConfig(part, n - 1); }
  }

  lemma TreeHasNoConfig(sh: seq<Shape>, n: nat, before: nat)
    requires n <= |sh|
    ensures NoConfig(TreeDescs(sh, n, before))
  {
    var part := (k: nat) => Part(sh, before, k);
    forall k | 0 <= k < n
      ensures NoConfig(part(k))
    {
      ClassHasNoConfig(ClassAt(sh, k, before));
    }
    JoinedHasNoConfig(part, n);
  }

  /** For every device: what the generator prints is a table that the walk understands, and its
      endpoint bits are those of the device. */
  lemma DeviceWalks(sh: seq<Shape>, before: nat)
    requires Feasible(sh, before)
    ensures var ds := DeviceDescs(sh, before);
      FitsAll(ds) && OneConfig(ds) && Bits(ds, |ds|) == ShapeBits(sh, |sh|) && ds[0].interfaces == Count(sh, |sh|)
  {
    DeviceFits(sh, before);
    TreeHasNoConfig(sh, |sh|, before);
    TreeBits(sh, |sh|, before);
    var ds := DeviceDescs(sh, before);
    BitsAdd([ds[0]], TreeDescs(sh, |sh|, before), |TreeDescs(sh, |sh|, before)|);
    assert Bits([ds[0]], 1) == Bits([ds[0]], 0) == {};
  }
}
