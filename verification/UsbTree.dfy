/**
 The device tree and the table of descriptors made from it (usb/usbdevice.cpp and the
 enumerate/blddsc pairs of classes, interfaces and endpoints).
 */
module UsbTree {
  import opened Words

  /** The two interfaces of a CDC class, and the one of the mass-storage class. */
  datatype Role = Ctrl | Data | Storage

  datatype Text = NoText | Text(chars: seq<Byte>)

  /** What a device is made of: its classes in order, each with its string. */
  datatype Shape = CdcShape(text: Text) | MscShape(text: Text)

  /** An interface and its endpoint: the address given by `buildDev`, the rest by `enumerate`. */
  datatype Interface = Interface(role: Role, addr: nat, number: nat, str: nat)

  datatype Class = Cdc(iFunction: nat, ctrl: Interface, data: Interface) | Msc(iface: Interface)

  // --------------------------------------------------------------------- descriptors

  /** The descriptors of the configuration, and the numbers that go into them. */
  datatype Descriptor = Config(total: nat, interfaces: nat)
                      | Assoc(first: nat, text: nat)
                      | Iface(role: Role, number: nat, str: nat)
                      | Header | CallManagement(data: nat) | ControlManagement | Union(master: nat)
                      | Endpoint(addr: nat, dirIn: bool, interrupt: bool)

  const INTERFACE: Byte := 4
  const ENDPOINT: Byte := 5
  const CONFIGURATION: Byte := 2

  /** The numbers fit into their fields. */
  predicate Fits(d: Descriptor)
  {
    match d
    case Config(total, interfaces) => total < 0x1_0000 && interfaces < 256
    case Assoc(first, text) => first < 256 && text < 256
    case Iface(_, number, str) => number < 256 && str < 256
    case Header => true
    case CallManagement(data) => data < 256
    case ControlManagement => true
    case Union(master) => master < 255
    case Endpoint(addr, _, _) => addr < 16
  }

  /** A descriptor as it is printed. */
  function Encoding(d: Descriptor): seq<Byte>
    requires Fits(d)
  {
    match d
    case Config(total, interfaces) => [9, CONFIGURATION, total % 256, total / 256, interfaces, 1, 0, 0x80, 50]
    case Assoc(first, text) => [8, 11, first, 2, 2, 2, 0, text]
    case Iface(role, number, str) =>
      (match role
       case Ctrl => [9, INTERFACE, number, 0, 1, 2, 2, 0, 0]
       case Data => [9, INTERFACE, number, 0, 2, 10, 0, 0, 0]
       case Storage => [9, INTERFACE, number, 0, 2, 8, 6, 0x50, str])
    case Header => [5, 0x24, 0, 0x10, 1]
    case CallManagement(data) => [5, 0x24, 1, 0, data]
    case ControlManagement => [4, 0x24, 2, 2]
    case Union(master) => [5, 0x24, 6, master, master + 1]
    case Endpoint(addr, dirIn, interrupt) =>
      [7, ENDPOINT, if dirIn then addr + 128 else addr, if interrupt then 3 else 2, if interrupt then 16 else 64, 0,
       if interrupt then 2 else 0]
  }

  function Length(d: Descriptor): nat
  {
    match d
    case Config(_, _) => 9
    case Assoc(_, _) => 8
    case Iface(_, _, _) => 9
    case Header => 5
    case CallManagement(_) => 5
    case ControlManagement => 4
    case Union(_) => 5
    case Endpoint(_, _, _) => 7
  }

  // ----------------------------------------------------------------- tables

  predicate FitsAll(ds: seq<Descriptor>) { forall i :: 0 <= i < |ds| ==> Fits(ds[i]) }

  /** The first n descriptors of a table as they are printed. */
  function Print(ds: seq<Descriptor>, n: nat): seq<Byte>
    requires FitsAll(ds) && n <= |ds|
  {
    if n == 0 then [] else Print(ds, n - 1) + Encoding(ds[n - 1])
  }

  function TotalLength(ds: seq<Descriptor>): nat
  {
    if ds == [] then 0 else Length(ds[0]) + TotalLength(ds[1..])
  }

  lemma {:induction false} LengthAdd(a: seq<Descriptor>, b: seq<Descriptor>)
    ensures TotalLength(a + b) == TotalLength(a) + TotalLength(b)
  {
    if a == [] {
      assert a + b == b;
    } else {
      assert (a + b)[1..] == a[1..] + b;
      LengthAdd(a[1..], b);
    }
  }

  /** Every printed descriptor tells its own length in its first byte. */
  lemma EncodingLength(d: Descriptor)
    requires Fits(d)
    ensures |Encoding(d)| == Length(d) == Encoding(d)[0] && 4 <= Length(d)
  {
  }

  lemma {:induction false} PrintLength(ds: seq<Descriptor>, n: nat)
    requires FitsAll(ds) && n <= |ds|
    ensures |Print(ds, n)| == TotalLength(ds[..n])
    decreases n
  {
    if n > 0 {
      PrintLength(ds, n - 1);
      EncodingLength(ds[n - 1]);
      assert ds[..n] == ds[..n - 1] + [ds[n - 1]];
      LengthAdd(ds[..n - 1], [ds[n - 1]]);
      assert [ds[n - 1]][1..] == [];
    }
  }

  /** An interface with its endpoint. Functional descriptors stand behind the control interface, and
      a bulk endpoint is printed once for each direction. */
  function InterfaceDescs(f: Interface): seq<Descriptor>
  {
    if f.role == Ctrl then
      [Iface(f.role, f.number, f.str), Header, CallManagement(f.number + 1), ControlManagement, Union(f.number),
       Endpoint(f.addr, true, true)]
    else
      [Iface(f.role, f.number, f.str), Endpoint(f.addr, false, false), Endpoint(f.addr, true, false)]
  }

  function ClassDescs(c: Class): seq<Descriptor>
  {
    match c
    case Cdc(iFunction, ctrl, data) => [Assoc(ctrl.number, iFunction)] + InterfaceDescs(ctrl) + InterfaceDescs(data)
    case Msc(iface) => InterfaceDescs(iface)
  }

  // --------------------------------------------------------------- the numbered device

  /** Interfaces of the first n classes. */
  function Count(sh: seq<Shape>, n: nat): nat
    requires n <= |sh|
  {
    if n == 0 then 0 else Count(sh, n - 1) + if sh[n - 1].CdcShape? then 2 else 1
  }

  /** Strings that they register. */
  function StringCount(sh: seq<Shape>, n: nat): nat
    requires n <= |sh|
  {
    if n == 0 then 0 else StringCount(sh, n - 1) + if sh[n - 1].text.Text? then 1 else 0
  }

  function Texts(sh: seq<Shape>, n: nat): seq<seq<Byte>>
    requires n <= |sh|
  {
    if n == 0 then [] else Texts(sh, n - 1) + (if sh[n - 1].text.Text? then [sh[n - 1].text.chars] else [])
  }

  /** The bytes of the descriptors of the first n classes. */
  function Size(sh: seq<Shape>, n: nat): nat
    requires n <= |sh|
  {
    if n == 0 then 0 else Size(sh, n - 1) + if sh[n - 1].CdcShape? then 66 else 23
  }

  /** A class whose first interface is number i, when s strings are known already: its interfaces
      are numbered on, and each endpoint has the address one above the interface's number. */
  function Numbered(sh: Shape, i: nat, s: nat): Class
  {
    var index := if sh.text.Text? then s + 1 else 0;
    match sh
    case CdcShape(_) => Cdc(index, Interface(Ctrl, i + 1, i, 0), Interface(Data, i + 2, i + 1, 0))
    case MscShape(_) => Msc(Interface(Storage, i + 1, i, index))
  }

  /** Class n of a device; `before` strings belong to the device itself. */
  function ClassAt(sh: seq<Shape>, n: nat, before: nat): Class
    requires n < |sh|
  {
    Numbered(sh[n], Count(sh, n), before + StringCount(sh, n))
  }

  /** The first n parts of a table, one after the other. */
  function Joined(part: nat -> seq<Descriptor>, n: nat): seq<Descriptor>
  {
    if n == 0 then [] else Joined(part, n - 1) + part(n - 1)
  }

  function Part(sh: seq<Shape>, before: nat, k: nat): seq<Descriptor>
  {
    if k < |sh| then ClassDescs(ClassAt(sh, k, before)) else []
  }

  function TreeDescs(sh: seq<Shape>, n: nat, before: nat): seq<Descriptor>
    requires n <= |sh|
  {
    Joined((k: nat) => Part(sh, before, k), n)
  }

  lemma TreeGrows(sh: seq<Shape>, n: nat, before: nat)
    requires n < |sh|
    ensures TreeDescs(sh, n + 1, before) == TreeDescs(sh, n, before) + ClassDescs(ClassAt(sh, n, before))
  {
  }

  /** The whole table. */
  function DeviceDescs(sh: seq<Shape>, before: nat): seq<Descriptor>
  {
    [Config(9 + Size(sh, |sh|), Count(sh, |sh|))] + TreeDescs(sh, |sh|, before)
  }

  const MAX_STRINGS := 32

  /** A device that fits: endpoint addresses have four bits, and the string table 32 entries. */
  predicate Feasible(sh: seq<Shape>, before: nat)
  {
    Count(sh, |sh|) <= 15 && before + |sh| <= MAX_STRINGS
  }

  lemma {:induction false} Bounds(sh: seq<Shape>, n: nat, m: nat)
    requires n <= m <= |sh|
    ensures Count(sh, n) <= Count(sh, m) && StringCount(sh, m) <= m && Size(sh, m) <= 66 * Count(sh, m)
    decreases m
  {
    if m > 0 {
      if n < m { Bounds(sh, n, m - 1); } else { Bounds(sh, n - 1, m - 1); }
    }
  }

  predicate SmallInterface(f: Interface) { f.addr < 16 && f.number < 255 && f.str < 256 }

  /** The numbers of a class fit into the fields of its descriptors. */
  predicate Small(c: Class)
  {
    match c
    case Cdc(iFunction, ctrl, data) => iFunction < 256 && SmallInterface(ctrl) && SmallInterface(data)
    case Msc(iface) => SmallInterface(iface)
  }

  lemma FitsAdd(a: seq<Descriptor>, b: seq<Descriptor>)
    requires FitsAll(a) && FitsAll(b)
    ensures FitsAll(a + b)
  {
  }

  lemma ClassFits(sh: Shape, i: nat, s: nat)
    requires i + (if sh.CdcShape? then 2 else 1) <= 15 && s < MAX_STRINGS
    ensures Small(Numbered(sh, i, s)) && FitsAll(ClassDescs(Numbered(sh, i, s)))
    ensures TotalLength(ClassDescs(Numbered(sh, i, s))) == if sh.CdcShape? then 66 else 23
  {
    match Numbered(sh, i, s)
    case Cdc(iFunction, ctrl, data) =>
      InterfaceLength(ctrl);
      InterfaceLength(data);
      var a := [Assoc(ctrl.number, iFunction)];
      assert a[1..] == [];
      FitsAdd(a, InterfaceDescs(ctrl));
      FitsAdd(a + InterfaceDescs(ctrl), InterfaceDescs(data));
      LengthAdd(a, InterfaceDescs(ctrl));
      LengthAdd(a + InterfaceDescs(ctrl), InterfaceDescs(data));
    case Msc(iface) =>
      InterfaceLength(iface);
  }

  lemma InterfaceLength(f: Interface)
    ensures TotalLength(InterfaceDescs(f)) == if f.role == Ctrl then 19 + 9 + 7 else 9 + 7 + 7
  {
    if f.role == Ctrl {
      var a := [Iface(f.role, f.number, f.str), Header, CallManagement(f.number + 1)];
      var b := [ControlManagement, Union(f.number), Endpoint(f.addr, true, true)];
      assert InterfaceDescs(f) == a + b;
      Three(a[0], a[1], a[2]);
      Three(b[0], b[1], b[2]);
      LengthAdd(a, b);
    } else {
      Three(Iface(f.role, f.number, f.str), Endpoint(f.addr, false, false), Endpoint(f.addr, true, false));
    }
  }

  lemma Three(a: Descriptor, b: Descriptor, c: Descriptor)
    ensures TotalLength([a, b, c]) == Length(a) + Length(b) + Length(c)
  {
    assert [a, b, c][1..] == [b, c] && [b, c][1..] == [c] && [c][1..] == [];
    assert TotalLength([c]) == Length(c);
    assert TotalLength([b, c]) == Length(b) + Length(c);
  }

  lemma ClassAtFits(sh: seq<Shape>, n: nat, before: nat)
    requires Feasible(sh, before) && n < |sh|
    ensures Small(ClassAt(sh, n, before)) && FitsAll(ClassDescs(ClassAt(sh, n, before)))
    ensures TotalLength(ClassDescs(ClassAt(sh, n, before))) == Size(sh, n + 1) - Size(sh, n)
  {
    Bounds(sh, n + 1, |sh|);
    Bounds(sh, n, n);
    ClassFits(sh[n], Count(sh, n), before + StringCount(sh, n));
  }

  lemma TreeStep(a: seq<Descriptor>, b: seq<Descriptor>, x: nat, y: nat)
    requires FitsAll(a) && FitsAll(b) && TotalLength(a) == x && TotalLength(b) == y
    ensures FitsAll(a + b) && TotalLength(a + b) == x + y
  {
    FitsAdd(a, b);
    LengthAdd(a, b);
  }

  /** Parts that fit and make a table grow as told. */
  ghost predicate PartsFit(part: nat -> seq<Descriptor>, size: nat -> nat, n: nat)
  {
    && size(0) == 0
    && forall k :: 0 <= k < n ==> FitsAll(part(k)) && size(k + 1) == size(k) + TotalLength(part(k))
  }

  lemma {:induction false} JoinedFits(part: nat -> seq<Descriptor>, size: nat -> nat, n: nat)
    requires PartsFit(part, size, n)
    ensures FitsAll(Joined(part, n)) && TotalLength(Joined(part, n)) == size(n)
    decreases n
  {
    if n > 0 {
      JoinedFits(part, size, n - 1);
      TreeStep(Joined(part, n - 1), part(n - 1), size(n - 1), TotalLength(part(n - 1)));
    }
  }

  function SizeUpTo(sh: seq<Shape>, k: nat): nat { if k <= |sh| then Size(sh, k) else 0 }

  lemma PartFits(sh: seq<Shape>, before: nat, k: nat)
    requires Feasible(sh, before) && k < |sh|
    ensures FitsAll(Part(sh, before, k))
    ensures SizeUpTo(sh, k + 1) == SizeUpTo(sh, k) + TotalLength(Part(sh, before, k))
  {
    ClassAtFits(sh, k, before);
  }

  /** The descriptors of a tree fit, and are as long as the sizes of its parts add up to. */
  lemma TreeFits(sh: seq<Shape>, n: nat, before: nat)
    requires Feasible(sh, before) && n <= |sh|
    ensures FitsAll(TreeDescs(sh, n, before)) && TotalLength(TreeDescs(sh, n, before)) == Size(sh, n)
  {
    var part, size := (k: nat) => Part(sh, before, k), (k: nat) => SizeUpTo(sh, k);
    forall k | 0 <= k < n
      ensures FitsAll(part(k)) && size(k + 1) == size(k) + TotalLength(part(k))
    {
      PartFits(sh, before, k);
    }
    JoinedFits(part, size, n);
  }

  /** The table of a device is printable, as long as its parts, and its head tells that length. */
  lemma DeviceFits(sh: seq<Shape>, before: nat)
    requires Feasible(sh, before)
    ensures FitsAll(DeviceDescs(sh, before)) && TotalLength(DeviceDescs(sh, before)) == 9 + Size(sh, |sh|)
    ensures Fits(Config(9 + Size(sh, |sh|), Count(sh, |sh|)))
  {
    Bounds(sh, 0, |sh|);
    TreeFits(sh, |sh|, before);
    var c := [Config(9 + Size(sh, |sh|), Count(sh, |sh|))];
    assert c[1..] == [];
    FitsAdd(c, TreeDescs(sh, |sh|, before));
    LengthAdd(c, TreeDescs(sh, |sh|, before));
  }
}
