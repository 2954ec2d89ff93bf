/**
 The generator of the descriptor tables: building the tree, enumerating it, printing it, and
 registering strings (usb/usbdevice.cpp, usb/class/usbclass.cpp, usb/class/cdclass.cpp). The
 classes hang on the device in an array and are updated in place.
 */
module UsbGenerator {
  import opened Words
  import opened UsbTree

  /** An entry of StringField; index 0 marks a free one. */
  datatype Entry = Entry(index: nat, chars: seq<Byte>)

  /** The numbers of a class before they are given. */
  function Blank(sh: Shape): Class
  {
    match sh
    case CdcShape(_) => Cdc(0, Interface(Ctrl, 0, 0, 0), Interface(Data, 0, 0, 0))
    case MscShape(_) => Msc(Interface(Storage, 0, 0, 0))
  }

  /** Class n of a device when only the endpoint addresses are given. */
  function Built(sh: Shape, i: nat): Class
  {
    match sh
    case CdcShape(_) => Cdc(0, Interface(Ctrl, i + 1, 0, 0), Interface(Data, i + 2, 0, 0))
    case MscShape(_) => Msc(Interface(Storage, i + 1, 0, 0))
  }

  lemma TreeDescsNext(sh: seq<Shape>, n: nat, before: nat, base: seq<Descriptor>, a: seq<Descriptor>, c: Class)
    requires n < |sh| && a == base + TreeDescs(sh, n, before) && c == ClassAt(sh, n, before)
    ensures a + ClassDescs(c) == base + TreeDescs(sh, n + 1, before)
  {
    assert (base + TreeDescs(sh, n, before)) + ClassDescs(c) == base + (TreeDescs(sh, n, before) + ClassDescs(c));
  }

  class Generator {
    const shape: seq<Shape>
    const classes: array<Class>
    const field: array<Entry>
    var useEps: nat  // endpoints in use, the control endpoint included
    var useIfs: nat  // interfaces in use
    var ifCount: nat
    var strCount: nat
    var out: seq<Descriptor>
    ghost var strings: seq<seq<Byte>>

    ghost predicate Valid()
      reads this, field
    {
      && classes.Length == |shape|
      && field.Length == MAX_STRINGS && strCount == |strings| <= MAX_STRINGS
      && forall i :: 0 <= i < MAX_STRINGS ==>
           if i < strCount then field[i] == Entry(i + 1, strings[i]) else field[i].index == 0
    }

    constructor (shape: seq<Shape>)
      ensures Valid() && this.shape == shape && strings == [] && out == [] && fresh(field) && fresh(classes)
      ensures useEps == 1 && useIfs == 0
      ensures forall i {:trigger classes[i]} :: 0 <= i < |shape| ==> classes[i] == Blank(shape[i])
    {
      this.shape := shape;
      classes := new Class[|shape|](i requires 0 <= i < |shape| => Blank(shape[i]));
      field := new Entry[MAX_STRINGS](_ => Entry(0, []));
      useEps, useIfs := 1, 0;
      ifCount, strCount, out, strings := 0, 0, [], [];
    }

    /** buildDev: endpoint addresses in the order of the interfaces, from 1 on, and how many of both there are. */
    method BuildDev()
      requires Valid() && forall i {:trigger classes[i]} :: 0 <= i < |shape| ==> classes[i] == Blank(shape[i])
      requires useEps == 1 && useIfs == 0
      modifies classes, `useEps, `useIfs
      ensures useEps == 1 + Count(shape, |shape|) && useIfs == Count(shape, |shape|)
      ensures forall i {:trigger classes[i]} :: 0 <= i < |shape| ==> classes[i] == Built(shape[i], Count(shape, i))
    {
      var k, l := useEps, useIfs;
      for n := 0 to classes.Length
        invariant k == 1 + Count(shape, n) && l == Count(shape, n)
        invariant forall i {:trigger classes[i]} :: 0 <= i < |shape| ==>
          classes[i] == if i < n then Built(shape[i], Count(shape, i)) else Blank(shape[i])
      {
        match classes[n]
        case Cdc(iFunction, ctrl, data) =>
          classes[n] := Cdc(iFunction, ctrl.(addr := k), data.(addr := k + 1));
          k, l := k + 2, l + 2;
        case Msc(iface) =>
          classes[n] := Msc(iface.(addr := k));
          k, l := k + 1, l + 1;
      }
      useEps, useIfs := k, l;
    }

    /** AddString: the index by which a string is known from now on; 0 for no string. */
    method AddString(text: Text) returns (index: nat)
      requires Valid() && (text.Text? ==> strCount < MAX_STRINGS)
      modifies `strCount, `strings, field
      ensures Valid() && strings == old(strings) + (if text.Text? then [text.chars] else [])
      ensures index == if text.Text? then old(strCount) + 1 else 0
    {
      if text.Text? {
        field[strCount] := Entry(strCount + 1, text.chars);
        strings := strings + [text.chars];
        strCount := strCount + 1;
        return strCount;
      }
      return 0;
    }

    /** UsbEndpoint::enumerate. */
    method EnumerateEndpoint(f: Interface, input: nat) returns (res: nat)
      ensures res == input + if f.role == Ctrl then 7 else 14
    {
      res := input + 7;
      if f.role != Ctrl { res := res + 7; }
    }

    /** UsbInterface::enumerate, with what CtrlIface puts before it. */
    method EnumerateInterface(f: Interface, input: nat) returns (r: Interface, res: nat)
      modifies `ifCount
      ensures ifCount == old(ifCount) + 1 && r == f.(number := old(ifCount), str := 0)
      ensures res == input + if f.role == Ctrl then 35 else 23
    {
      res := input;
      if f.role == Ctrl { res := res + 19; }
      res := res + 9;
      res := EnumerateEndpoint(f, res);
      r := f.(number := ifCount, str := 0);
      ifCount := ifCount + 1;
    }

    /** The enumerate methods of the two classes. */
    method EnumerateClass(c: Class, text: Text, input: nat) returns (r: Class, res: nat)
      requires Valid() && strCount < MAX_STRINGS
      modifies `ifCount, `strCount, `strings, field
      ensures Valid() && strings == old(strings) + (if text.Text? then [text.chars] else [])
      ensures var i, index := old(ifCount), if text.Text? then old(strCount) + 1 else 0;
        match c
        case Cdc(_, ctrl, data) =>
          && r == Cdc(index, ctrl.(number := i, str := 0), data.(number := i + 1, str := 0)) && ifCount == i + 2
          && res == input + 8 + (if ctrl.role == Ctrl then 35 else 23) + (if data.role == Ctrl then 35 else 23)
        case Msc(iface) =>
          && r == Msc(iface.(number := i, str := index)) && ifCount == i + 1
          && res == input + if iface.role == Ctrl then 35 else 23
    {
      match c
      case Cdc(_, ctrl, data) =>
        var index := AddString(text);
        res := input + 8;
        var ctrl', data';
        ctrl', res := EnumerateInterface(ctrl, res);
        data', res := EnumerateInterface(data, res);
        r := Cdc(index, ctrl', data');
      case Msc(iface) =>
        var iface';
        iface', res := EnumerateInterface(iface, input);
        var index := AddString(text);
        r := Msc(iface'.(str := index));
    }

    /** UsbDevice::enumerate: numbers, string indices, and the length of it all. */
    method Enumerate(input: nat) returns (res: nat)
      requires Valid() && Feasible(shape, strCount)
      requires forall i {:trigger classes[i]} :: 0 <= i < |shape| ==> classes[i] == Built(shape[i], Count(shape, i))
      modifies `ifCount, `strCount, `strings, field, classes
      ensures Valid() && ifCount == Count(shape, |shape|)
      ensures forall i {:trigger classes[i]} :: 0 <= i < |shape| ==> classes[i] == ClassAt(shape, i, old(strCount))
      ensures res == input + 9 + Size(shape, |shape|) && strings == old(strings) + Texts(shape, |shape|)
    {
      ifCount := 0;
      res := input + 9;
      for n := 0 to classes.Length
        invariant Valid() && ifCount == Count(shape, n) && strCount == old(strCount) + StringCount(shape, n)
        invariant forall i {:trigger classes[i]} :: 0 <= i < |shape| ==>
          classes[i] == if i < n then ClassAt(shape, i, old(strCount)) else Built(shape[i], Count(shape, i))
        invariant res == input + 9 + Size(shape, n) && strings == old(strings) + Texts(shape, n)
      {
        Bounds(shape, n, n);
        var c;
        c, res := EnumerateClass(classes[n], shape[n].text, res);
        classes[n] := c;
      }
    }

    /** StructOut: one more descriptor in the table; `Print` gives the bytes. */
    method StructOut(d: Descriptor)
      requires Fits(d)
      modifies `out
      ensures out == old(out) + [d]
    {
      out := out + [d];
    }

    /** blddsc of an interface with its endpoint. */
    method BldInterface(f: Interface)
      requires SmallInterface(f)
      modifies `out
      ensures out == old(out) + InterfaceDescs(f)
    {
      StructOut(Iface(f.role, f.number, f.str));
      if f.role == Ctrl {
        StructOut(Header);
        StructOut(CallManagement(f.number + 1));
        StructOut(ControlManagement);
        StructOut(Union(f.number));
        StructOut(Endpoint(f.addr, true, true));
      } else {
        StructOut(Endpoint(f.addr, false, false));
        StructOut(Endpoint(f.addr, true, false));
      }
    }

    method BldClass(c: Class)
      requires Small(c)
      modifies `out
      ensures out == old(out) + ClassDescs(c)
    {
      match c
      case Cdc(iFunction, ctrl, data) =>
        StructOut(Assoc(ctrl.number, iFunction));
        BldInterface(ctrl);
        BldInterface(data);
      case Msc(iface) =>
        BldInterface(iface);
    }

    /** The printing loop of bldcfg. */
    method BldClasses(ghost before: nat)
      requires classes.Length == |shape|
      requires forall i {:trigger classes[i]} :: 0 <= i < |shape| ==>
        classes[i] == ClassAt(shape, i, before) && Small(classes[i])
      modifies `out
      ensures out == old(out) + TreeDescs(shape, |shape|, before)
    {
      for n := 0 to classes.Length
        invariant out == old(out) + TreeDescs(shape, n, before)
      {
        ghost var prev := out;
        var c := classes[n];
        BldClass(c);
        TreeDescsNext(shape, n, before, old(out), prev, c);
      }
    }

    /** bldcfg: the table is as long as `enumerate` said, and as it says itself; its head has the interfaces that
        buildDev counted, which are those that `enumerate` numbered. */
    method BldCfg() returns (len: nat)
      requires Valid() && out == [] && Feasible(shape, strCount)
      requires forall i {:trigger classes[i]} :: 0 <= i < |shape| ==> classes[i] == Built(shape[i], Count(shape, i))
      requires useIfs == Count(shape, |shape|)
      modifies `ifCount, `strCount, `strings, `out, field, classes
      ensures Valid() && strings == old(strings) + Texts(shape, |shape|) && ifCount == useIfs
      ensures out == DeviceDescs(shape, old(strCount)) && FitsAll(out) && len == TotalLength(out)
    {
      DeviceFits(shape, strCount);
      ghost var before := strCount;
      len := Enumerate(0);
      StructOut(Config(len, useIfs));
      forall i | 0 <= i < |shape|
        ensures Small(classes[i])
      {
        ClassAtFits(shape, i, before);
      }
      BldClasses(before);
    }
  }
}
