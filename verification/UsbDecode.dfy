/**
 How a host reads what the generator prints: every descriptor byte by byte, by chapter 9 of the USB 2.0
 specification and the class specifications, and the strings.
 */
module UsbDecode {
  import opened Words
  import opened UsbTree
  import opened UsbWalk
  import opened UsbStrings

  datatype Decoded = Unknown | Known(d: Descriptor)

  function Number16(lo: nat, hi: nat): nat { lo + 0x100 * hi }

  /** One configuration, without a text, powered by the bus with 100 mA. */
  function DecodeConfig(e: seq<Byte>): Decoded
    requires |e| == 9
  {
    if e[5] == 1 && e[6] == 0 && e[7] == 0x80 && e[8] == 50 then Known(Config(Number16(e[2], e[3]), e[4])) else Unknown
  }

  /** An interface without alternatives: class, subclass and protocol tell its role, and it has one endpoint for
      control and two for data. */
  function DecodeInterface(e: seq<Byte>): Decoded
    requires |e| == 9
  {
    if e[3] != 0 then Unknown
    else if e[4] == 1 && e[5] == 0x02 && e[6] == 0x02 && e[7] == 0x00 then Known(Iface(Ctrl, e[2], e[8]))
    else if e[4] == 2 && e[5] == 0x0A && e[6] == 0x00 && e[7] == 0x00 then Known(Iface(Data, e[2], e[8]))
    else if e[4] == 2 && e[5] == 0x08 && e[6] == 0x06 && e[7] == 0x50 then Known(Iface(Storage, e[2], e[8]))
    else Unknown
  }

  /** Two interfaces that belong together, as a communication device. */
  function DecodeAssociation(e: seq<Byte>): Decoded
    requires |e| == 8
  {
    if e[3] == 2 && e[4] == 0x02 && e[5] == 0x02 && e[6] == 0x00 then Known(Assoc(e[2], e[7])) else Unknown
  }

  /** The functional descriptors of a communication interface. */
  function DecodeFunctional(e: seq<Byte>): Decoded
    requires 4 <= |e|
  {
    if e[2] == 0x00 && |e| == 5 && Number16(e[3], e[4]) == 0x0110 then Known(Header)
    else if e[2] == 0x01 && |e| == 5 && e[3] == 0 then Known(CallManagement(e[4]))
    else if e[2] == 0x02 && |e| == 4 && e[3] == 0x02 then Known(ControlManagement)
    else if e[2] == 0x06 && |e| == 5 && e[4] as int == (e[3] as int) + 1 then Known(Union(e[3]))
    else Unknown
  }

  /** An endpoint: interrupt with packets of 16 bytes, polled every 2 frames, or bulk with packets of 64 bytes. */
  function DecodeEndpoint(e: seq<Byte>): Decoded
    requires |e| == 7
  {
    var dirIn, addr := e[2] >= 0x80, e[2] % 0x80;
    var size := Number16(e[4], e[5]);
    if e[3] == 0x03 && size == 16 && e[6] == 2 then Known(Endpoint(addr, dirIn, true))
    else if e[3] == 0x02 && size == 64 && e[6] == 0 then Known(Endpoint(addr, dirIn, false))
    else Unknown
  }

  function Decode(e: seq<Byte>): Decoded
  {
    if |e| < 4 || e[0] as int != |e| then Unknown
    else if e[1] == 0x02 && |e| == 9 then DecodeConfig(e)
    else if e[1] == 0x04 && |e| == 9 then DecodeInterface(e)
    else if e[1] == 0x05 && |e| == 7 then DecodeEndpoint(e)
    else if e[1] == 0x0B && |e| == 8 then DecodeAssociation(e)
    else if e[1] == 0x24 then DecodeFunctional(e)
    else Unknown
  }

  /** Only the mass-storage interface has a text of its own. */
  predicate Canonical(d: Descriptor) { d.Iface? && d.role != Storage ==> d.str == 0 }

  /** What is printed for a descriptor, a host reads as that descriptor. */
  lemma DecodeEncoding(d: Descriptor)
    requires Fits(d) && Canonical(d)
    ensures Decode(Encoding(d)) == Known(d)
  {
  }

  // ------------------------------------------------------------------ whole tables

  ghost predicate AllCanonical(ds: seq<Descriptor>) { forall i :: 0 <= i < |ds| ==> Canonical(ds[i]) }

  lemma ClassCanonical(sh: Shape, i: nat, s: nat)
    ensures AllCanonical(ClassDescs(Numbered(sh, i, s)))
  {
  }

  lemma {:induction false} JoinedCanonical(part: nat -> seq<Descriptor>, n: nat)
    requires forall k: nat :: k < n ==> AllCanonical(part(k))
    ensures AllCanonical(UsbTree.Joined(part, n))
  {
    if n > 0 { JoinedCanonical(part, n - 1); }
  }

  lemma DeviceCanonical(sh: seq<Shape>, before: nat)
    ensures AllCanonical(DeviceDescs(sh, before))
  {
    var part := (k: nat) => Part(sh, before, k);
    forall k: nat | k < |sh| ensures AllCanonical(part(k)) {
      ClassCanonical(sh[k], Count(sh, k), before + StringCount(sh, k));
    }
    JoinedCanonical(part, |sh|);
  }

  /** A host that goes through the table of a device by the length bytes reads its descriptors one after the other. */
  lemma TableDecodes(sh: seq<Shape>, before: nat, j: nat)
    requires Feasible(sh, before) && j < |DeviceDescs(sh, before)|
    ensures var ds := DeviceDescs(sh, before);
      FitsAll(ds) && var table, o, n := Print(ds, |ds|), Offset(ds, j), Length(ds[j]);
      o + n == Offset(ds, j + 1) <= |table| && table[o] as int == n && Decode(table[o..o + n]) == Known(ds[j])
  {
    DeviceFits(sh, before);
    DeviceCanonical(sh, before);
    var ds := DeviceDescs(sh, before);
    Placed(ds, j, |ds|);
    EncodingLength(ds[j]);
    DecodeEncoding(ds[j]);
    assert Print(ds, |ds|)[Offset(ds, j)] == Print(ds, |ds|)[Offset(ds, j)..Offset(ds, j + 1)][0];
  }

  // ------------------------------------------------------------- interfaces and endpoints

  /** What f finds in the descriptors, one after the other. */
  function Found(f: Descriptor -> seq<nat>, ds: seq<Descriptor>): seq<nat>
  {
    if ds == [] then [] else f(ds[0]) + Found(f, ds[1..])
  }

  lemma {:induction false} FoundConcat(f: Descriptor -> seq<nat>, a: seq<Descriptor>, b: seq<Descriptor>)
    ensures Found(f, a + b) == Found(f, a) + Found(f, b)
  {
    if a == [] {
      assert a + b == b;
    } else {
      assert (a + b)[1..] == a[1..] + b;
      FoundConcat(f, a[1..], b);
    }
  }

  lemma FoundOne(f: Descriptor -> seq<nat>, d: Descriptor)
    ensures Found(f, [d]) == f(d)
  {
    assert [d][1..] == [];
  }

  lemma FoundThree(f: Descriptor -> seq<nat>, a: Descriptor, b: Descriptor, c: Descriptor)
    ensures Found(f, [a, b, c]) == f(a) + (f(b) + f(c))
  {
    assert [a, b, c][1..] == [b, c] && [b, c][1..] == [c];
    FoundOne(f, c);
  }

  /** The number of an interface, the address of an endpoint, and 16 more when it is for IN. */
  function NumberOf(d: Descriptor): seq<nat> { if d.Iface? then [d.number] else [] }

  function AddressOf(d: Descriptor): seq<nat> { if d.Endpoint? then [d.addr + if d.dirIn then 16 else 0] else [] }

  /** The numbers of the interfaces, as they come. */
  function Numbers(ds: seq<Descriptor>): seq<nat> { Found(NumberOf, ds) }

  function Addresses(ds: seq<Descriptor>): seq<nat> { Found(AddressOf, ds) }

  /** What f finds in an interface. */
  lemma InInterface(f: Descriptor -> seq<nat>, i: Interface)
    ensures var d := Iface(i.role, i.number, i.str);
      Found(f, InterfaceDescs(i)) ==
        if i.role == Ctrl then
          (f(d) + (f(Header) + f(CallManagement(i.number + 1))))
          + (f(ControlManagement) + (f(Union(i.number)) + f(Endpoint(i.addr, true, true))))
        else f(d) + (f(Endpoint(i.addr, false, false)) + f(Endpoint(i.addr, true, false)))
  {
    if i.role == Ctrl {
      var a := [Iface(i.role, i.number, i.str), Header, CallManagement(i.number + 1)];
      var b := [ControlManagement, Union(i.number), Endpoint(i.addr, true, true)];
      assert InterfaceDescs(i) == a + b;
      FoundConcat(f, a, b);
      FoundThree(f, a[0], a[1], a[2]);
      FoundThree(f, b[0], b[1], b[2]);
    } else {
      FoundThree(f, Iface(i.role, i.number, i.str), Endpoint(i.addr, false, false), Endpoint(i.addr, true, false));
    }
  }

  function UpTo(i: nat, n: nat): (r: seq<nat>)
    ensures |r| == n && forall k :: 0 <= k < n ==> r[k] == i + k
  {
    seq(n, (k: nat) => i + k)
  }

  lemma InterfaceNumber(i: Interface)
    ensures Numbers(InterfaceDescs(i)) == [i.number]
  {
    InInterface(NumberOf, i);
  }

  lemma ClassNumbers(sh: Shape, i: nat, s: nat)
    ensures Numbers(ClassDescs(Numbered(sh, i, s))) == UpTo(i, if sh.CdcShape? then 2 else 1)
  {
    match Numbered(sh, i, s)
    case Cdc(iFunction, ctrl, data) =>
      var a := [Assoc(ctrl.number, iFunction)];
      FoundOne(NumberOf, a[0]);
      FoundConcat(NumberOf, a, InterfaceDescs(ctrl));
      FoundConcat(NumberOf, a + InterfaceDescs(ctrl), InterfaceDescs(data));
      InterfaceNumber(ctrl);
      InterfaceNumber(data);
    case Msc(iface) =>
      InterfaceNumber(iface);
  }

  /** The interfaces have the numbers from i on, below j. */
  ghost predicate OnFrom(ds: seq<Descriptor>, i: nat, j: nat)
  {
    i <= j && Numbers(ds) == UpTo(i, j - i)
  }

  /** Parts whose interfaces are numbered on from count to count. */
  ghost predicate NumberedOn(part: nat -> seq<Descriptor>, count: nat -> nat, n: nat)
  {
    count(0) == 0 && forall k: nat :: k < n ==> OnFrom(part(k), count(k), count(k + 1))
  }

  lemma {:induction false} JoinedNumbers(part: nat -> seq<Descriptor>, count: nat -> nat, n: nat)
    requires NumberedOn(part, count, n)
    ensures Numbers(UsbTree.Joined(part, n)) == UpTo(0, count(n))
  {
    if n > 0 {
      JoinedNumbers(part, count, n - 1);
      FoundConcat(NumberOf, UsbTree.Joined(part, n - 1), part(n - 1));
      assert OnFrom(part(n - 1), count(n - 1), count(n - 1 + 1));
      assert UpTo(0, count(n - 1)) + UpTo(count(n - 1), count(n) - count(n - 1)) == UpTo(0, count(n));
    }
  }

  function CountUpTo(sh: seq<Shape>, k: nat): nat { if k <= |sh| then Count(sh, k) else 0 }

  lemma PartNumbers(sh: seq<Shape>, before: nat, k: nat)
    requires k < |sh|
    ensures OnFrom(Part(sh, before, k), CountUpTo(sh, k), CountUpTo(sh, k + 1))
  {
    ClassNumbers(sh[k], Count(sh, k), before + StringCount(sh, k));
  }

  lemma TreeNumbers(sh: seq<Shape>, before: nat)
    ensures Numbers(TreeDescs(sh, |sh|, before)) == UpTo(0, Count(sh, |sh|))
  {
    var part, count := (k: nat) => Part(sh, before, k), (k: nat) => CountUpTo(sh, k);
    forall k: nat | k < |sh| ensures OnFrom(part(k), count(k), count(k + 1)) { PartNumbers(sh, before, k); }
    JoinedNumbers(part, count, |sh|);
  }

  /** The interfaces of a device are numbered from 0 on without a gap, as many as its head tells. */
  lemma InterfacesInOrder(sh: seq<Shape>, before: nat)
    ensures var ds := DeviceDescs(sh, before);
      ds[0].Config? && Numbers(ds) == UpTo(0, ds[0].interfaces)
  {
    TreeNumbers(sh, before);
    var head := [Config(9 + Size(sh, |sh|), Count(sh, |sh|))];
    FoundOne(NumberOf, head[0]);
    FoundConcat(NumberOf, head, TreeDescs(sh, |sh|, before));
  }

  /** An interface tells how many endpoint descriptors follow it: one for IN, or one for OUT and one for IN, all
      with the address of the interface. */
  lemma EndpointsTold(i: Interface)
    requires Fits(InterfaceDescs(i)[0])
    ensures Addresses(InterfaceDescs(i)) == if i.role == Ctrl then [i.addr + 16] else [i.addr, i.addr + 16]
    ensures |Addresses(InterfaceDescs(i))| == Encoding(InterfaceDescs(i)[0])[4] as int
  {
    InInterface(AddressOf, i);
    match i.role
    case Ctrl =>
    case Data =>
    case Storage =>
  }

  // ------------------------------------------------------------------------- strings

  lemma {:induction false} WideAt(chars: seq<Byte>, i: nat)
    requires i < |chars|
    ensures Wide(chars)[2 * i] == chars[i] && Wide(chars)[2 * i + 1] == 0
  {
    if i < |chars| - 1 {
      WideAt(chars[..|chars| - 1], i);
    }
  }

  /** A string descriptor: its length, its type, and 16 bits for each character, the lower byte first; the
      first descriptor of all tells the language, English (United States). */
  lemma StringReads(chars: seq<Byte>, i: nat)
    requires Registered(chars) && i < |chars|
    ensures var e := StringDesc(chars);
      e[0] as int == 2 * |chars| + 2 && e[1] == 0x03 && Number16(e[2 * i + 2], e[2 * i + 3]) == chars[i] as int
    ensures |LANGUAGE| == 4 && LANGUAGE[0] == 4 && LANGUAGE[1] == 0x03
            && Number16(LANGUAGE[2], LANGUAGE[3]) == 0x0409
  {
    WideAt(chars, i);
  }
}
