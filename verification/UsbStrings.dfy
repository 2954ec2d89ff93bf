/**
 The string table, and how a string reaches the host (usb/usbdevice.cpp): bldstr prints it,
 ReqGetDescriptor finds a string in it, and the data stage sends it packet by packet.
 */
module UsbStrings {
  import opened Words
  import opened UsbTree
  import opened UsbGenerator

  const STRING_TYPE: Byte := 3
  const LANGUAGE: seq<Byte> := [4, 3, 9, 4]

  /** A C string that is short enough for the length byte of its descriptor. */
  predicate Registered(chars: seq<Byte>)
  {
    |chars| <= 126 && forall i :: 0 <= i < |chars| ==> chars[i] != 0
  }

  predicate AllRegistered(ss: seq<seq<Byte>>) { forall i :: 0 <= i < |ss| ==> Registered(ss[i]) }

  /** Every character becomes 16 bits. */
  function Wide(chars: seq<Byte>): (r: seq<Byte>)
    ensures |r| == 2 * |chars|
  {
    if chars == [] then [] else Wide(chars[..|chars| - 1]) + [chars[|chars| - 1], 0]
  }

  function StringDesc(chars: seq<Byte>): (r: seq<Byte>)
    requires Registered(chars)
    ensures |r| == 2 * (|chars| + 1) == r[0]
  {
    [2 * (|chars| + 1), STRING_TYPE] + Wide(chars)
  }

  /** The descriptors by index: the languages, then the strings as they were registered. */
  function Descs(ss: seq<seq<Byte>>): (ds: seq<seq<Byte>>)
    requires AllRegistered(ss)
    ensures |ds| == |ss| + 1 && ds[0] == LANGUAGE && forall k :: 1 <= k <= |ss| ==> ds[k] == StringDesc(ss[k - 1])
  {
    seq(|ss| + 1, k requires 0 <= k <= |ss| => if k == 0 then LANGUAGE else StringDesc(ss[k - 1]))
  }

  /** Every descriptor starts with its length. */
  ghost predicate SelfSized(ds: seq<seq<Byte>>)
  {
    forall k :: 0 <= k < |ds| ==> 2 <= |ds[k]| <= 254 && ds[k][0] == |ds[k]|
  }

  /** The first n descriptors, one after the other. */
  function Flat(ds: seq<seq<Byte>>, n: nat): seq<Byte>
    requires n <= |ds|
  {
    if n == 0 then [] else Flat(ds, n - 1) + ds[n - 1]
  }

  /** The whole string table. */
  function Table(ss: seq<seq<Byte>>): seq<Byte>
    requires AllRegistered(ss)
  {
    Flat(Descs(ss), |ss| + 1)
  }

  lemma {:induction false} FlatPrefix(ds: seq<seq<Byte>>, k: nat, n: nat)
    requires k <= n <= |ds|
    ensures Flat(ds, k) <= Flat(ds, n)
    decreases n
  {
    if k < n {
      FlatPrefix(ds, k, n - 1);
    }
  }

  /** A descriptor lies where the lengths before it say. */
  lemma FlatAt(table: seq<Byte>, ds: seq<seq<Byte>>, k: nat)
    requires k < |ds| && Flat(ds, |ds|) <= table
    ensures var o := |Flat(ds, k)|; o + |ds[k]| == |Flat(ds, k + 1)| <= |table| && table[o..o + |ds[k]|] == ds[k]
  {
    FlatPrefix(ds, k + 1, |ds|);
    var o, q := |Flat(ds, k)|, Flat(ds, k + 1);
    assert q == Flat(ds, k) + ds[k] && q <= table;
    assert table[o..|q|] == q[o..];
  }

  lemma Here(table: seq<Byte>, ds: seq<seq<Byte>>, k: nat)
    requires k < |ds| && Flat(ds, |ds|) <= table && SelfSized(ds)
    ensures var o := |Flat(ds, k)|;
      o + |ds[k]| == |Flat(ds, k + 1)| <= |table| && table[o] == |ds[k]| && table[o..o + |ds[k]|] == ds[k]
  {
    FlatAt(table, ds, k);
    var o := |Flat(ds, k)|;
    assert table[o] == table[o..o + |ds[k]|][0];
  }

  // ---------------------------------------------------------------------- printing

  /** The printing of one string. */
  method PrintString(chars: seq<Byte>) returns (out: seq<Byte>)
    requires Registered(chars)
    ensures out == StringDesc(chars)
  {
    out := [2 * (|chars| + 1), STRING_TYPE];
    for j := 0 to |chars|
      invariant out == [2 * (|chars| + 1), STRING_TYPE] + Wide(chars[..j])
    {
      out := out + [chars[j], 0];
      assert chars[..j + 1][..j] == chars[..j];
    }
    assert chars[..|chars|] == chars;
  }

  /** bldstr: the languages, then the entries of StringField that are in use. */
  method BldStr(g: Generator) returns (out: seq<Byte>)
    requires g.Valid() && AllRegistered(g.strings)
    ensures out == Table(g.strings)
  {
    out := LANGUAGE;
    for i := 0 to MAX_STRINGS
      invariant out == Flat(Descs(g.strings), 1 + if i < g.strCount then i else g.strCount)
    {
      if g.field[i].index == 0 { continue; }
      var d := PrintString(g.field[i].chars);
      out := out + d;
    }
  }

  // ---------------------------------------------------------------------- sending

  /** Data in packets of at most 64 bytes. */
  function Chunks(data: seq<Byte>): seq<seq<Byte>>
  {
    if data == [] then []
    else if |data| <= 64 then [data]
    else [data[..64]] + Chunks(data[64..])
  }

  function Joined(ps: seq<seq<Byte>>): seq<Byte>
  {
    if ps == [] then [] else ps[0] + Joined(ps[1..])
  }

  /** The packets make up the data, none is empty or too long, and all but the last are full. */
  lemma {:induction false} ChunksJoin(data: seq<Byte>)
    ensures Joined(Chunks(data)) == data
    ensures forall i :: 0 <= i < |Chunks(data)| ==> 1 <= |Chunks(data)[i]| <= 64
    ensures forall i :: 0 <= i < |Chunks(data)| - 1 ==> |Chunks(data)[i]| == 64
  {
    if |data| > 64 {
      ChunksJoin(data[64..]);
      assert Chunks(data)[1..] == Chunks(data[64..]);
      assert data == data[..64] + data[64..];
    } else if data != [] {
      assert [data][1..] == [] && Joined([data]) == data + Joined([]);
    }
  }

  /** A host that asked for so many bytes can tell from the packets that no more will come: it has all of them, or
      the last packet was not full. */
  predicate EndTold(ps: seq<seq<Byte>>, asked: nat)
  {
    |Joined(ps)| >= asked || (ps != [] && |ps[|ps| - 1]| < 64)
  }

  lemma {:induction false} LastChunk(data: seq<Byte>)
    requires data != []
    ensures Chunks(data) != [] && (|Chunks(data)[|Chunks(data)| - 1]| < 64 <==> |data| % 64 != 0)
  {
    if |data| > 64 {
      LastChunk(data[64..]);
      var rest := Chunks(data[64..]);
      assert Chunks(data)[|Chunks(data)| - 1] == rest[|rest| - 1];
    }
  }

  /** No empty packet closes the transfer; so the host can tell the end exactly unless it asked for more than there
      is and that is a multiple of 64 bytes. */
  lemma EndToldExactly(d: seq<Byte>, wLength: nat)
    ensures EndTold(Chunks(d[..if wLength > |d| then |d| else wLength]), wLength) <==>
      wLength <= |d| || |d| % 64 != 0
  {
    var data := d[..if wLength > |d| then |d| else wLength];
    ChunksJoin(data);
    if wLength > |d| {
      assert data == d;
      if d != [] { LastChunk(d); }
    }
  }

  /** For a string the host that asked for more misses the end exactly with 31, 63 or 95 characters. */
  lemma StringEndTold(chars: seq<Byte>, wLength: nat)
    requires Registered(chars)
    ensures var d := StringDesc(chars);
      EndTold(Chunks(d[..if wLength > |d| then |d| else wLength]), wLength) <==>
      wLength <= |d| || (|chars| + 1) % 32 != 0
  {
    EndToldExactly(StringDesc(chars), wLength);
  }

  class Endpoint0 {
    const table: seq<Byte>
    var pData: nat
    var count: nat
    var sent: seq<seq<Byte>>

    constructor (table: seq<Byte>)
      ensures this.table == table && sent == [] && count == 0 && pData == 0
    {
      this.table, pData, count, sent := table, 0, 0, [];
    }

    /** What is still to be sent. */
    ghost function Rest(): seq<Byte>
      requires pData + count <= |table|
      reads this
    {
      table[pData..pData + count]
    }

    /** DataInStage: the next packet, if there is anything left. */
    method DataInStage()
      requires pData + count <= |table|
      modifies this
      ensures pData + count <= |table|
      ensures old(Rest()) == [] ==> sent == old(sent) && Rest() == []
      ensures old(Rest()) != [] ==> sent + Chunks(Rest()) == old(sent) + Chunks(old(Rest()))
      ensures |sent| <= |old(sent)| + 1 && (old(count) > 0 ==> count < old(count))
    {
      var cnt := if count > 64 then 64 else count;
      if cnt == 0 { return; }
      ghost var rest := Rest();
      sent := sent + [table[pData..pData + cnt]];
      pData := pData + cnt;
      count := count - cnt;
      if |rest| > 64 {
        assert table[old(pData)..pData] == rest[..64] && Rest() == rest[64..];
        assert old(sent) + ([rest[..64]] + Chunks(rest[64..])) == sent + Chunks(Rest());
      } else {
        assert Rest() == [] && table[old(pData)..pData] == rest;
      }
    }

    /** GET_DESCRIPTOR for a string, up to its first packet. */
    method GetString(index: nat, wLength: nat, ghost ds: seq<seq<Byte>>)
      requires SelfSized(ds) && index < |ds| && Flat(ds, |ds|) <= table
      modifies this
      ensures pData + count <= |table|
      ensures var d := ds[index];
        sent + Chunks(Rest()) == old(sent) + Chunks(d[..if wLength > |d| then |d| else wLength])
    {
      var pD := 0;
      for n := 0 to index
        invariant pD == |Flat(ds, n)| && sent == old(sent)
      {
        Here(table, ds, n);
        if table[pD] != 0 { pD := pD + table[pD]; }
      }
      Here(table, ds, index);
      pData, count := pD, wLength;
      if count > table[pD] { count := table[pD]; }
      assert Rest() == table[pD..pD + |ds[index]|][..count] == ds[index][..count];
      DataInStage();
    }

    /** The whole transfer: the request, and IN packets taken until nothing is left. Whatever the
        index that AddString gave and the length that the host asks for, it gets exactly the first
        bytes of the string's descriptor. */
    method Deliver(index: nat, wLength: nat, ghost ss: seq<seq<Byte>>)
      requires AllRegistered(ss) && index <= |ss| && Table(ss) <= table
      modifies this
      ensures var d := Descs(ss)[index];
        sent == old(sent) + Chunks(d[..if wLength > |d| then |d| else wLength])
      ensures var d := Descs(ss)[index];
        |old(sent)| <= |sent| && (EndTold(sent[|old(sent)|..], wLength) <==> wLength <= |d| || |d| % 64 != 0)
    {
      EndToldExactly(Descs(ss)[index], wLength);
      GetString(index, wLength, Descs(ss));
      ghost var all := sent + Chunks(Rest());
      while count > 0
        invariant pData + count <= |table| && sent + Chunks(Rest()) == all
        decreases count
      {
        DataInStage();
      }
      assert Rest() == [];
    }
  }
}
