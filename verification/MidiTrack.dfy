/**
 Reading a track of a MIDI file: variable-length numbers, running status, and the search for the next
 event that matters (work/midi/hlp/miditonesV1.6.c, get_varlen and find_note).
 The file is memory read by address; addresses and times do not wrap.
 */
module MidiTrack {
  import opened Words

  type Memory = nat -> Byte

  ghost predicate Holds(mem: Memory, p: nat, bytes: seq<Byte>)
  {
    forall i {:trigger bytes[i]} :: 0 <= i < |bytes| ==> mem(p + i) == bytes[i]
  }

  lemma HoldsParts(mem: Memory, p: nat, a: seq<Byte>, b: seq<Byte>)
    requires Holds(mem, p, a + b)
    ensures Holds(mem, p, a) && Holds(mem, p + |a|, b)
  {
    forall i | 0 <= i < |a| ensures mem(p + i) == a[i] { assert (a + b)[i] == a[i]; }
    forall i | 0 <= i < |b| ensures mem(p + |a| + i) == b[i] { assert (a + b)[|a| + i] == b[i]; }
  }

  // ----------------------------------------------------- variable-length numbers

  /** Groups of seven bits up to address stop; every group but the last has its high bit set. */
  function Groups(mem: Memory, p: nat, stop: nat, val: nat): (r: (nat, nat))
    requires p <= stop
    ensures p <= r.1 <= stop && (p < stop ==> p < r.1)
    decreases stop - p
  {
    if p == stop then (val, p)
    else
      var b: int := mem(p);
      if b < 128 then (128 * val + b, p + 1) else Groups(mem, p + 1, stop, 128 * val + (b - 128))
  }

  /** A number of at most four groups, and the address after it. */
  function VarLen(mem: Memory, p: nat): (r: (nat, nat))
    ensures p < r.1 <= p + 4
  {
    Groups(mem, p, p + 4, 0)
  }

  method GetVarLen(mem: Memory, p: nat) returns (val: nat, q: nat)
    ensures (val, q) == VarLen(mem, p)
  {
    val, q := 0, p;
    for i := 0 to 4
      invariant q == p + i && Groups(mem, q, p + 4, val) == VarLen(mem, p)
    {
      var byte: int := mem(q);
      q := q + 1;
      val := 128 * val + byte % 128;
      if byte < 128 { return; }
    }
  }

  /** The shortest form of a number: its groups, the last one with its high bit clear. */
  function VarBytes(v: nat): seq<Byte>
  {
    Heads(v / 128) + [v % 128]
  }

  function Heads(u: nat): seq<Byte>
  {
    if u == 0 then [] else Heads(u / 128) + [128 + u % 128]
  }

  function Value(s: seq<Byte>, val: nat): nat
  {
    if s == [] then val else Value(s[1..], 128 * val + s[0] % 128)
  }

  lemma {:induction false} ValueAppend(s: seq<Byte>, b: Byte, val: nat)
    ensures Value(s + [b], val) == 128 * Value(s, val) + b % 128
  {
    if s == [] {
      assert [b][1..] == [];
    } else {
      assert (s + [b])[1..] == s[1..] + [b];
      ValueAppend(s[1..], b, 128 * val + s[0] % 128);
    }
  }

  function Seven(k: nat): nat
  {
    if k == 0 then 1 else 128 * Seven(k - 1)
  }

  lemma {:induction false} HeadsValue(u: nat, k: nat)
    requires u < Seven(k)
    ensures Value(Heads(u), 0) == u && |Heads(u)| <= k && forall i :: 0 <= i < |Heads(u)| ==> Heads(u)[i] >= 128
  {
    if u > 0 {
      HeadsValue(u / 128, k - 1);
      ValueAppend(Heads(u / 128), 128 + u % 128, 0);
    }
  }

  lemma VarLenReadsBack(mem: Memory, p: nat, v: nat)
    requires v < 0x1000_0000 && Holds(mem, p, VarBytes(v))
    ensures VarLen(mem, p) == (v, p + |VarBytes(v)|)
  {
    assert v / 128 < Seven(3);
    HeadsValue(v / 128, 3);
    ValueAppend(Heads(v / 128), v % 128, 0);
    GroupsReadBack(mem, p, p + 4, VarBytes(v), 0);
  }

  lemma {:induction false} GroupsReadBack(mem: Memory, p: nat, stop: nat, s: seq<Byte>, val: nat)
    requires s != [] && p + |s| <= stop && Holds(mem, p, s)
    requires s[|s| - 1] < 128 && forall i :: 0 <= i < |s| - 1 ==> s[i] >= 128
    ensures Groups(mem, p, stop, val) == (Value(s, val), p + |s|)
    decreases |s|
  {
    assert mem(p + 0) == s[0];
    if |s| > 1 {
      HoldsParts(mem, p, s[..1], s[1..]);
      GroupsReadBack(mem, p + 1, stop, s[1..], 128 * val + s[0] % 128);
    }
  }

  // ------------------------------------------------------------------ find_note

  datatype Cmd = Unread | Tempo | StopNote | PlayNote | Done

  datatype Track = Track(ptr: nat, end: nat, time: nat, tempo: nat, cmd: Cmd, note: Byte, last: Byte)

  /** One turn of the search: an event passed over, the event looked for, or a format error. */
  datatype Looked = Keep(t: Track) | Ready(t: Track) | Bad

  datatype Found = Found(t: Track) | Fault

  /** A big-endian number of three bytes. */
  function Three(a: int, b: int, c: int): int
  {
    0x1_0000 * a + 0x100 * b + c
  }

  function Big3(mem: Memory, p: nat): nat
  {
    Three(mem(p), mem(p + 1), mem(p + 2))
  }

  /** What an event does; q is the address after its status byte. */
  function Effect(mem: Memory, mask: set<int>, t: Track, event: Byte, q: nat): Looked
  {
    var t := t.(last := event);
    if event == 0xff then
      var next := q + 2 + mem(q + 1);
      if mem(q) == 0x51 then Ready(t.(ptr := next, cmd := Tempo, tempo := Big3(mem, q + 2))) else Keep(t.(ptr := next))
    else if event < 0x80 then Bad
    else if event < 0xa0 then
      var t := t.(note := mem(q), ptr := q + 2);
      if event % 16 !in mask then Keep(t)
      else Ready(t.(cmd := if event < 0x90 || mem(q + 1) == 0 then StopNote else PlayNote))
    else if event < 0xc0 then Keep(t.(ptr := q + 2))
    else if event < 0xe0 then Keep(t.(ptr := q + 1))
    else if event < 0xf0 then Keep(t.(ptr := q + 2))
    else var r := VarLen(mem, q); Keep(t.(ptr := r.0 + r.1))
  }

  function LookAt(mem: Memory, mask: set<int>, t: Track): (l: Looked)
    ensures l.Keep? || l.Ready? ==> t.ptr < l.t.ptr && l.t.end == t.end && t.time <= l.t.time
    ensures l.Ready? ==> l.t.cmd.Tempo? || l.t.cmd.StopNote? || l.t.cmd.PlayNote?
  {
    var d := VarLen(mem, t.ptr);
    var b := mem(d.1);
    if b < 0x80 then Effect(mem, mask, t.(time := t.time + d.0), t.last, d.1)
    else Effect(mem, mask, t.(time := t.time + d.0), b, d.1 + 1)
  }

  function Find(mem: Memory, mask: set<int>, t: Track): (f: Found)
    ensures f.Found? ==> f.t.end == t.end && t.time <= f.t.time
                         && (if f.t.cmd.Done? then f.t.end <= f.t.ptr else t.ptr < t.end && t.ptr < f.t.ptr)
                         && !f.t.cmd.Unread?
    decreases t.end - t.ptr
  {
    if t.end <= t.ptr then Found(t.(cmd := Done))
    else match LookAt(mem, mask, t)
      case Keep(u) => Find(mem, mask, u)
      case Ready(u) => Found(u)
      case Bad => Fault
  }

  /** The body of find_note's loop, once the status is known. */
  method TakeEvent(mem: Memory, mask: set<int>, track: Track, event: Byte, q: nat) returns (l: Looked)
    ensures l == Effect(mem, mask, track, event, q)
  {
    var t, p := track.(last := event), q;
    if event == 0xff {
      var metaCmd, metaLength := mem(p), mem(p + 1);
      p := p + 2;
      if metaCmd == 0x51 {
        return Ready(t.(cmd := Tempo, tempo := Big3(mem, p), ptr := p + metaLength));
      }
      return Keep(t.(ptr := p + metaLength));
    }
    if event < 0x80 {
      return Bad;
    }
    var kind, chan := event / 16, event % 16;
    if kind == 8 || kind == 9 {
      t := t.(note := mem(p), ptr := p + 2);
      if chan in mask {
        return Ready(t.(cmd := if kind == 8 || mem(p + 1) == 0 then StopNote else PlayNote));
      }
    } else if kind == 12 || kind == 13 {
      t := t.(ptr := p + 1);
    } else if kind == 15 {
      var length, r := GetVarLen(mem, p);
      t := t.(ptr := r + length);
    } else {
      t := t.(ptr := p + 2);
    }
    l := Keep(t);
  }

  /** The loop's body. */
  method LookAtNext(mem: Memory, mask: set<int>, t: Track) returns (l: Looked)
    ensures l == LookAt(mem, mask, t)
  {
    var delta, p := GetVarLen(mem, t.ptr);
    var event: Byte := t.last;
    if mem(p) >= 0x80 {
      event := mem(p);
      p := p + 1;
    }
    l := TakeEvent(mem, mask, t.(time := t.time + delta), event, p);
  }

  /** find_note: skips to the next note or tempo event of the chosen channels. */
  method FindNote(mem: Memory, mask: set<int>, track: Track) returns (found: Found)
    ensures found == Find(mem, mask, track)
  {
    var t := track;
    while t.ptr < t.end
      invariant Find(mem, mask, t) == Find(mem, mask, track)
    {
      var l := LookAtNext(mem, mask, t);
      match l
      case Keep(u) => t := u;
      case Ready(u) => return Found(u);
      case Bad => return Fault;
    }
    found := Found(t.(cmd := Done));
  }

  // ------------------------------------------------- what the format's author wrote

  /** An event of the standard: a channel message, a system message or a meta event. */
  datatype Wire =
    | Channel(kind: nat, chan: nat, a: Byte, b: Byte)
    | SysEx(status: Byte, data: seq<Byte>)
    | Meta(code: Byte, text: seq<Byte>)

  predicate Wellformed(w: Wire)
  {
    match w
    case Channel(kind, chan, _, _) => 8 <= kind < 15 && chan < 16
    case SysEx(status, body) => 0xf0 <= status < 0xff && |body| < 0x1000_0000
    case Meta(kind, body) => |body| < 256 && (kind == 0x51 ==> |body| == 3)
  }

  function Status(w: Wire): Byte
    requires Wellformed(w)
  {
    match w
    case Channel(kind, chan, _, _) => 16 * kind + chan
    case SysEx(status, _) => status
    case Meta(_, _) => 0xff
  }

  function Body(w: Wire): (b: seq<Byte>)
    requires Wellformed(w)
    ensures b != []
  {
    match w
    case Channel(kind, _, a, b) => if kind == 12 || kind == 13 then [a] else [a, b]
    case SysEx(_, body) => VarBytes(|body|) + body
    case Meta(kind, body) => [kind, |body|] + body
  }

  /** An event with its distance from the one before, written with or without its status byte. */
  datatype Item = Item(delta: nat, wire: Wire, running: bool)

  predicate Writable(i: Item, last: Byte)
  {
    && i.delta < 0x1000_0000 && Wellformed(i.wire)
    && (i.running ==> Status(i.wire) == last && Body(i.wire)[0] < 0x80)
  }

  predicate AllWritable(items: seq<Item>, last: Byte)
  {
    items != [] ==> Writable(items[0], last) && AllWritable(items[1..], Status(items[0].wire))
  }

  function StatusBytes(i: Item): seq<Byte>
    requires Wellformed(i.wire)
  {
    if i.running then [] else [Status(i.wire)]
  }

  function TrackBytes(items: seq<Item>, last: Byte): seq<Byte>
    requires AllWritable(items, last)
  {
    if items == [] then []
    else VarBytes(items[0].delta) + (StatusBytes(items[0]) + (Body(items[0].wire)
         + TrackBytes(items[1..], Status(items[0].wire))))
  }

  datatype Event = Off(time: nat, note: Byte) | On(time: nat, note: Byte) | NewTempo(time: nat, usec: nat) | Broken

  /** The events that matter, at their own times. */
  function Heard(items: seq<Item>, last: Byte, mask: set<int>, time: nat): seq<Event>
    requires AllWritable(items, last)
  {
    if items == [] then []
    else
      var now := time + items[0].delta;
      Sense(items[0].wire, mask, now) + Heard(items[1..], Status(items[0].wire), mask, now)
  }

  lemma HeardFirst(items: seq<Item>, last: Byte, mask: set<int>, time: nat)
    requires items != [] && AllWritable(items, last)
    ensures Heard(items, last, mask, time) == Sense(items[0].wire, mask, time + items[0].delta)
         + Heard(items[1..], Status(items[0].wire), mask, time + items[0].delta)
  {
  }

  function Sense(w: Wire, mask: set<int>, now: nat): seq<Event>
    requires Wellformed(w)
  {
    match w
    case Channel(kind, chan, a, b) =>
      if kind > 9 || chan !in mask then [] else if kind == 8 || b == 0 then [Off(now, a)] else [On(now, a)]
    case Meta(kind, body) =>
      if kind == 0x51 then [NewTempo(now, Three(body[0], body[1], body[2]))] else []
    case SysEx(_, _) => []
  }

  function EventOf(t: Track): Event
    requires !t.cmd.Unread? && !t.cmd.Done?
  {
    match t.cmd
    case Tempo => NewTempo(t.time, t.tempo)
    case StopNote => Off(t.time, t.note)
    case _ => On(t.time, t.note)
  }

  /** The events that find_note stops at, one call after the other, up to a format error. */
  function Listen(mem: Memory, mask: set<int>, t: Track): seq<Event>
    decreases if t.ptr < t.end then t.end - t.ptr else 0
  {
    match Find(mem, mask, t)
    case Fault => [Broken]
    case Found(u) => if u.cmd.Done? then [] else [EventOf(u)] + Listen(mem, mask, u)
  }

  lemma ReadsItem(mem: Memory, mask: set<int>, t: Track, i: Item, rest: seq<Byte>)
    requires Writable(i, t.last)
    requires Holds(mem, t.ptr, VarBytes(i.delta) + (StatusBytes(i) + (Body(i.wire) + rest)))
    ensures var l := LookAt(mem, mask, t); var sense := Sense(i.wire, mask, t.time + i.delta);
      && !l.Bad? && l.t.ptr == t.ptr + |VarBytes(i.delta)| + |StatusBytes(i)| + |Body(i.wire)|
      && Holds(mem, l.t.ptr, rest) && l.t.time == t.time + i.delta && l.t.last == Status(i.wire)
      && if l.Keep? then sense == [] else sense == [EventOf(l.t)]
  {
    var d, st, b := VarBytes(i.delta), StatusBytes(i), Body(i.wire);
    HoldsParts(mem, t.ptr, d, st + (b + rest));
    VarLenReadsBack(mem, t.ptr, i.delta);
    var p := t.ptr + |d|;
    HoldsParts(mem, p, st, b + rest);
    var q := p + |st|;
    HoldsParts(mem, q, b, rest);
    assert mem(q + 0) == b[0];
    if !i.running { assert mem(p + 0) == st[0]; }
    var u := t.(time := t.time + i.delta);
    assert LookAt(mem, mask, t) == Effect(mem, mask, u, Status(i.wire), q);
    ReadsBody(mem, mask, u, i.wire, q);
  }

  lemma ReadsBody(mem: Memory, mask: set<int>, t: Track, w: Wire, q: nat)
    requires Wellformed(w) && Holds(mem, q, Body(w))
    ensures var l := Effect(mem, mask, t, Status(w), q); var sense := Sense(w, mask, t.time);
      && !l.Bad? && l.t.ptr == q + |Body(w)| && l.t.time == t.time && l.t.last == Status(w)
      && if l.Keep? then sense == [] else l.Ready? && !l.t.cmd.Unread? && !l.t.cmd.Done? && sense == [EventOf(l.t)]
  {
    var b := Body(w);
    assert mem(q + 0) == b[0];
    match w
    case Channel(kind, chan, _, _) =>
      assert |b| > 1 ==> mem(q + 1) == b[1];
    case SysEx(_, body) =>
      HoldsParts(mem, q, VarBytes(|body|), body);
      VarLenReadsBack(mem, q, |body|);
    case Meta(kind, body) =>
      assert mem(q + 1) == b[1];
      if kind == 0x51 {
        assert mem(q + 2) == b[2] && mem(q + 3) == b[3] && mem(q + 4) == b[4];
      }
  }

  /** A listener, described only where it is asked about. */
  predicate Asked(t: Track) { true }

  ghost predicate Listens(listen: Track -> seq<Event>, mem: Memory, mask: set<int>)
  {
    forall t {:trigger Asked(t)} :: Asked(t) ==> listen(t) == Listen(mem, mask, t)
  }

  /** What is heard from here on, when the first item has been read. */
  lemma HearFirst(listen: Track -> seq<Event>, mem: Memory, mask: set<int>, t: Track, i: Item, rest: seq<Byte>)
    returns (u: Track)
    requires Listens(listen, mem, mask) && Writable(i, t.last) && t.ptr < t.end
    requires Holds(mem, t.ptr, VarBytes(i.delta) + (StatusBytes(i) + (Body(i.wire) + rest)))
    ensures u.ptr == t.ptr + |VarBytes(i.delta) + (StatusBytes(i) + (Body(i.wire) + rest))| - |rest|
    ensures Holds(mem, u.ptr, rest) && u.time == t.time + i.delta && u.last == Status(i.wire) && u.end == t.end
    ensures listen(t) == Sense(i.wire, mask, t.time + i.delta) + listen(u)
  {
    ReadsItem(mem, mask, t, i, rest);
    u := LookAt(mem, mask, t).t;
    assert Asked(t) && Asked(u);
  }

  lemma HearNone(listen: Track -> seq<Event>, mem: Memory, mask: set<int>, t: Track)
    requires Listens(listen, mem, mask) && t.end <= t.ptr
    ensures listen(t) == []
  {
    assert Asked(t);
  }

  lemma {:induction false} HearAll(listen: Track -> seq<Event>, mem: Memory, mask: set<int>, t: Track, items: seq<Item>)
    requires Listens(listen, mem, mask)
    requires AllWritable(items, t.last) && Holds(mem, t.ptr, TrackBytes(items, t.last))
    requires t.end == t.ptr + |TrackBytes(items, t.last)|
    ensures listen(t) == Heard(items, t.last, mask, t.time)
    decreases |items|
  {
    if items == [] {
      HearNone(listen, mem, mask, t);
    } else {
      var last := Status(items[0].wire);
      var u := HearFirst(listen, mem, mask, t, items[0], TrackBytes(items[1..], last));
      HearAll(listen, mem, mask, u, items[1..]);
      HeardFirst(items, t.last, mask, t.time);
    }
  }

  /** A written track is heard as it was meant, without a fault, whatever status bytes its writer saved. */
  lemma TrackReadsBack(mem: Memory, mask: set<int>, t: Track, items: seq<Item>)
    requires AllWritable(items, t.last) && Holds(mem, t.ptr, TrackBytes(items, t.last))
    requires t.end == t.ptr + |TrackBytes(items, t.last)|
    ensures Listen(mem, mask, t) == Heard(items, t.last, mask, t.time)
  {
    var listen := t => Listen(mem, mask, t);
    HearAll(listen, mem, mask, t, items);
  }
}
