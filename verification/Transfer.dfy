/**
 One frame's worth of data between a USB request block of the host and the queue of requests of
 the device (lib/unix/driver/dummy_hcd.c, linear buffers).
 */
module Transfer {
  import opened Words

  datatype Status = InProgress | Success | Overflow

  /** A request of the device; `data` is its whole buffer. */
  datatype Request = Request(id: nat, data: seq<Byte>, actual: nat, zero: bool, stream: nat, status: Status)

  /** Requests have their own identity, and wait. */
  ghost predicate Queued(q: seq<Request>)
  {
    && (forall i :: 0 <= i < |q| ==> q[i].actual <= |q[i].data| && q[i].status == InProgress)
    && (forall i, j :: 0 <= i < j < |q| ==> q[i].id != q[j].id)
  }

  /** Each request as the transfer found it. */
  type Found = map<nat, Request>

  /** Between two looks at a request only the bytes between its counts were written, and none of them by
      a transfer to the host. */
  ghost predicate Grown(a: Request, b: Request, toHost: bool)
  {
    && b == a.(data := b.data, actual := b.actual, status := b.status)
    && a.actual <= b.actual <= |b.data| == |a.data|
    && b.data[..a.actual] == a.data[..a.actual] && b.data[b.actual..] == a.data[b.actual..]
    && (toHost ==> b.data == a.data)
  }

  ghost predicate Kept(r: Request, base: Found, toHost: bool)
  {
    r.id in base && Grown(base[r.id], r, toHost)
  }

  ghost predicate Known(q: seq<Request>, base: Found, toHost: bool)
  {
    forall i {:trigger Kept(q[i], base, toHost)} :: 0 <= i < |q| ==> Kept(q[i], base, toHost)
  }

  function FoundOf(q: seq<Request>): Found
  {
    if q == [] then map[] else FoundOf(q[..|q| - 1])[q[|q| - 1].id := q[|q| - 1]]
  }

  lemma {:induction false} FoundKnows(q: seq<Request>)
    requires forall i, j :: 0 <= i < j < |q| ==> q[i].id != q[j].id
    ensures forall i :: 0 <= i < |q| ==> q[i].id in FoundOf(q) && FoundOf(q)[q[i].id] == q[i]
  {
    if q != [] {
      FoundKnows(q[..|q| - 1]);
      assert forall i :: 0 <= i < |q| - 1 ==> q[..|q| - 1][i] == q[i];
    }
  }

  /** The bytes that went through a request since. */
  function Window(r: Request, base: Found): seq<Byte>
  {
    if r.id in base && base[r.id].actual <= r.actual <= |r.data| then r.data[base[r.id].actual..r.actual] else []
  }

  function Windows(q: seq<Request>, base: Found): seq<Byte>
  {
    if q == [] then [] else Window(q[0], base) + Windows(q[1..], base)
  }

  lemma {:induction false} WindowsConcat(a: seq<Request>, b: seq<Request>, base: Found)
    ensures Windows(a + b, base) == Windows(a, base) + Windows(b, base)
  {
    if a == [] {
      assert a + b == b;
    } else {
      assert (a + b)[1..] == a[1..] + b;
      WindowsConcat(a[1..], b, base);
    }
  }

  lemma {:induction false} NoWindows(q: seq<Request>, base: Found)
    requires forall i :: 0 <= i < |q| ==> Window(q[i], base) == []
    ensures Windows(q, base) == []
  {
    if q != [] { NoWindows(q[1..], base); }
  }

  /** The windows around request i. */
  lemma WindowsAt(q: seq<Request>, i: nat, base: Found)
    requires i < |q|
    ensures Windows(q, base) == Windows(q[..i], base) + Window(q[i], base) + Windows(q[i + 1..], base)
  {
    assert q == q[..i] + ([q[i]] + q[i + 1..]);
    WindowsConcat(q[..i], [q[i]] + q[i + 1..], base);
    WindowsConcat([q[i]], q[i + 1..], base);
  }

  /** The requests of other streams, in the order of the queue. */
  function OthersOf(q: seq<Request>, stream: nat): seq<Request>
  {
    if q == [] then [] else (if q[0].stream != stream then [q[0]] else []) + OthersOf(q[1..], stream)
  }

  lemma {:induction false} OthersConcat(a: seq<Request>, b: seq<Request>, stream: nat)
    ensures OthersOf(a + b, stream) == OthersOf(a, stream) + OthersOf(b, stream)
  {
    if a == [] {
      assert a + b == b;
    } else {
      assert (a + b)[1..] == a[1..] + b;
      OthersConcat(a[1..], b, stream);
    }
  }

  /** A request of the stream is none of the others, whether it is there or not. */
  lemma OthersStay(a: seq<Request>, t: Request, b: seq<Request>, stream: nat)
    requires t.stream == stream
    ensures OthersOf(a + ([t] + b), stream) == OthersOf(a + b, stream)
  {
    OthersConcat(a, [t] + b, stream);
    OthersConcat(a, b, stream);
    assert ([t] + b)[1..] == b;
  }

  lemma {:induction false} OthersIn(q: seq<Request>, stream: nat)
    ensures forall r :: r in OthersOf(q, stream) <==> r in q && r.stream != stream
  {
    if q != [] {
      OthersIn(q[1..], stream);
      assert q == [q[0]] + q[1..];
    }
  }

  /** What the counts of the requests have grown by. */
  function Growth(q: seq<Request>, base: Found): int
  {
    if q == [] then 0 else (if q[0].id in base then q[0].actual - base[q[0].id].actual else 0) + Growth(q[1..], base)
  }

  lemma {:induction false} GrowthShows(q: seq<Request>, base: Found, toHost: bool)
    requires Known(q, base, toHost)
    ensures Growth(q, base) == |Windows(q, base)|
  {
    if q != [] {
      assert Kept(q[0], base, toHost);
      assert forall i {:trigger Kept(q[1..][i], base, toHost)} :: 0 <= i < |q[1..]| ==>
        q[1..][i] == q[i + 1] && Kept(q[i + 1], base, toHost);
      GrowthShows(q[1..], base, toHost);
    }
  }

  /** Request i has become r: in its place while it is in progress, else at the end of those given back. */
  ghost predicate Placed(q0: seq<Request>, q: seq<Request>, g0: seq<Request>, g: seq<Request>, i: nat, r: Request)
    requires i < |q0|
  {
    if r.status == InProgress then q == q0[i := r] && g == g0 else q == q0[..i] + q0[i + 1..] && g == g0 + [r]
  }

  lemma StayedWindows(q: seq<Request>, i: nat, r: Request, base: Found)
    requires i < |q|
    ensures Windows(q[i := r], base) == Windows(q[..i], base) + Window(r, base) + Windows(q[i + 1..], base)
  {
    var q1 := q[i := r];
    assert q1[..i] == q[..i] && q1[i + 1..] == q[i + 1..];
    WindowsAt(q1, i, base);
  }

  lemma PlacedWindows(q0: seq<Request>, q: seq<Request>, g0: seq<Request>, g: seq<Request>, i: nat, r: Request,
                      base: Found)
    requires i < |q0| && Placed(q0, q, g0, g, i, r)
    ensures Windows(g, base) + Windows(q, base)
         == if r.status == InProgress then
              Windows(g0, base) + (Windows(q0[..i], base) + Window(r, base) + Windows(q0[i + 1..], base))
            else
              Windows(g0, base) + Window(r, base) + (Windows(q0[..i], base) + Windows(q0[i + 1..], base))
  {
    if r.status == InProgress {
      StayedWindows(q0, i, r, base);
    } else {
      WindowsConcat(g0, [r], base);
      assert Windows([r], base) == Window(r, base);
      WindowsConcat(q0[..i], q0[i + 1..], base);
    }
  }

  function Ids(q: seq<Request>): seq<nat>
  {
    seq(|q|, i requires 0 <= i < |q| => q[i].id)
  }

  lemma IdsMore(q: seq<Request>, r: Request)
    ensures Ids(q + [r]) == Ids(q) + [r.id]
  {
  }

  lemma PlacedIds(q0: seq<Request>, q: seq<Request>, g0: seq<Request>, g: seq<Request>, i: nat, r: Request)
    requires i < |q0| && Placed(q0, q, g0, g, i, r) && r.id == q0[i].id
    ensures multiset(Ids(g)) + multiset(Ids(q)) == multiset(Ids(g0)) + multiset(Ids(q0))
  {
    if r.status == InProgress {
      assert Ids(q) == Ids(q0);
    } else {
      var ids := Ids(q0);
      assert Ids(g) == Ids(g0) + [r.id];
      assert Ids(q) == ids[..i] + ids[i + 1..];
      assert ids == ids[..i] + [r.id] + ids[i + 1..];
    }
  }

  /** s without the elements of `gone`, in its order. */
  function Without(s: seq<nat>, gone: seq<nat>): seq<nat>
  {
    if s == [] then [] else (if s[0] in gone then [] else [s[0]]) + Without(s[1..], gone)
  }

  lemma {:induction false} WithoutConcat(a: seq<nat>, b: seq<nat>, gone: seq<nat>)
    ensures Without(a + b, gone) == Without(a, gone) + Without(b, gone)
  {
    if a == [] {
      assert a + b == b;
    } else {
      assert (a + b)[1..] == a[1..] + b;
      WithoutConcat(a[1..], b, gone);
    }
  }

  lemma {:induction false} WithoutOneMore(s: seq<nat>, gone: seq<nat>, x: nat)
    ensures Without(s, gone + [x]) == Without(Without(s, gone), [x])
  {
    if s != [] {
      WithoutOneMore(s[1..], gone, x);
      WithoutConcat(if s[0] in gone then [] else [s[0]], Without(s[1..], gone), [x]);
    }
  }

  lemma {:induction false} WithoutNone(s: seq<nat>, gone: seq<nat>)
    requires forall i :: 0 <= i < |s| ==> s[i] !in gone
    ensures Without(s, gone) == s
  {
    if s != [] { WithoutNone(s[1..], gone); }
  }

  lemma WithoutHead(x: nat, b: seq<nat>)
    requires x !in b
    ensures Without([x] + b, [x]) == b
  {
    assert ([x] + b)[1..] == b;
    WithoutNone(b, [x]);
  }

  /** One element of a list without repetitions goes, and the others keep their order. */
  lemma WithoutAt(a: seq<nat>, x: nat, b: seq<nat>)
    requires x !in a && x !in b
    ensures Without(a + ([x] + b), [x]) == a + b
  {
    WithoutConcat(a, [x] + b, [x]);
    WithoutHead(x, b);
    WithoutNone(a, [x]);
  }

  lemma IdsAround(q: seq<Request>, i: nat)
    requires i < |q|
    ensures Ids(q) == Ids(q[..i]) + ([q[i].id] + Ids(q[i + 1..]))
    ensures Ids(q[..i] + q[i + 1..]) == Ids(q[..i]) + Ids(q[i + 1..])
  {
  }

  /** No request is lost: those given back and the queue make up q0, and the queue has its order. */
  ghost predicate NoneLost(q: seq<Request>, done: seq<Request>, q0: seq<Request>)
  {
    multiset(Ids(done)) + multiset(Ids(q)) == multiset(Ids(q0)) && Ids(q) == Without(Ids(q0), Ids(done))
  }

  lemma NoneLostYet(q: seq<Request>)
    ensures NoneLost(q, [], q)
  {
    assert Ids([]) == [];
    WithoutNone(Ids(q), []);
  }

  lemma OneGone(a: seq<nat>, x: nat, b: seq<nat>, all: seq<nat>, gone: seq<nat>)
    requires a + ([x] + b) == Without(all, gone) && x !in a && x !in b
    ensures a + b == Without(all, gone + [x])
  {
    WithoutOneMore(all, gone, x);
    WithoutAt(a, x, b);
  }

  /** A request given back leaves the rest of the queue as it was. */
  lemma NoneLostStep(q0: seq<Request>, q: seq<Request>, g0: seq<Request>, g: seq<Request>, i: nat, r: Request,
                     first: seq<Request>)
    requires i < |q0| && Placed(q0, q, g0, g, i, r) && r.id == q0[i].id && Queued(q0) && NoneLost(q0, g0, first)
    ensures NoneLost(q, g, first)
  {
    PlacedIds(q0, q, g0, g, i, r);
    if r.status == InProgress {
      assert Ids(q) == Ids(q0);
    } else {
      IdsAround(q0, i);
      IdsMore(g0, r);
      OneGone(Ids(q0[..i]), r.id, Ids(q0[i + 1..]), Ids(first), Ids(g0));
    }
  }

  /** New bytes of one window end up last, the other windows being shut. */
  lemma InOrder(g: seq<Byte>, a: seq<Byte>, w: seq<Byte>, b: seq<Byte>, news: seq<Byte>)
    requires w + news != [] ==> a == [] && b == []
    ensures g + (a + (w + news) + b) == g + (a + w + b) + news
    ensures g + (w + news) + (a + b) == g + (a + w + b) + news
  {
    if w + news == [] {
      assert w == [] && news == [];
    }
  }

  function Min(a: nat, b: nat): nat { if a < b then a else b }

  /** n bytes make whole packets of m. */
  predicate Packets(n: nat, m: nat)
    requires 0 < m
  {
    n == 0 || (m <= n && Packets(n - m, m))
  }

  lemma {:induction false} PacketsJoin(a: nat, b: nat, m: nat)
    requires 0 < m && Packets(a, m) && Packets(b, m)
    ensures Packets(a + b, m)
  {
    if 0 < a {
      PacketsJoin(a - m, b, m);
      assert a + b - m == a - m + b;
    }
  }

  lemma {:induction false} CountedPackets(k: nat, m: nat)
    requires 0 < m
    ensures 0 <= k * m && Packets(k * m, m)
  {
    if k == 0 {
      assert k * m == 0;
    } else {
      CountedPackets(k - 1, m);
      assert k * m == (k - 1) * m + m;
    }
  }

  /** Fewer bytes than a packet after whole packets are not whole packets. */
  lemma {:induction false} ShortTail(a: nat, tail: nat, m: nat)
    requires 0 < tail < m && Packets(a, m)
    ensures !Packets(a + tail, m)
  {
    if 0 < a {
      ShortTail(a - m, tail, m);
      assert a + tail - m == a - m + tail;
    }
  }

  /** What is left without the remainder. */
  lemma WholePart(n: nat, m: nat)
    requires 0 < m
    ensures 0 <= n - n % m && Packets(n - n % m, m)
    ensures m <= n ==> 0 < n - n % m
  {
    assert n == n / m * m + n % m;
    CountedPackets(n / m, m);
  }

  /** What one look at a request decides: how much is sent, whether the packet ends the transfer, and
      whether the queue is to be scanned again because of it. */
  datatype Plan = Stop | Plan(len: nat, short: bool, rescan: bool)

  class Endpoint {
    const maxPacket: nat
    const toHost: bool
    const streams: bool
    const stream: nat
    const zeroPacket: bool
    const buf: array<Byte>
    var actual: nat
    var status: Status
    var queue: seq<Request>
    var given: seq<Request> // requests given back to the device

    constructor (maxPacket: nat, toHost: bool, streams: bool, stream: nat, zeroPacket: bool, buf: array<Byte>,
                 actual: nat, queue: seq<Request>)
      requires 0 < maxPacket && actual <= buf.Length && Queued(queue)
      ensures Valid() && given == [] && this.queue == queue && this.actual == actual && this.buf == buf
      ensures status == InProgress && this.zeroPacket == zeroPacket
      ensures this.toHost == toHost && this.streams == streams && this.stream == stream && this.maxPacket == maxPacket
    {
      this.maxPacket, this.toHost, this.streams, this.stream := maxPacket, toHost, streams, stream;
      this.zeroPacket, this.buf, this.actual, this.queue := zeroPacket, buf, actual, queue;
      status, given := InProgress, [];
    }

    ghost predicate Valid()
      reads this
    {
      0 < maxPacket && actual <= buf.Length && Queued(queue)
    }

    predicate Matches(r: Request)
    {
      !streams || r.stream == stream
    }

    /** Requests before number i belong to other streams. */
    ghost predicate FirstFrom(q: seq<Request>, i: nat)
    {
      forall j :: 0 <= j < i && j < |q| ==> !Matches(q[j])
    }

    /** Requests before number i belong to other streams, or want more once nothing is left of the frame. */
    ghost predicate Passed(q: seq<Request>, i: nat, left: nat)
    {
      forall j :: 0 <= j < i && j < |q| && Matches(q[j]) ==> left == 0 && q[j].actual < |q[j].data|
    }

    /** Only the first waiting request of the stream has moved anything. */
    ghost predicate OneWindow(q: seq<Request>, base: Found)
    {
      forall j {:trigger Window(q[j], base)} :: 0 <= j < |q| && Window(q[j], base) != [] ==>
        Matches(q[j]) && FirstFrom(q, j)
    }

    function Decide(req: Request, limit: nat): Plan
      reads this
      requires actual <= buf.Length && req.actual <= |req.data| && 0 < maxPacket
    {
      var len := Min(buf.Length - actual, |req.data| - req.actual);
      if len == 0 then Plan(0, true, false)
      else if limit < maxPacket && limit < len then Stop
      else
        var len := Min(len, limit);
        if len == 0 then Stop
        else if len >= maxPacket then Plan(len - len % maxPacket, false, len % maxPacket != 0)
        else Plan(len, true, false)
    }

    /** What a plan moves: a short packet is all that one side still had room for; others are full. */
    lemma PlanMoves(req: Request, limit: nat)
      requires Valid() && req.actual <= |req.data|
      ensures match Decide(req, limit)
              case Stop => limit < maxPacket && limit < buf.Length - actual && limit < |req.data| - req.actual
              case Plan(len, true, _) =>
                len < maxPacket && len <= limit && len == Min(buf.Length - actual, |req.data| - req.actual)
              case Plan(len, false, _) => 0 < len <= limit && Packets(len, maxPacket)
    {
      WholePart(Min(Min(buf.Length - actual, |req.data| - req.actual), limit), maxPacket);
    }

    /** With nothing left of the frame a look is still taken exactly at a request that wants no data, or for a
        block that has no room; it then ends the transfer. */
    lemma EmptyLook(req: Request)
      requires Valid() && req.actual <= |req.data|
      ensures Decide(req, 0).Plan? <==> actual == buf.Length || req.actual == |req.data|
      ensures Decide(req, 0).Plan? ==> Decide(req, 0) == Plan(0, true, false)
    {
      PlanMoves(req, 0);
    }

    /** memcpy into the block of the host. */
    method CopyToHost(src: seq<Byte>)
      requires actual + |src| <= buf.Length
      modifies buf
      ensures buf[..] == old(buf[..actual]) + src + old(buf[actual + |src|..])
    {
      for i := 0 to |src|
        invariant forall k :: 0 <= k < buf.Length ==>
                    buf[k] == if actual <= k < actual + i then src[k - actual] else old(buf[k])
      {
        buf[actual + i] := src[i];
      }
    }

    /** memcpy into the buffer of a request. */
    method CopyToDevice(data: seq<Byte>, at: nat, len: nat) returns (d: seq<Byte>)
      requires actual + len <= buf.Length && at + len <= |data|
      ensures d == data[..at] + buf[actual..actual + len] + data[at + len..]
    {
      d := data;
      for i := 0 to len
        invariant d == data[..at] + buf[actual..actual + i] + data[at + i..]
      {
        d := d[at + i := buf[actual + i]];
      }
    }

    /** dummy_perform_transfer and the counts after it: the same bytes leave one side and enter the other. */
    method PerformTransfer(req: Request, len: nat) returns (r: Request)
      requires actual + len <= buf.Length && req.actual + len <= |req.data|
      modifies `actual, buf
      ensures actual == old(actual) + len && r.actual == req.actual + len && Grown(req, r, toHost)
      ensures BufGrown(old(buf[..]), buf[..], old(actual), actual)
      ensures buf[old(actual)..actual] == r.data[req.actual..r.actual]
    {
      r := req;
      if toHost {
        CopyToHost(req.data[req.actual..req.actual + len]);
      } else {
        var d := CopyToDevice(req.data, req.actual, len);
        r := r.(data := d);
      }
      actual := actual + len;
      r := r.(actual := req.actual + len);
    }

    /** Only the bytes between the two counts were written, and none by a transfer to the device. */
    ghost predicate BufGrown(before: seq<Byte>, after: seq<Byte>, from: nat, to: nat)
      requires from <= to <= |before| == |after|
    {
      && after[..from] == before[..from] && after[to..] == before[to..]
      && (!toHost ==> after == before)
    }

    /** The verdict on a request, and on the request block, after its packet. */
    function Verdict(req: Request, hostLen: nat, devLen: nat, short: bool): (Status, Status, bool)
      reads this
    {
      if short then
        if hostLen == devLen then (Success, Success, false)
        else if toHost then (Success, if devLen > hostLen then Overflow else Success, false)
        else (if hostLen > devLen then Overflow else Success, Success, false)
      else
        var full, done := req.actual == |req.data|, actual == buf.Length;
        (if full && !(req.zero && toHost) then Success else InProgress,
         if done && !(zeroPacket && !toHost) then Success else InProgress,
         (full && req.zero && toHost) || (done && zeroPacket && !toHost))
    }

    /** How a packet ends things: a short one ends both sides, with overflow exactly for the side that had
        more to give than the other could take; another one ends a side exactly when that side is exhausted
        and owes no empty packet. */
    ghost predicate Ends(short: bool, r: Request)
      reads `actual, `status
    {
      && (r.status == Overflow <==> short && !toHost && r.actual == |r.data| && actual < buf.Length)
      && (status == Overflow <==> short && toHost && actual == buf.Length && r.actual < |r.data|)
      && (r.status == InProgress <==> !short && (r.actual < |r.data| || (r.zero && toHost)))
      && (status == InProgress <==> !short && (actual < buf.Length || (zeroPacket && !toHost)))
    }

    /** The packets of one look: a short one, after which one side has no more, or full ones; and their effect. */
    ghost predicate Sent(len: nat, short: bool, r: Request)
      requires 0 < maxPacket
      reads `actual, `status
    {
      && Ends(short, r) && r.actual <= |r.data|
      && (short ==> len < maxPacket && (r.actual == |r.data| || actual == buf.Length))
      && (!short ==> 0 < len <= r.actual && Packets(len, maxPacket))
    }

    /** One look at request i: it moves what the plan says, and the request waits on or is given back. */
    method OneRequest(i: nat, limit: nat, plan: Plan) returns (rescan: bool, ghost r: Request)
      requires Valid() && i < |queue| && status == InProgress && plan == Decide(queue[i], limit) && plan.Plan?
      modifies this, buf
      ensures Valid() && plan.len <= limit && actual == old(actual) + plan.len
      ensures BufGrown(old(buf[..]), buf[..], old(actual), actual)
      ensures r.actual == old(queue)[i].actual + plan.len && Grown(old(queue)[i], r, toHost)
      ensures buf[old(actual)..actual] == r.data[old(queue)[i].actual..r.actual]
      ensures Placed(old(queue), queue, old(given), given, i, r) && Sent(plan.len, plan.short, r)
      ensures rescan && |queue| == |old(queue)| ==> plan.len > 0
      ensures status == InProgress && !rescan ==>
              plan.len == limit && queue == old(queue)[i := r] && r.actual < |r.data|
    {
      PlanMoves(queue[i], limit);
      var req := queue[i];
      var hostLen, devLen := buf.Length - actual, |req.data| - req.actual;
      var after := req;
      if plan.len > 0 {
        after := PerformTransfer(req, plan.len);
      }
      var v := Verdict(after, hostLen, devLen, plan.short);
      after, status, rescan := after.(status := v.0), v.1, plan.rescan || v.2;
      r := after;
      var gone := PutBack(i, after);
      rescan := rescan || gone;
    }

    /** Request i, as it is after its packet: back to its place, or to the device. */
    method PutBack(i: nat, r: Request) returns (gone: bool)
      requires Queued(queue) && i < |queue| && r.actual <= |r.data| && r.id == queue[i].id
      modifies `queue, `given
      ensures Queued(queue) && Placed(old(queue), queue, old(given), given, i, r)
      ensures gone == (r.status != InProgress)
    {
      gone := r.status != InProgress;
      if gone {
        queue := queue[..i] + queue[i + 1..];
        given := given + [r];
      } else {
        queue := queue[i := r];
      }
    }

    lemma WindowGrows(before: Request, r: Request, base: Found)
      requires before.id in base && Grown(base[before.id], before, toHost) && Grown(before, r, toHost)
      ensures r.id in base && Grown(base[r.id], r, toHost)
      ensures Window(r, base) == Window(before, base) + r.data[before.actual..r.actual]
    {
      var a := base[before.id];
      assert r.data[..a.actual] == r.data[..before.actual][..a.actual];
      assert before.data[r.actual..] == before.data[before.actual..][r.actual - before.actual..];
      assert a.data[r.actual..] == a.data[before.actual..][r.actual - before.actual..];
      assert r.data[a.actual..before.actual] == r.data[..before.actual][a.actual..];
      assert before.data[a.actual..before.actual] == before.data[..before.actual][a.actual..];
    }

    /** Once request i is the first of its stream, nobody else's window is open. */
    lemma OnlyWindow(q: seq<Request>, i: nat, base: Found)
      requires i < |q| && OneWindow(q, base) && Matches(q[i]) && FirstFrom(q, i)
      ensures Windows(q[..i], base) == [] && Windows(q[i + 1..], base) == []
    {
      NoWindows(q[..i], base);
      NoWindows(q[i + 1..], base);
    }

    /** The bytes of a look come last, with its request still in the queue. */
    lemma StepInPlace(q0: seq<Request>, g0: seq<Request>, i: nat, r: Request, base: Found)
      requires i < |q0| && OneWindow(q0, base) && Matches(q0[i])
      requires q0[i].id in base && Grown(base[q0[i].id], q0[i], toHost) && Grown(q0[i], r, toHost)
      requires q0[i].actual < r.actual ==> FirstFrom(q0, i)
      ensures Windows(g0, base) + Windows(q0[i := r], base)
           == Windows(g0, base) + Windows(q0, base) + r.data[q0[i].actual..r.actual]
    {
      WindowGrows(q0[i], r, base);
      WindowsAt(q0, i, base);
      if Window(r, base) != [] {
        OnlyWindow(q0, i, base);
      }
      StayedWindows(q0, i, r, base);
      InOrder(Windows(g0, base), Windows(q0[..i], base), Window(q0[i], base), Windows(q0[i + 1..], base),
              r.data[q0[i].actual..r.actual]);
    }

    lemma StepWindows(q0: seq<Request>, q: seq<Request>, g0: seq<Request>, g: seq<Request>, i: nat, r: Request,
                      base: Found)
      requires i < |q0| && Placed(q0, q, g0, g, i, r) && OneWindow(q0, base) && Matches(q0[i])
      requires q0[i].id in base && Grown(base[q0[i].id], q0[i], toHost) && Grown(q0[i], r, toHost)
      requires q0[i].actual < r.actual ==> FirstFrom(q0, i)
      ensures Windows(g, base) + Windows(q, base)
           == Windows(g0, base) + Windows(q0, base) + r.data[q0[i].actual..r.actual]
    {
      WindowGrows(q0[i], r, base);
      WindowsAt(q0, i, base);
      if Window(r, base) != [] {
        OnlyWindow(q0, i, base);
      }
      PlacedWindows(q0, q, g0, g, i, r, base);
      InOrder(Windows(g0, base), Windows(q0[..i], base), Window(q0[i], base), Windows(q0[i + 1..], base),
              r.data[q0[i].actual..r.actual]);
    }

    lemma StepOne(q0: seq<Request>, q: seq<Request>, g0: seq<Request>, g: seq<Request>, i: nat, r: Request,
                  base: Found)
      requires i < |q0| && Placed(q0, q, g0, g, i, r) && OneWindow(q0, base) && Matches(q0[i])
      requires q0[i].id in base && Grown(base[q0[i].id], q0[i], toHost) && Grown(q0[i], r, toHost)
      requires q0[i].actual < r.actual ==> FirstFrom(q0, i)
      ensures OneWindow(q, base)
    {
      WindowGrows(q0[i], r, base);
      forall j | 0 <= j < |q| && Window(q[j], base) != [] ensures Matches(q[j]) && FirstFrom(q, j) {
        var k := if r.status == InProgress || j < i then j else j + 1;
        if k != i {
          assert q[j] == q0[k];
        } else {
          assert q[j] == r;
        }
      }
    }

    /** A waiting request that was filled owes an empty packet. */
    ghost predicate Owing(q: seq<Request>, base: Found)
    {
      forall j {:trigger Window(q[j], base)} :: 0 <= j < |q| && Window(q[j], base) != [] ==>
        q[j].actual == |q[j].data| ==> q[j].zero && toHost
    }

    lemma StepOwing(q0: seq<Request>, q: seq<Request>, g0: seq<Request>, g: seq<Request>, i: nat, r: Request,
                    base: Found)
      requires i < |q0| && Placed(q0, q, g0, g, i, r) && Owing(q0, base)
      requires r.status == InProgress && r.actual == |r.data| ==> r.zero && toHost
      ensures Owing(q, base)
    {
      forall j | 0 <= j < |q| && Window(q[j], base) != [] && q[j].actual == |q[j].data| ensures q[j].zero && toHost {
        if r.status != InProgress || j != i {
          var k := if r.status == InProgress || j < i then j else j + 1;
          assert q[j] == q0[k] && Window(q0[k], base) != [];
        }
      }
    }

    ghost predicate AllKnown(g: seq<Request>, q: seq<Request>, base: Found)
    {
      Known(g, base, toHost) && Known(q, base, toHost)
    }

    lemma StepKnown(q0: seq<Request>, q: seq<Request>, g0: seq<Request>, g: seq<Request>, i: nat, r: Request,
                    base: Found)
      requires i < |q0| && Placed(q0, q, g0, g, i, r) && AllKnown(g0, q0, base) && Grown(q0[i], r, toHost)
      ensures AllKnown(g, q, base)
    {
      assert Kept(q0[i], base, toHost);
      WindowGrows(q0[i], r, base);
      forall j | 0 <= j < |q| ensures Kept(q[j], base, toHost) {
        if r.status != InProgress || j != i {
          var k := if r.status == InProgress || j < i then j else j + 1;
          assert q[j] == q0[k] && Kept(q0[k], base, toHost);
        }
      }
      forall j | 0 <= j < |g| ensures Kept(g[j], base, toHost) {
        assert j < |g0| ==> g[j] == g0[j] && Kept(g0[j], base, toHost);
      }
    }

    /** Everything that holds between two looks of one transfer. */
    ghost predicate Tallied(q: seq<Request>, done: seq<Request>, moved: seq<Byte>, q0: seq<Request>, base: Found)
    {
      && OneWindow(q, base) && Owing(q, base) && AllKnown(done, q, base)
      && Windows(done, base) + Windows(q, base) == moved
      && NoneLost(q, done, q0) && (streams ==> Apart(q, done, q0))
    }

    /** Other streams are left alone: their requests wait where and as they were, and none of them is given back. */
    ghost predicate Apart(q: seq<Request>, done: seq<Request>, q0: seq<Request>)
    {
      OthersOf(q, stream) == OthersOf(q0, stream) && forall k :: 0 <= k < |done| ==> done[k].stream == stream
    }

    lemma ApartStep(q0: seq<Request>, q: seq<Request>, g0: seq<Request>, g: seq<Request>, i: nat, r: Request,
                    first: seq<Request>)
      requires i < |q0| && Placed(q0, q, g0, g, i, r) && Apart(q0, g0, first)
      requires q0[i].stream == stream && r.stream == stream
      ensures Apart(q, g, first)
    {
      var a, b := q0[..i], q0[i + 1..];
      Around(q0, i, r);
      OthersStay(a, q0[i], b, stream);
      OthersStay(a, r, b, stream);
    }

    /** What a transfer does not touch: with streams, every request of another one, which is still in the queue as
        it was found and was not given back; and all that was given back is of the stream. */
    lemma OthersUntouched(q: seq<Request>, done: seq<Request>, moved: seq<Byte>, q0: seq<Request>, r: Request)
      requires Account(q, done, moved, q0) && streams && r.stream != stream
      ensures r in q <==> r in q0
      ensures r !in done
    {
      assert Opened(true);
      OthersIn(q, stream);
      OthersIn(q0, stream);
      assert r in OthersOf(q, stream) <==> r in OthersOf(q0, stream);
    }

    /** The stream's requests are those that carry its number; without streams they are all. */
    lemma {:induction false} StreamHas(q: seq<Request>, r: Request)
      requires r in q && (streams ==> r.stream == stream)
      ensures r.id in StreamIds(q)
    {
      if q[0] != r { StreamHas(q[1..], r); }
    }

    lemma {:induction false} StreamOnly(q: seq<Request>, id: nat) returns (r: Request)
      requires id in StreamIds(q)
      ensures r in q && r.id == id && (streams ==> r.stream == stream)
    {
      r := q[0];
      if !(Matches(r) && r.id == id) { r := StreamOnly(q[1..], id); }
    }

    ghost predicate Opened(b: bool) { true }

    /** The trigger keeps it shut in proofs that only hand it on. */
    ghost predicate Account(q: seq<Request>, done: seq<Request>, moved: seq<Byte>, q0: seq<Request>)
    {
      forall b {:trigger Opened(b)} :: Opened(b) ==> Tallied(q, done, moved, q0, FoundOf(q0))
    }

    /** The requests of the stream, in the order of the queue. */
    function StreamIds(q: seq<Request>): seq<nat>
    {
      if q == [] then [] else (if Matches(q[0]) then [q[0].id] else []) + StreamIds(q[1..])
    }

    lemma {:induction false} StreamConcat(a: seq<Request>, b: seq<Request>)
      ensures StreamIds(a + b) == StreamIds(a) + StreamIds(b)
    {
      if a == [] {
        assert a + b == b;
      } else {
        assert (a + b)[1..] == a[1..] + b;
        StreamConcat(a[1..], b);
      }
    }

    lemma StreamHead(r: Request, b: seq<Request>)
      ensures StreamIds([r] + b) == (if Matches(r) then [r.id] else []) + StreamIds(b)
    {
      assert ([r] + b)[1..] == b;
    }

    lemma {:induction false} StreamNone(q: seq<Request>)
      requires FirstFrom(q, |q|)
      ensures StreamIds(q) == []
    {
      if q != [] { StreamNone(q[1..]); }
    }

    lemma StreamStays(a: seq<Request>, t: Request, b: seq<Request>, r: Request)
      requires r.id == t.id && r.stream == t.stream
      ensures StreamIds(a + ([r] + b)) == StreamIds(a + ([t] + b))
    {
      StreamConcat(a, [t] + b);
      StreamConcat(a, [r] + b);
      StreamHead(t, b);
      StreamHead(r, b);
    }

    lemma StreamGoes(a: seq<Request>, r: Request, b: seq<Request>)
      requires Matches(r) && FirstFrom(a, |a|)
      ensures StreamIds(a + ([r] + b)) == [r.id] + StreamIds(a + b)
    {
      StreamConcat(a, [r] + b);
      StreamConcat(a, b);
      StreamHead(r, b);
      StreamNone(a);
    }

    /** The stream's requests, `ids`, are served in their order, and the bytes go through them in that order: `back`
        were first, and those in `line` come next. */
    ghost predicate Served(back: seq<Request>, line: seq<Request>, moved: seq<Byte>, ids: seq<nat>, base: Found)
    {
      ids == Ids(back) + StreamIds(line) && Windows(back, base) + Windows(line, base) == moved
    }

    lemma ServedInPlace(back: seq<Request>, line: seq<Request>, moved: seq<Byte>, ids: seq<nat>, base: Found,
                        line': seq<Request>, moved': seq<Byte>)
      requires Served(back, line, moved, ids, base) && StreamIds(line') == StreamIds(line)
      requires Windows(back, base) + Windows(line', base) == moved'
      ensures Served(back, line', moved', ids, base)
    {
    }

    lemma ServedFirst(back: seq<Request>, line: seq<Request>, moved: seq<Byte>, ids: seq<nat>, base: Found,
                      r: Request, back': seq<Request>, line': seq<Request>, moved': seq<Byte>)
      requires Served(back, line, moved, ids, base) && StreamIds(line) == [r.id] + StreamIds(line')
      requires back' == back + [r] && Windows(back', base) + Windows(line', base) == moved'
      ensures Served(back', line', moved', ids, base)
    {
      IdsMore(back, r);
      OneOver(Ids(back), r.id, StreamIds(line'));
    }

    lemma OneOver(a: seq<nat>, x: nat, b: seq<nat>)
      ensures a + ([x] + b) == (a + [x]) + b
    {
    }

    /** The requests given back, but for the one that a short packet ended; and the queue with that one still in
        its place `at`. */
    ghost function Back(done: seq<Request>, short: bool): seq<Request>
    {
      if short && done != [] then done[..|done| - 1] else done
    }

    ghost function Line(q: seq<Request>, done: seq<Request>, short: bool, at: nat): seq<Request>
    {
      if short && done != [] && at <= |q| then q[..at] + ([done[|done| - 1]] + q[at..]) else q
    }

    /** That is so, whether or not a short packet was the last. The trigger keeps it shut in proofs that only hand
        it on. */
    ghost predicate InTurn(q: seq<Request>, done: seq<Request>, short: bool, at: nat, moved: seq<Byte>,
                           q0: seq<Request>)
    {
      forall b {:trigger Opened(b)} :: Opened(b) ==>
        Served(Back(done, short), Line(q, done, short, at), moved, StreamIds(q0), FoundOf(q0))
    }

    /** Where something is left of the frame, and unless a short packet was the last, all requests of the stream
        were given back in the order of the queue. */
    lemma GivenInOrder(q: seq<Request>, done: seq<Request>, short: bool, at: nat, left: nat, moved: seq<Byte>,
                       q0: seq<Request>)
      requires InTurn(q, done, short, at, moved, q0)
      requires short ==> 0 < left && done != [] && at <= |q| && Passed(q, at, left) && Matches(done[|done| - 1])
      ensures StreamIds(q0) == Ids(done) + StreamIds(q)
    {
      var ids := StreamIds(q0);
      assert Served(Back(done, short), Line(q, done, short, at), moved, ids, FoundOf(q0)) by { assert Opened(true); }
      if short {
        Parts(done, q, at);
        FirstInLine(ids, done[..|done| - 1], done[|done| - 1], done, q[..at], q[at..], q);
      }
    }

    lemma Parts(done: seq<Request>, q: seq<Request>, at: nat)
      requires done != [] && at <= |q|
      ensures q[..at] + q[at..] == q && done[..|done| - 1] + [done[|done| - 1]] == done
    {
    }

    lemma FirstInLine(ids: seq<nat>, back: seq<Request>, r: Request, done: seq<Request>, a: seq<Request>,
                      b: seq<Request>, q: seq<Request>)
      requires ids == Ids(back) + StreamIds(a + ([r] + b)) && Matches(r) && FirstFrom(a, |a|)
      requires done == back + [r] && q == a + b
      ensures ids == Ids(done) + StreamIds(q)
    {
      StreamGoes(a, r, b);
      IdsMore(back, r);
      OneOver(Ids(back), r.id, StreamIds(q));
    }

    lemma InTurnStep(q0: seq<Request>, q: seq<Request>, g0: seq<Request>, g: seq<Request>, i: nat, r: Request,
                     short: bool, moved: seq<Byte>, now: seq<Byte>, first: seq<Request>)
      requires i < |q0| && Placed(q0, q, g0, g, i, r) && Matches(q0[i]) && InTurn(q0, g0, false, i, moved, first)
      requires Account(q0, g0, moved, first) && Account(q, g, now, first) && Grown(q0[i], r, toHost)
      requires now == moved + r.data[q0[i].actual..r.actual]
      requires (q0[i].actual < r.actual ==> FirstFrom(q0, i)) && (short ==> r.status != InProgress)
      requires !short && r.status != InProgress ==> FirstFrom(q0, i)
      ensures InTurn(q, g, short, i, now, first)
    {
      var ids, base := StreamIds(first), FoundOf(first);
      assert Served(g0, q0, moved, ids, base) && Tallied(q0, g0, moved, first, base) && Tallied(q, g, now, first, base)
      by {
        assert Opened(true);
      }
      assert Kept(q0[i], base, toHost);
      Around(q0, i, r);
      if short || r.status == InProgress {
        ShortLine(q0, q, g0, g, i, r);
        StepInPlace(q0, g0, i, r, base);
        StreamStays(q0[..i], q0[i], q0[i + 1..], r);
        ServedInPlace(g0, q0, moved, ids, base, q0[i := r], now);
      } else {
        StreamGoes(q0[..i], q0[i], q0[i + 1..]);
        ServedFirst(g0, q0, moved, ids, base, r, g, q, now);
      }
    }

    lemma ShortLine(q0: seq<Request>, q: seq<Request>, g0: seq<Request>, g: seq<Request>, i: nat, r: Request)
      requires i < |q0| && Placed(q0, q, g0, g, i, r)
      ensures r.status != InProgress ==> Back(g, true) == g0 && Line(q, g, true, i) == q0[i := r]
      ensures r.status == InProgress ==> Back(g, false) == g0 && Line(q, g, false, i) == q0[i := r]
    {
    }

    lemma Around(q: seq<Request>, i: nat, r: Request)
      requires i < |q|
      ensures q == q[..i] + ([q[i]] + q[i + 1..]) && q[i := r] == q[..i] + ([r] + q[i + 1..])
    {
    }

    /** The bytes moved are the growth of the counts, whoever holds the requests now. */
    lemma CountsAgree(q: seq<Request>, done: seq<Request>, moved: seq<Byte>, q0: seq<Request>)
      requires Account(q, done, moved, q0)
      ensures |moved| == Growth(done, FoundOf(q0)) + Growth(q, FoundOf(q0))
    {
      assert Opened(true);
      GrowthShows(done, FoundOf(q0), toHost);
      GrowthShows(q, FoundOf(q0), toHost);
    }

    lemma NothingMoved(q: seq<Request>, base: Found)
      requires forall i :: 0 <= i < |q| ==> q[i].id in base && base[q[i].id] == q[i]
      ensures Windows(q, base) == [] && forall i :: 0 <= i < |q| ==> Window(q[i], base) == []
    {
      NoWindows(q, base);
    }

    lemma KnownYet(q: seq<Request>, base: Found)
      requires forall i :: 0 <= i < |q| ==> q[i].id in base && base[q[i].id] == q[i]
      requires Queued(q)
      ensures AllKnown([], q, base)
    {
    }

    lemma TalliedStarts(q: seq<Request>, base: Found, none: seq<Request>)
      requires forall i :: 0 <= i < |q| ==> q[i].id in base && base[q[i].id] == q[i]
      requires Queued(q) && none == []
      ensures Tallied(q, none, [], q, base)
    {
      NothingMoved(q, base);
      KnownYet(q, base);
      NoneLostYet(q);
      assert Windows(none, base) + Windows(q, base) == [];
    }

    lemma ServedStarts(q: seq<Request>, base: Found, none: seq<Request>)
      requires forall i :: 0 <= i < |q| ==> q[i].id in base && base[q[i].id] == q[i]
      requires none == []
      ensures Served(none, q, [], StreamIds(q), base)
    {
      NothingMoved(q, base);
      assert Ids(none) == [];
    }

    lemma AccountStarts(q: seq<Request>)
      requires Queued(q)
      ensures Account(q, [], [], q) && InTurn(q, [], false, 0, [], q)
    {
      FoundKnows(q);
      TalliedStarts(q, FoundOf(q), []);
      ServedStarts(q, FoundOf(q), []);
    }

    lemma AccountStep(q0: seq<Request>, q: seq<Request>, g0: seq<Request>, g: seq<Request>, i: nat, r: Request,
                      moved: seq<Byte>, first: seq<Request>)
      requires i < |q0| && Account(q0, g0, moved, first) && Placed(q0, q, g0, g, i, r) && Matches(q0[i])
      requires Grown(q0[i], r, toHost) && (q0[i].actual < r.actual ==> FirstFrom(q0, i))
      requires r.status == InProgress && r.actual == |r.data| ==> r.zero && toHost
      requires Queued(q0)
      ensures Account(q, g, moved + r.data[q0[i].actual..r.actual], first)
    {
      var base := FoundOf(first);
      assert Tallied(q0, g0, moved, first, base) by { assert Opened(true); }
      assert Kept(q0[i], base, toHost);
      StepWindows(q0, q, g0, g, i, r, base);
      StepOne(q0, q, g0, g, i, r, base);
      StepOwing(q0, q, g0, g, i, r, base);
      StepKnown(q0, q, g0, g, i, r, base);
      NoneLostStep(q0, q, g0, g, i, r, first);
      if streams { ApartStep(q0, q, g0, g, i, r, first); }
    }

    /** The endpoint since a transfer found it with queue q0, requests g0 given back, and the block b0 filled up to
        `from`. */
    ghost predicate Books(q0: seq<Request>, g0: seq<Request>, b0: seq<Byte>, from: nat, done: seq<Request>)
      reads this, buf
    {
      && Valid() && from <= actual && |b0| == buf.Length && BufGrown(b0, buf[..], from, actual)
      && given == g0 + done && Account(queue, done, buf[from..actual], q0)
    }

    /** The device got back a whole buffer that owes no empty packet; its last bytes came in a full packet. */
    predicate Complete(r: Request)
    {
      r.status == Success && 0 < r.actual == |r.data| && !(r.zero && toHost)
    }

    ghost predicate AllComplete(done: seq<Request>)
    {
      forall k :: 0 <= k < |done| ==> Matches(done[k]) && Complete(done[k])
    }

    predicate Untouched(r: Request, base: Found)
    {
      r.id in base && r.actual == base[r.id].actual
    }

    /** An empty packet was called for: the request, or the block, was full before the transfer, or owes one. */
    ghost predicate Owed(r: Request, base: Found, from: nat)
      reads `actual
    {
      || (r.actual == |r.data| && (Untouched(r, base) || (r.zero && toHost)))
      || (actual == buf.Length && (actual == from || (zeroPacket && !toHost)))
    }

    /** A short packet for r ended both sides, one of which had no more; it was empty only where that is owed. */
    ghost predicate EndedBy(r: Request, base: Found, from: nat)
      requires 0 < maxPacket && from <= actual
      reads `actual, `status
    {
      && Matches(r) && Ends(true, r) && (r.actual == |r.data| || actual == buf.Length)
      && (Packets(actual - from, maxPacket) ==> Owed(r, base, from))
    }

    /** How things stand after the packets since `from`, the last of them `short` or not. Requests given back
        are of the stream and complete, but for one that a short packet ended. A short packet took all that one
        side had, and ended both sides as Ends says. Full packets alone end the block exactly when it is full
        and owes no empty packet. */
    ghost predicate Fates(done: seq<Request>, short: bool, base: Found, from: nat)
      requires 0 < maxPacket && from <= actual
      reads `actual, `status
    {
      && AllComplete(Back(done, short))
      && if short then
           done != [] && EndedBy(done[|done| - 1], base, from)
         else
           && Packets(actual - from, maxPacket)
           && (status == Success || status == InProgress)
           && (status == InProgress <==> actual == from || actual < buf.Length || (zeroPacket && !toHost))
    }

    lemma FatesStep(done: seq<Request>, after: seq<Request>, r: Request, short: bool, base: Found, from: nat, len: nat)
      requires 0 < maxPacket && from + len <= actual <= buf.Length && AllComplete(done)
      requires Packets(actual - len - from, maxPacket) && Sent(len, short, r)
      requires after == (if r.status == InProgress then done else done + [r]) && Matches(r)
      requires short && len == 0 ==> Owed(r, base, from)
      ensures Fates(after, short, base, from)
    {
      if short {
        FatesShort(done, after, r, base, from, len);
      } else {
        FatesFull(done, after, r, base, from, len);
      }
    }

    lemma FatesShort(done: seq<Request>, after: seq<Request>, r: Request, base: Found, from: nat, len: nat)
      requires 0 < maxPacket && from + len <= actual <= buf.Length && AllComplete(done)
      requires Packets(actual - len - from, maxPacket) && Sent(len, true, r)
      requires after == done + [r] && Matches(r) && (len == 0 ==> Owed(r, base, from))
      ensures Fates(after, true, base, from)
    {
      if 0 < len {
        ShortTail(actual - len - from, len, maxPacket);
      }
      assert after[..|after| - 1] == done;
    }

    lemma FatesFull(done: seq<Request>, after: seq<Request>, r: Request, base: Found, from: nat, len: nat)
      requires 0 < maxPacket && from + len <= actual <= buf.Length && AllComplete(done)
      requires Packets(actual - len - from, maxPacket) && Sent(len, false, r)
      requires after == (if r.status == InProgress then done else done + [r]) && Matches(r)
      ensures Fates(after, false, base, from)
    {
      PacketsJoin(actual - len - from, len, maxPacket);
    }

    /** A look that moves nothing is one for which an empty packet is owed. */
    lemma EmptyOwed(i: nat, limit: nat, done: seq<Request>, q0: seq<Request>, base: Found, from: nat)
      requires Valid() && i < |queue| && status == InProgress && from <= actual
      requires Account(queue, done, buf[from..actual], q0) && base == FoundOf(q0) && Fates(done, false, base, from)
      ensures Decide(queue[i], limit).Plan? && Decide(queue[i], limit).len == 0 ==> Owed(queue[i], base, from)
    {
      PlanMoves(queue[i], limit);
      assert Tallied(queue, done, buf[from..actual], q0, base) by { assert Opened(true); }
      assert Kept(queue[i], base, toHost);
      assert Window(queue[i], base) == [] ==> Untouched(queue[i], base);
    }

    lemma PassedOn(q: seq<Request>, i: nat, left: nat, r: Request)
      requires i < |q| && Passed(q, i, left) && r.actual < |r.data|
      ensures Passed(q[i := r], i + 1, 0)
    {
    }

    /** One look keeps the books. */
    method Move(i: nat, limit: nat, plan: Plan, ghost q0: seq<Request>, ghost g0: seq<Request>, ghost b0: seq<Byte>,
                ghost from: nat, ghost done: seq<Request>)
      returns (rescan: bool, ghost after: seq<Request>, ghost r: Request)
      requires Books(q0, g0, b0, from, done)
      requires i < |queue| && status == InProgress && plan == Decide(queue[i], limit) && plan.Plan?
      requires Matches(queue[i]) && (0 < limit ==> FirstFrom(queue, i))
      requires InTurn(queue, done, false, i, buf[from..actual], q0)
      modifies this, buf
      ensures Books(q0, g0, b0, from, after)
      ensures InTurn(queue, after, plan.short, i, buf[from..actual], q0)
      ensures plan.short ==> queue == old(queue)[..i] + old(queue)[i + 1..]
      ensures plan.len <= limit && actual == old(actual) + plan.len && Sent(plan.len, plan.short, r)
      ensures r == old(queue)[i].(data := r.data, actual := old(queue)[i].actual + plan.len, status := r.status)
      ensures after == if r.status == InProgress then done else done + [r]
      ensures |queue| <= |old(queue)| && (rescan && |queue| == |old(queue)| ==> plan.len > 0)
      ensures status == InProgress && !rescan ==>
              plan.len == limit && queue == old(queue)[i := r] && r.actual < |r.data|
    {
      ghost var q1, g1, b1, a1 := queue, given, buf[..], actual;
      rescan, r := OneRequest(i, limit, plan);
      after := PlacedAlso(q1, queue, g1, given, i, r, g0, done);
      AccountStep(q1, queue, done, after, i, r, b1[from..a1], q0);
      BufStep(b0, b1, buf[..], from, a1, actual);
      InTurnStep(q1, queue, done, after, i, r, plan.short, b1[from..a1], buf[from..actual], q0);
    }

    /** It also says how things stand, and where the scan goes on. */
    method Look(i: nat, limit: nat, plan: Plan, ghost q0: seq<Request>, ghost g0: seq<Request>, ghost b0: seq<Byte>,
                ghost from: nat, ghost done: seq<Request>)
      returns (next: nat, ghost after: seq<Request>)
      requires Books(q0, g0, b0, from, done)
      requires i < |queue| && status == InProgress && plan == Decide(queue[i], limit) && plan.Plan?
      requires Matches(queue[i]) && Passed(queue, i, limit) && Fates(done, false, FoundOf(q0), from)
      requires InTurn(queue, done, false, i, buf[from..actual], q0)
      modifies this, buf
      ensures Books(q0, g0, b0, from, after)
      ensures InTurn(queue, after, plan.short, i, buf[from..actual], q0)
      ensures plan.short ==> i <= |queue| && Passed(queue, i, limit - plan.len)
      ensures plan.len <= limit && actual == old(actual) + plan.len && Fates(after, plan.short, FoundOf(q0), from)
      ensures status == InProgress ==> next <= |queue| && Passed(queue, next, limit - plan.len)
      ensures |queue| <= |old(queue)|
      ensures 0 < plan.len || |queue| < |old(queue)| || i < next
    {
      ghost var r;
      ghost var q1 := queue;
      var rescan;
      EmptyOwed(i, limit, done, q0, FoundOf(q0), from);
      rescan, after, r := Move(i, limit, plan, q0, g0, b0, from, done);
      FatesStep(done, after, r, plan.short, FoundOf(q0), from, plan.len);
      next := if rescan then 0 else i + 1;
      if status == InProgress && !rescan {
        PassedOn(q1, i, limit, r);
      }
    }

    /** Where the scan may rest: at the end of the queue, or at a request that wants more than is left, which is
        less than a packet. */
    ghost predicate Rests(at: nat, left: nat)
      requires Valid()
      reads this
    {
      at == |queue| || (at < |queue| && Matches(queue[at]) && Decide(queue[at], left).Stop?)
    }

    /** One turn of the scan, at position i. */
    method Turn(i: nat, left: nat, ghost q0: seq<Request>, ghost g0: seq<Request>, ghost b0: seq<Byte>, ghost from: nat,
                ghost done: seq<Request>)
      returns (len: nat, next: nat, stop: bool, ghost after: seq<Request>, ghost short: bool)
      requires Books(q0, g0, b0, from, done) && i < |queue| && status == InProgress
      requires Passed(queue, i, left) && Fates(done, false, FoundOf(q0), from)
      requires InTurn(queue, done, false, i, buf[from..actual], q0)
      modifies this, buf
      ensures Books(q0, g0, b0, from, after) && len <= left && actual == old(actual) + len
      ensures InTurn(queue, after, short, i, buf[from..actual], q0)
      ensures short ==> i <= |queue| && Passed(queue, i, left - len)
      ensures Fates(after, short, FoundOf(q0), from)
      ensures stop && status == InProgress ==> Rests(next, left - len)
      ensures status == InProgress ==> next <= |queue| && Passed(queue, next, left - len)
      ensures !stop ==> status == InProgress
      ensures !stop ==> 0 < len || |queue| < |old(queue)| || (|queue| == |old(queue)| && i < next)
      ensures |queue| <= |old(queue)|
    {
      len, next, stop, after, short := 0, i + 1, false, done, false;
      if Matches(queue[i]) {
        var plan := Decide(queue[i], left);
        if plan.Stop? {
          stop, next := true, i;
        } else {
          len, short := plan.len, plan.short;
          next, after := Look(i, left, plan, q0, g0, b0, from, done);
          stop := status != InProgress;
        }
      }
    }

    /** transfer: up to a frame's worth between the host's block and the queue. Everything that left one
        side arrived, in order, at the other; the requests of the stream were served in the order of the queue,
        and the rest of it stands as it was; nothing else was written, and no request was lost. The block and
        the requests given back end as their packets say, and the transfer of a block in progress rests only
        where no request of the stream is to be served, or less than a packet is left of the frame. Only a request
        that a short packet ended, at place `at`, may have been given back before others, which then want more
        while nothing is left. */
    method TransferFrame(limit: nat) returns (sent: nat, ghost done: seq<Request>, ghost short: bool, ghost at: nat)
      requires Valid() && status == InProgress
      modifies this, buf
      ensures Books(old(queue), old(given), old(buf[..]), old(actual), done)
      ensures sent <= limit && actual == old(actual) + sent
      ensures InTurn(queue, done, short, at, buf[old(actual)..actual], old(queue))
      ensures Fates(done, short, FoundOf(old(queue)), old(actual))
      ensures short ==> at <= |queue| && Passed(queue, at, limit - sent)
      ensures status == InProgress ==> Rests(at, limit - sent) && Passed(queue, at, limit - sent)
    {
      AccountStarts(queue);
      sent, done, short, at := 0, [], false, 0;
      var i: nat, stop := 0, false;
      ghost var q0, g0, b0 := queue, given, buf[..];
      ghost var from: nat := actual;
      while !stop && i < |queue|
        invariant Books(q0, g0, b0, from, done)
        invariant sent <= limit && actual == from + sent
        invariant InTurn(queue, done, short, at, buf[from..actual], q0)
        invariant Fates(done, short, FoundOf(q0), from)
        invariant short ==> at <= |queue| && Passed(queue, at, limit - sent)
        invariant stop && status == InProgress ==> Rests(i, limit - sent)
        invariant status == InProgress ==> i <= |queue| && Passed(queue, i, limit - sent)
        invariant !stop ==> status == InProgress && !short
        decreases !stop, buf.Length - actual, |queue|, |queue| - i
      {
        var len;
        at := i;
        len, i, stop, done, short := Turn(i, limit - sent, q0, g0, b0, from, done);
        sent := sent + len;
      }
      at := if short then at else i;
    }

    ghost function PlacedAlso(q0: seq<Request>, q: seq<Request>, g0: seq<Request>, g: seq<Request>, i: nat, r: Request,
                              kept: seq<Request>, done: seq<Request>): (after: seq<Request>)
      requires i < |q0| && Placed(q0, q, g0, g, i, r) && g0 == kept + done
      ensures Placed(q0, q, done, after, i, r) && g == kept + after
    {
      if r.status == InProgress then done else done + [r]
    }

    lemma BufStep(b0: seq<Byte>, b1: seq<Byte>, b2: seq<Byte>, from: nat, mid: nat, to: nat)
      requires from <= mid <= to <= |b0| == |b1| == |b2| && BufGrown(b0, b1, from, mid) && BufGrown(b1, b2, mid, to)
      ensures BufGrown(b0, b2, from, to) && b1[from..mid] + b2[mid..to] == b2[from..to]
    {
      assert b1[..mid] == b2[..mid];
      assert b0[..from] == b2[..mid][..from];
      assert b0[to..] == b0[mid..][to - mid..] == b1[mid..][to - mid..] == b1[to..];
      assert b1[from..mid] == b1[..mid][from..] == b2[from..mid];
    }
  }
}
