/**
 Slots of a ring of n places, by how many values were put into it before.
 */
module Slots {

  function Slot(i: nat, n: nat): (s: nat)
    requires n > 0
    ensures s < n
  {
    if i == 0 then 0 else Wrapped(Slot(i - 1, n) + 1, n)
  }

  /** saturate: an index at the end of the ring goes back to its start. */
  function Wrapped(i: nat, n: nat): nat { if i < n then i else 0 }

  lemma {:induction false} SlotAdd(i: nat, k: nat, n: nat)
    requires k < n
    ensures Slot(i + k, n) == if Slot(i, n) + k < n then Slot(i, n) + k else Slot(i, n) + k - n
  {
    if k > 0 {
      SlotAdd(i, k - 1, n);
    }
  }

  /** Fewer than n values apart, the slots differ. */
  lemma SlotsDiffer(i: nat, j: nat, n: nat)
    requires i < j < i + n
    ensures Slot(i, n) != Slot(j, n)
  {
    SlotAdd(i, j - i, n);
  }
}

/**
 The queue of inc/fifo.h as its caller sees it when nobody interrupts.
 */
module Queue {
  import opened Slots

  class Fifo<T(0)> {
    const n: nat
    const buf: array<T>
    var rdi: nat
    var wri: nat
    var len: nat
    ghost var queue: seq<T>
    ghost var first: nat // how many values were read before those in the queue

    ghost predicate Valid()
      reads this, buf
    {
      && buf.Length == n > 0 && len == |queue| <= n
      && rdi == Slot(first, n) && wri == Slot(first + len, n)
      && forall j :: first <= j < first + len ==> buf[Slot(j, n)] == queue[j - first]
    }

    constructor (n: nat)
      requires n > 0
      ensures Valid() && queue == [] && this.n == n && fresh(buf)
    {
      this.n := n;
      buf := new T[n];
      rdi, wri, len, queue, first := 0, 0, 0, [], 0;
    }

    /** Write: true if there was room. */
    method Write(c: T) returns (ok: bool)
      requires Valid()
      modifies this, buf
      ensures Valid() && ok == (|old(queue)| < n) && queue == if ok then old(queue) + [c] else old(queue)
    {
      if len >= n { return false; }
      forall j | first <= j < first + len
        ensures Slot(j, n) != wri
      {
        SlotsDiffer(j, first + len, n);
      }
      buf[wri] := c;
      wri := Wrapped(wri + 1, n);
      len := len + 1;
      queue := queue + [c];
      return true;
    }

    /** Read: true if there was anything. */
    method Read(c0: T) returns (ok: bool, c: T)
      requires Valid()
      modifies this
      ensures Valid() && ok == (old(queue) != [])
      ensures if ok then c == old(queue)[0] && queue == old(queue)[1..] else c == c0 && queue == old(queue)
    {
      if len == 0 { return false, c0; }
      c := buf[rdi];
      rdi := Wrapped(rdi + 1, n);
      len := len - 1;
      queue, first := queue[1..], first + 1;
      return true, c;
    }
  }
}

/**
 The same queue with one thread inside `Write` and one inside `Read`, each interrupted between
 any two of its steps. Only the change of `len` is atomic by itself.
 */
module QueueThreads {
  import opened Slots

  /** Where the writer stands: it has room, has stored the value, has moved its index on, has wrapped the index;
      the length comes last. */
  datatype Writer<T> = WIdle | WRoom(c: T) | WStored(c: T) | WBumped(c: T) | WWrapped(c: T)

  /** Where the reader stands: it has something to read, has loaded it, has moved its index on, has wrapped the index;
      the length comes last. */
  datatype Reader = RIdle | RSome | RLoaded | RBumped | RWrapped

  /** `accepted` are the values of the finished Writes, `got` what Read has loaded. */
  datatype State<T> = State(buf: seq<T>, rdi: nat, wri: nat, len: nat, w: Writer<T>, r: Reader,
                            accepted: seq<T>, got: seq<T>)

  /** A new Write; without room it returns false at once. */
  ghost predicate WriteStarts<T(!new)>(s: State<T>, s': State<T>, c: T)
  {
    s.w.WIdle? && s' == if s.len < |s.buf| then s.(w := WRoom(c)) else s
  }

  ghost predicate WriterSteps<T(!new)>(s: State<T>, s': State<T>)
  {
    match s.w
    case WIdle => exists c :: WriteStarts(s, s', c)
    case WRoom(c) => s.wri < |s.buf| && s' == s.(buf := s.buf[s.wri := c], w := WStored(c))
    case WStored(c) => s' == s.(wri := s.wri + 1, w := WBumped(c))
    case WBumped(c) => s' == s.(wri := Wrapped(s.wri, |s.buf|), w := WWrapped(c))
    case WWrapped(c) => s' == s.(len := s.len + 1, w := WIdle, accepted := s.accepted + [c])
  }

  ghost predicate ReaderSteps<T(!new)>(s: State<T>, s': State<T>)
  {
    match s.r
    case RIdle => s' == if s.len > 0 then s.(r := RSome) else s
    case RSome => s.rdi < |s.buf| && s' == s.(got := s.got + [s.buf[s.rdi]], r := RLoaded)
    case RLoaded => s' == s.(rdi := s.rdi + 1, r := RBumped)
    case RBumped => s' == s.(rdi := Wrapped(s.rdi, |s.buf|), r := RWrapped)
    case RWrapped => s.len > 0 && s' == s.(len := s.len - 1, r := RIdle)
  }

  ghost predicate Start<T(!new)>(s: State<T>)
  {
    s.buf != [] && s.rdi == s.wri == s.len == 0 && s.w.WIdle? && s.r.RIdle? && s.accepted == s.got == []
  }

  /** State k + 1 comes from state k by a step of either side. */
  ghost predicate Linked<T(!new)>(ss: seq<State<T>>, k: nat)
    requires k + 1 < |ss|
  {
    WriterSteps(ss[k], ss[k + 1]) || ReaderSteps(ss[k], ss[k + 1])
  }

  ghost predicate Run<T(!new)>(ss: seq<State<T>>)
  {
    ss != [] && Start(ss[0]) && forall k :: 0 <= k < |ss| - 1 ==> Linked(ss, k)
  }

  // ------------------------------------------------------------------ the invariant

  /** Reads that have also given their place back. */
  function Returned<T>(s: State<T>): int
  {
    |s.got| - (if s.r.RIdle? || s.r.RSome? then 0 else 1)
  }

  ghost predicate WriterGood<T(!new)>(s: State<T>)
    requires s.buf != []
  {
    var n, a := |s.buf|, |s.accepted|;
    && (!s.w.WIdle? ==> s.len < n)
    && (match s.w
        case WBumped(c) => s.wri == Slot(a, n) + 1 && s.buf[Slot(a, n)] == c
        case WWrapped(c) => s.wri == Slot(a + 1, n) && s.buf[Slot(a, n)] == c
        case WStored(c) => s.wri == Slot(a, n) && s.buf[Slot(a, n)] == c
        case _ => s.wri == Slot(a, n))
  }

  ghost predicate ReaderGood<T(!new)>(s: State<T>)
    requires s.buf != []
  {
    var n, d := |s.buf|, Returned(s);
    && 0 <= d && (!s.r.RIdle? ==> s.len > 0)
    && (match s.r
        case RBumped => s.rdi == Slot(d, n) + 1
        case RWrapped => s.rdi == Slot(d + 1, n)
        case _ => s.rdi == Slot(d, n))
  }

  /** Value i is in its place, waiting to be read. */
  ghost predicate Waiting<T(!new)>(s: State<T>, i: nat)
    requires s.buf != [] && i < |s.accepted|
  {
    s.buf[Slot(i, |s.buf|)] == s.accepted[i]
  }

  ghost predicate Inv<T(!new)>(s: State<T>)
  {
    && s.buf != [] && WriterGood(s) && ReaderGood(s)
    && s.len == |s.accepted| - Returned(s) && s.len <= |s.buf|
    && |s.got| <= |s.accepted| && s.got == s.accepted[..|s.got|]
    && forall i :: |s.got| <= i < |s.accepted| ==> Waiting(s, i)
  }

  /** The place that is written next holds no value that is still to be read. */
  lemma NoOverwrite<T(!new)>(s: State<T>)
    requires Inv(s) && s.w.WRoom?
    ensures s.wri < |s.buf|
    ensures forall i :: |s.got| <= i < |s.accepted| ==> Slot(i, |s.buf|) != s.wri
  {
    forall i | |s.got| <= i < |s.accepted|
      ensures Slot(i, |s.buf|) != s.wri
    {
      SlotsDiffer(i, |s.accepted|, |s.buf|);
    }
  }

  lemma StoreKeeps<T(!new)>(s: State<T>, s': State<T>)
    requires Inv(s) && s.w.WRoom? && WriterSteps(s, s')
    ensures Inv(s')
  {
    NoOverwrite(s);
    forall i | |s'.got| <= i < |s'.accepted|
      ensures Waiting(s', i)
    {
      assert Waiting(s, i);
    }
  }

  lemma CountKeeps<T(!new)>(s: State<T>, s': State<T>)
    requires Inv(s) && s.w.WWrapped? && WriterSteps(s, s')
    ensures Inv(s')
  {
    forall i | |s'.got| <= i < |s'.accepted|
      ensures Waiting(s', i)
    {
      if i < |s.accepted| { assert Waiting(s, i); }
    }
  }

  /** Steps that touch neither the values nor what was accepted. */
  lemma TurnKeeps<T(!new)>(s: State<T>, s': State<T>)
    requires Inv(s) && !s.w.WRoom? && !s.w.WWrapped? && WriterSteps(s, s')
    ensures Inv(s')
  {
    assert WriterGood(s');
    forall i | |s'.got| <= i < |s'.accepted|
      ensures Waiting(s', i)
    {
      assert Waiting(s, i);
    }
  }

  lemma WriterKeeps<T(!new)>(s: State<T>, s': State<T>)
    requires Inv(s) && WriterSteps(s, s')
    ensures Inv(s')
  {
    if s.w.WRoom? {
      StoreKeeps(s, s');
    } else if s.w.WWrapped? {
      CountKeeps(s, s');
    } else {
      TurnKeeps(s, s');
    }
  }

  lemma LoadKeeps<T(!new)>(s: State<T>, s': State<T>)
    requires Inv(s) && s.r.RSome? && ReaderSteps(s, s')
    ensures Inv(s')
  {
    assert Waiting(s, |s.got|);
    forall i | |s'.got| <= i < |s'.accepted|
      ensures Waiting(s', i)
    {
      assert Waiting(s, i);
    }
  }

  lemma ReaderKeeps<T(!new)>(s: State<T>, s': State<T>)
    requires Inv(s) && ReaderSteps(s, s')
    ensures Inv(s')
  {
    if s.r.RSome? {
      LoadKeeps(s, s');
    } else {
      assert ReaderGood(s');
      forall i | |s'.got| <= i < |s'.accepted|
        ensures Waiting(s', i)
      {
        assert Waiting(s, i);
      }
    }
  }

  lemma {:induction false} RunInv<T(!new)>(ss: seq<State<T>>, k: nat)
    requires Run(ss) && k < |ss|
    ensures Inv(ss[k])
  {
    if k > 0 {
      RunInv(ss, k - 1);
      assert Linked(ss, k - 1);
      if WriterSteps(ss[k - 1], ss[k]) {
        WriterKeeps(ss[k - 1], ss[k]);
      } else {
        ReaderKeeps(ss[k - 1], ss[k]);
      }
    }
  }

  /** For every interleaving: what was read is a prefix of what was accepted, the length never
      exceeds the ring, and a store never hits a value that has not been read. */
  lemma AnyInterleaving<T(!new)>(ss: seq<State<T>>, k: nat)
    requires Run(ss) && k < |ss|
    ensures ss[k].buf != [] && ss[k].got <= ss[k].accepted && ss[k].len <= |ss[k].buf|
    ensures ss[k].w.WRoom? ==> forall i :: |ss[k].got| <= i < |ss[k].accepted| ==> Slot(i, |ss[k].buf|) != ss[k].wri
  {
    RunInv(ss, k);
    if ss[k].w.WRoom? { NoOverwrite(ss[k]); }
  }

  /** When both are idle, exactly the accepted values that were not read are left. */
  lemma AtRest<T(!new)>(ss: seq<State<T>>, k: nat)
    requires Run(ss) && k < |ss| && ss[k].w.WIdle? && ss[k].r.RIdle?
    ensures ss[k].buf != [] && ss[k].len == |ss[k].accepted| - |ss[k].got|
    ensures forall i :: |ss[k].got| <= i < |ss[k].accepted| ==> Waiting(ss[k], i)
  {
    RunInv(ss, k);
  }
}

/**
 A transmitter on top of the queue (lib/stm32f4/src/usart.cpp): `Down` fills the queue and enables
 the interrupt, the interrupt empties it and disables itself. The interrupt may come between any
 two steps of `Down`, and runs to its end.
 */
module Transmitter {

  /** Where `Down` stands: pushing, with what it has pushed so far, or about to enable the interrupt. */
  datatype Thread = Outside | Pushing(rest: seq<int>, pushed: nat) | Enabling

  datatype State = State(queue: seq<int>, enabled: bool, thread: Thread, accepted: seq<int>, sent: seq<int>)

  ghost predicate Calls(s: State, s': State, data: seq<int>)
  {
    s.thread.Outside? && s' == s.(thread := Pushing(data, 0))
  }

  /** One step of `Down` on a queue of n places. */
  ghost predicate DownSteps(s: State, s': State, n: nat)
  {
    match s.thread
    case Outside => exists data :: Calls(s, s', data)
    case Pushing(rest, pushed) =>
      if rest != [] && |s.queue| < n then
        s' == s.(queue := s.queue + [rest[0]], accepted := s.accepted + [rest[0]],
                       thread := Pushing(rest[1..], pushed + 1))
      else s' == s.(thread := if pushed == 0 then Outside else Enabling)
    case Enabling => s' == s.(enabled := true, thread := Outside)
  }

  /** The interrupt, when it is enabled. */
  ghost predicate Interrupts(s: State, s': State)
  {
    s.enabled &&
    s' == if s.queue != [] then s.(queue := s.queue[1..], sent := s.sent + [s.queue[0]]) else s.(enabled := false)
  }

  ghost predicate Linked(ss: seq<State>, k: nat, n: nat)
    requires k + 1 < |ss|
  {
    DownSteps(ss[k], ss[k + 1], n) || Interrupts(ss[k], ss[k + 1])
  }

  ghost predicate Run(ss: seq<State>, n: nat)
  {
    ss != [] && n > 0 && ss[0] == State([], false, Outside, [], []) &&
    forall k :: 0 <= k < |ss| - 1 ==> Linked(ss, k, n)
  }

  /** Nothing is lost or reordered, and outside `Down` nothing waits without its interrupt enabled. */
  ghost predicate Inv(s: State, n: nat)
  {
    && s.accepted == s.sent + s.queue && |s.queue| <= n
    && (s.queue != [] && !s.enabled ==> s.thread.Enabling? || (s.thread.Pushing? && s.thread.pushed > 0))
  }

  lemma {:induction false} NothingStuck(ss: seq<State>, n: nat, k: nat)
    requires Run(ss, n) && k < |ss|
    ensures Inv(ss[k], n)
  {
    if k > 0 {
      NothingStuck(ss, n, k - 1);
      var s, s' := ss[k - 1], ss[k];
      assert Linked(ss, k - 1, n);
      if Interrupts(s, s') {
        if s.queue != [] {
          assert s.queue == [s.queue[0]] + s.queue[1..];
          assert s'.sent + s'.queue == s.sent + ([s.queue[0]] + s.queue[1..]);
        }
      } else if s.thread.Pushing? && s.thread.rest != [] && |s.queue| < n {
        assert s.sent + (s.queue + [s.thread.rest[0]]) == (s.sent + s.queue) + [s.thread.rest[0]];
      }
    }
  }
}
