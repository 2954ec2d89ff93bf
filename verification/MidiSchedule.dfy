/**
 The order in which the merge takes the events of its tracks, and how it ends, as far as both follow
 from the events alone (work/midi/hlp/miditonesV1.6.c, the main loop of ProcessMidiFile).
 */
module Schedule {
  import opened Words
  import opened MidiTrack
  import opened Mixer

  /** Later than any time the merge can tell apart. */
  const FOREVER: nat := 0x7fff_ffff

  datatype Outcome = Going | Finished | BadFile | TooBig | Stuck | Backwards

  /** The events of every track. */
  type Lists = seq<seq<Event>>

  function TimeOf(e: Event): nat
  {
    if e.Broken? then 0 else e.time
  }

  /** The time of an event, as far as the merge can tell times apart. */
  function Capped(e: Event): nat
  {
    if TimeOf(e) < FOREVER then TimeOf(e) else FOREVER
  }

  // ------------------------------------------------------------------ what a log says

  /** The events of one track among those handled. */
  function OfTrack(log: seq<Entry>, k: nat): seq<Event>
  {
    if log == [] then []
    else OfTrack(log[..|log| - 1], k) + if log[|log| - 1].track == k then [log[|log| - 1].event] else []
  }

  function Drop(l: seq<Event>, n: nat): seq<Event>
  {
    if n <= |l| then l[n..] else []
  }

  /** What each track still has to say. */
  function RestOf(lists: Lists, log: seq<Entry>): (rest: Lists)
    ensures |rest| == |lists|
  {
    seq(|lists|, j requires 0 <= j < |lists| => Drop(lists[j], |OfTrack(log, j)|))
  }

  function NowOf(log: seq<Entry>): nat
  {
    if log == [] then 0 else log[|log| - 1].stamp
  }

  /** The track served last; the search starts at track 0. */
  function LastTrack(log: seq<Entry>): nat
  {
    if log == [] then 0 else log[|log| - 1].track
  }

  function TempoOf(log: seq<Entry>): nat
  {
    if log == [] then 0
    else if log[|log| - 1].event.NewTempo? then log[|log| - 1].event.usec
    else TempoOf(log[..|log| - 1])
  }

  /** Every event is handled at its own time, as far as the merge can tell times apart. */
  ghost predicate OnTime(log: seq<Entry>)
  {
    forall i :: 0 <= i < |log| ==> log[i].stamp == Capped(log[i].event)
  }

  // ------------------------------------------------------------------------ who is next

  /** A track that is done has its next event never. */
  function HeadTime(l: seq<Event>): (t: nat)
    ensures t <= FOREVER
  {
    if l == [] then FOREVER else Capped(l[0])
  }

  function Least(rest: Lists): (t: nat)
    ensures t <= FOREVER && forall j :: 0 <= j < |rest| ==> t <= HeadTime(rest[j])
    ensures t < FOREVER ==> exists j :: 0 <= j < |rest| && HeadTime(rest[j]) == t
  {
    if rest == [] then FOREVER
    else
      var n := |rest| - 1;
      var least := Least(rest[..n]);
      assert forall j :: 0 <= j < n ==> rest[..n][j] == rest[j];
      if HeadTime(rest[n]) < least then HeadTime(rest[n]) else least
  }

  /** How many tracks are looked at before track j, starting at track start. */
  function Turn(start: int, j: int, n: int): int
  {
    if start <= j then j - start else j - start + n
  }

  /** Where the search starts when track `last` was served last. */
  function StartAt(strategy1: bool, last: nat, n: nat): nat
  {
    if strategy1 || last + 1 >= n then 0 else last + 1
  }

  /** Track k has the next event; among those of equal time it is the first in turn. Without any event
      in reach it is the track that was served last. */
  ghost predicate First(strategy1: bool, rest: Lists, last: nat, k: nat)
  {
    && k < |rest| && HeadTime(rest[k]) == Least(rest)
    && if HeadTime(rest[k]) == FOREVER then k == last
       else forall j :: 0 <= j < |rest| && HeadTime(rest[j]) == HeadTime(rest[k])
                        ==> Turn(StartAt(strategy1, last, |rest|), k, |rest|)
                            <= Turn(StartAt(strategy1, last, |rest|), j, |rest|)
  }

  /** Among tracks with an event at the same time: under strategy 1 the lowest comes first, else the first one going
      up from behind the track that was served last, and round. */
  lemma FirstInTurn(strategy1: bool, rest: Lists, last: nat, k: nat, j: nat)
    requires First(strategy1, rest, last, k) && HeadTime(rest[k]) < FOREVER && last < |rest|
    requires j < |rest| && HeadTime(rest[j]) == HeadTime(rest[k])
    ensures if strategy1 then k <= j
            else if last < k then j <= last || k <= j
            else k <= j <= last
  {
    var n, start := |rest|, StartAt(strategy1, last, |rest|);
    assert Turn(start, k, n) <= Turn(start, j, n);
  }

  /** A note off goes on to the next one of the same track at the same time. */
  predicate Again(log: seq<Entry>, rest: Lists)
  {
    && log != [] && log[|log| - 1].event.Off? && LastTrack(log) < |rest|
    && rest[LastTrack(log)] != [] && rest[LastTrack(log)][0].Off? && rest[LastTrack(log)][0].time == NowOf(log)
  }

  /** No track stands at a format error. */
  ghost predicate Sound(rest: Lists)
  {
    forall j :: 0 <= j < |rest| ==> rest[j] == [] || !rest[j][0].Broken?
  }

  /** A number of milliseconds that does not fit 15 bits. */
  ghost predicate Long(o: Options, tempo: nat, ticks: int)
  {
    0 < o.ticks && 0 < ticks && Msec(o, tempo, ticks) > 0x7fff
  }

  /** The times for which the delay after a log does not fit. */
  ghost function TooFar(o: Options, log: seq<Entry>): nat -> bool
  {
    time => Long(o, TempoOf(log), time - NowOf(log))
  }

  /** The next entry after a log, when the tracks have `rest` to say and some times are too far off. */
  ghost predicate Follows(far: nat -> bool, strategy1: bool, rest: Lists, log: seq<Entry>, e: Entry)
  {
    && Sound(rest) && e.track < |rest| && rest[e.track] != []
    && e.event == rest[e.track][0] && e.stamp == Capped(e.event) && NowOf(log) <= e.stamp
    && (if Again(log, rest) then e.track == LastTrack(log) else First(strategy1, rest, LastTrack(log), e.track))
    && !far(e.stamp)
  }

  /** A log that was made step by step. */
  ghost predicate Path(step: (seq<Entry>, Entry) -> bool, log: seq<Entry>)
  {
    log != [] ==> Path(step, log[..|log| - 1]) && step(log[..|log| - 1], log[|log| - 1])
  }

  ghost function StepOf(o: Options, strategy1: bool, lists: Lists): (seq<Entry>, Entry) -> bool
  {
    (log, e) => Follows(TooFar(o, log), strategy1, RestOf(lists, log), log, e)
  }

  /** The log of a merge of these lists, as far as it goes. */
  ghost predicate Scheduled(o: Options, strategy1: bool, lists: Lists, log: seq<Entry>)
  {
    Path(StepOf(o, strategy1, lists), log)
  }

  ghost predicate Empty(rest: Lists)
  {
    forall j :: 0 <= j < |rest| ==> rest[j] == []
  }

  /** Where and why a merge ends: with nothing left; at a format error; before a delay that is too long; or
      when the track served last is done and the others have only events that are too late. */
  ghost predicate EndsAt(far: nat -> bool, strategy1: bool, rest: Lists, log: seq<Entry>, r: Outcome)
  {
    match r
    case Finished => Empty(rest)
    case BadFile => !Sound(rest)
    case TooBig => Sound(rest) && !Empty(rest) && !Again(log, rest) && far(Least(rest))
    case Stuck =>
      && Sound(rest) && !Empty(rest) && LastTrack(log) < |rest| && rest[LastTrack(log)] == []
      && Least(rest) == FOREVER && !far(FOREVER)
    case _ => false
  }

  ghost predicate Ends(o: Options, strategy1: bool, lists: Lists, log: seq<Entry>, r: Outcome)
  {
    Scheduled(o, strategy1, lists, log) && EndsAt(TooFar(o, log), strategy1, RestOf(lists, log), log, r)
  }

  // --------------------------------------------------------- the events decide everything

  lemma FollowsOnce(far: nat -> bool, strategy1: bool, rest: Lists, log: seq<Entry>, e: Entry, e': Entry)
    requires Follows(far, strategy1, rest, log, e) && Follows(far, strategy1, rest, log, e')
    ensures e == e'
  {
  }

  lemma {:induction false} PathUpTo(step: (seq<Entry>, Entry) -> bool, log: seq<Entry>, n: nat)
    requires Path(step, log) && n <= |log|
    ensures Path(step, log[..n]) && (n < |log| ==> step(log[..n], log[n]))
    decreases |log|
  {
    if n < |log| {
      PathUpTo(step, log[..|log| - 1], n);
      assert log[..|log| - 1][..n] == log[..n];
    } else {
      assert log[..n] == log;
    }
  }

  lemma ScheduledMore(o: Options, strategy1: bool, lists: Lists, log: seq<Entry>, e: Entry)
    requires Scheduled(o, strategy1, lists, log) && Follows(TooFar(o, log), strategy1, RestOf(lists, log), log, e)
    ensures Scheduled(o, strategy1, lists, log + [e])
  {
    assert (log + [e])[..|log|] == log;
  }

  /** Two logs agree as far as they both go, when each step is decided by those before it. */
  lemma {:induction false} OnePath(step: (seq<Entry>, Entry) -> bool, a: seq<Entry>, b: seq<Entry>)
    requires forall log, e, e' :: step(log, e) && step(log, e') ==> e == e'
    requires Path(step, a) && Path(step, b) && |a| <= |b|
    ensures a == b[..|a|]
    decreases |a|
  {
    if a != [] {
      var n := |a| - 1;
      OnePath(step, a[..n], b);
      PathUpTo(step, b, n);
      assert a == a[..n] + [a[n]] && b[..|a|] == b[..n] + [b[n]];
    }
  }

  lemma OneStep(o: Options, strategy1: bool, lists: Lists)
    ensures var step := StepOf(o, strategy1, lists); forall log, e, e' :: step(log, e) && step(log, e') ==> e == e'
  {
    var step := StepOf(o, strategy1, lists);
    forall log, e, e' | step(log, e) && step(log, e') ensures e == e' {
      FollowsOnce(TooFar(o, log), strategy1, RestOf(lists, log), log, e, e');
    }
  }

  /** Where a merge ends nothing follows. */
  lemma NothingFollows(far: nat -> bool, strategy1: bool, rest: Lists, log: seq<Entry>, r: Outcome, e: Entry)
    requires EndsAt(far, strategy1, rest, log, r)
    ensures !Follows(far, strategy1, rest, log, e)
  {
  }

  lemma OneEnd(far: nat -> bool, strategy1: bool, rest: Lists, log: seq<Entry>, r: Outcome, r': Outcome)
    requires EndsAt(far, strategy1, rest, log, r) && EndsAt(far, strategy1, rest, log, r')
    ensures r == r'
  {
  }

  lemma EndOfPath(o: Options, strategy1: bool, lists: Lists, a: seq<Entry>, r: Outcome, b: seq<Entry>)
    requires Ends(o, strategy1, lists, a, r) && Scheduled(o, strategy1, lists, b) && |a| <= |b|
    ensures a == b
  {
    var step := StepOf(o, strategy1, lists);
    OneStep(o, strategy1, lists);
    OnePath(step, a, b);
    PathUpTo(step, b, |a|);
    if |a| < |b| {
      NothingFollows(TooFar(o, a), strategy1, RestOf(lists, a), a, r, b[|a|]);
    }
  }

  /** The events of the tracks decide in which order they are handled, where the merge ends, and why. */
  lemma OneOutcome(o: Options, strategy1: bool, lists: Lists, a: seq<Entry>, r: Outcome, b: seq<Entry>, r': Outcome)
    requires Ends(o, strategy1, lists, a, r) && Ends(o, strategy1, lists, b, r')
    ensures a == b && r == r'
  {
    if |a| <= |b| {
      EndOfPath(o, strategy1, lists, a, r, b);
    } else {
      EndOfPath(o, strategy1, lists, b, r', a);
    }
    OneEnd(TooFar(o, a), strategy1, RestOf(lists, a), a, r, r');
  }

  // ------------------------------------------------------------------ what follows when

  /** No time takes no delay. */
  lemma NowFits(o: Options, log: seq<Entry>)
    ensures !TooFar(o, log)(NowOf(log))
  {
    assert TooFar(o, log)(NowOf(log)) == Long(o, TempoOf(log), NowOf(log) - NowOf(log));
  }

  /** After a note off the next one of the track at the same time follows. */
  lemma StopFollows(far: nat -> bool, strategy1: bool, rest: Lists, log: seq<Entry>, k: nat)
    requires Sound(rest) && k < |rest| && rest[k] != [] && rest[k][0].Off? && rest[k][0].time == NowOf(log) <= FOREVER
    requires log != [] && LastTrack(log) == k && log[|log| - 1].event.Off? && !far(NowOf(log))
    ensures Follows(far, strategy1, rest, log, Entry(k, rest[k][0], NowOf(log)))
  {
  }

  lemma SoughtFollows(far: nat -> bool, strategy1: bool, rest: Lists, log: seq<Entry>, k: nat, now: nat)
    requires Sound(rest) && !Again(log, rest) && First(strategy1, rest, LastTrack(log), k) && rest[k] != []
    requires now == Least(rest) && NowOf(log) <= now && !far(now)
    ensures Follows(far, strategy1, rest, log, Entry(k, rest[k][0], now))
  {
  }

  // ---------------------------------------------------------------- what a schedule keeps

  /** What a track has said and what it still has to say is all it has to say. */
  lemma {:induction false} Accounts(o: Options, strategy1: bool, lists: Lists, log: seq<Entry>, j: nat)
    requires Scheduled(o, strategy1, lists, log) && j < |lists|
    ensures OfTrack(log, j) + RestOf(lists, log)[j] == lists[j]
    decreases |log|
  {
    if log != [] {
      var before, e := log[..|log| - 1], log[|log| - 1];
      Accounts(o, strategy1, lists, before, j);
      assert Follows(TooFar(o, before), strategy1, RestOf(lists, before), before, e);
    }
  }

  lemma {:induction false} PathInTime(step: (seq<Entry>, Entry) -> bool, tracks: nat, log: seq<Entry>)
    requires forall l, e :: step(l, e) ==> e.track < tracks && e.stamp == Capped(e.event) && NowOf(l) <= e.stamp
    requires forall l, e :: step(l, e) ==> !e.event.Broken?
    requires Path(step, log)
    ensures Timed(log, tracks, 0) && OnTime(log) && forall i :: 0 <= i < |log| ==> !log[i].event.Broken?
    decreases |log|
  {
    if log != [] {
      var before := log[..|log| - 1];
      PathInTime(step, tracks, before);
      assert forall i :: 0 <= i < |before| ==> log[i] == before[i] && before[i].stamp <= NowOf(before);
    }
  }

  /** Events are handled in the order of their times. */
  lemma InTime(o: Options, strategy1: bool, lists: Lists, log: seq<Entry>)
    requires Scheduled(o, strategy1, lists, log)
    ensures Timed(log, |lists|, 0) && OnTime(log) && forall i :: 0 <= i < |log| ==> !log[i].event.Broken?
  {
    var step := StepOf(o, strategy1, lists);
    forall l, e | step(l, e)
      ensures e.track < |lists| && e.stamp == Capped(e.event) && NowOf(l) <= e.stamp && !e.event.Broken?
    {
      assert Follows(TooFar(o, l), strategy1, RestOf(lists, l), l, e);
    }
    PathInTime(step, |lists|, log);
  }

  lemma {:induction false} WhichEntry(log: seq<Entry>, j: nat, p: nat) returns (i: nat)
    requires p < |OfTrack(log, j)|
    ensures i < |log| && log[i].track == j && log[i].event == OfTrack(log, j)[p]
    decreases |log|
  {
    var n := |log| - 1;
    if p < |OfTrack(log[..n], j)| {
      i := WhichEntry(log[..n], j, p);
    } else {
      i := n;
    }
  }

  lemma {:induction false} WhichEvent(log: seq<Entry>, i: nat) returns (p: nat)
    requires i < |log|
    ensures p < |OfTrack(log, log[i].track)| && OfTrack(log, log[i].track)[p] == log[i].event
    decreases |log|
  {
    var n := |log| - 1;
    if i < n {
      p := WhichEvent(log[..n], i);
    } else {
      p := |OfTrack(log[..n], log[n].track)|;
    }
  }

  /** An entry handles an event of its track's list. */
  lemma EntryInList(o: Options, strategy1: bool, lists: Lists, log: seq<Entry>, i: nat) returns (p: nat)
    requires Scheduled(o, strategy1, lists, log) && i < |log|
    ensures log[i].track < |lists| && p < |lists[log[i].track]| && lists[log[i].track][p] == log[i].event
    ensures log[i].stamp == Capped(log[i].event) && log[i].stamp <= NowOf(log)
  {
    InTime(o, strategy1, lists, log);
    p := WhichEvent(log, i);
    Accounts(o, strategy1, lists, log, log[i].track);
  }

  // ------------------------------------------------------------- the loop without an end

  /** An event too late to be told from never. */
  ghost predicate LateIn(events: seq<Event>)
  {
    exists i :: 0 <= i < |events| && FOREVER <= TimeOf(events[i])
  }

  ghost predicate LateElsewhere(lists: Lists, k: nat)
  {
    exists j :: 0 <= j < |lists| && j != k && LateIn(lists[j])
  }

  /** The track served last before FOREVER; without one, track 0. */
  function ServedLast(log: seq<Entry>): nat
  {
    if log == [] then 0
    else if log[|log| - 1].stamp < FOREVER then log[|log| - 1].track
    else ServedLast(log[..|log| - 1])
  }

  lemma {:induction false} PathStays(step: (seq<Entry>, Entry) -> bool, log: seq<Entry>)
    requires forall l, e :: step(l, e) && e.stamp == FOREVER ==> e.track == LastTrack(l)
    requires forall l, e :: step(l, e) ==> e.stamp <= FOREVER && NowOf(l) <= e.stamp
    requires Path(step, log)
    ensures LastTrack(log) == ServedLast(log)
    ensures forall i :: 0 <= i < |log| && log[i].stamp == FOREVER ==>
              log[i].track == ServedLast(log) && NowOf(log) == FOREVER
    decreases |log|
  {
    if log != [] {
      var before := log[..|log| - 1];
      PathStays(step, before);
      assert forall i :: 0 <= i < |before| ==> log[i] == before[i];
    }
  }

  /** From FOREVER on no other track is served. */
  lemma LateStays(o: Options, strategy1: bool, lists: Lists, log: seq<Entry>)
    requires Scheduled(o, strategy1, lists, log)
    ensures LastTrack(log) == ServedLast(log)
    ensures forall i :: 0 <= i < |log| && log[i].stamp == FOREVER ==> log[i].track == ServedLast(log)
  {
    var step := StepOf(o, strategy1, lists);
    forall l, e | step(l, e)
      ensures e.stamp <= FOREVER && NowOf(l) <= e.stamp && (e.stamp == FOREVER ==> e.track == LastTrack(l))
    {
      assert Follows(TooFar(o, l), strategy1, RestOf(lists, l), l, e);
    }
    PathStays(step, log);
  }

  lemma FinishedServesAll(o: Options, strategy1: bool, lists: Lists, log: seq<Entry>, j: nat)
    requires Ends(o, strategy1, lists, log, Finished) && j < |lists|
    ensures OfTrack(log, j) == lists[j]
    ensures LateIn(lists[j]) ==> j == ServedLast(log)
  {
    Accounts(o, strategy1, lists, log, j);
    if LateIn(lists[j]) {
      var p :| 0 <= p < |lists[j]| && FOREVER <= TimeOf(lists[j][p]);
      var i := WhichEntry(log, j, p);
      InTime(o, strategy1, lists, log);
      LateStays(o, strategy1, lists, log);
    }
  }

  lemma StuckLeaves(o: Options, strategy1: bool, lists: Lists, log: seq<Entry>)
    requires Ends(o, strategy1, lists, log, Stuck)
    ensures LateElsewhere(lists, ServedLast(log))
  {
    var rest := RestOf(lists, log);
    LateStays(o, strategy1, lists, log);
    var j :| 0 <= j < |rest| && rest[j] != [];
    Accounts(o, strategy1, lists, log, j);
    var p := |OfTrack(log, j)|;
    assert lists[j][p] == rest[j][0] && Capped(rest[j][0]) == FOREVER;
    assert LateIn(lists[j]);
  }

  /** Barring a format error and a delay that is too long, the merge goes round without end if and only
      if an event at FOREVER or later lies in a track other than the one served last before FOREVER. */
  lemma StuckExactly(o: Options, strategy1: bool, lists: Lists, log: seq<Entry>, r: Outcome)
    requires Ends(o, strategy1, lists, log, r) && (r == Finished || r == Stuck)
    ensures r == Stuck <==> LateElsewhere(lists, ServedLast(log))
  {
    if r == Stuck {
      StuckLeaves(o, strategy1, lists, log);
    } else {
      forall j | 0 <= j < |lists| && LateIn(lists[j]) ensures j == ServedLast(log) {
        FinishedServesAll(o, strategy1, lists, log, j);
      }
    }
  }

  /** Without late events, or with one track only, the merge never goes round without end. */
  lemma NeverStuck(o: Options, strategy1: bool, lists: Lists, log: seq<Entry>, r: Outcome)
    requires Ends(o, strategy1, lists, log, r)
    requires |lists| == 1 || forall j :: 0 <= j < |lists| ==> !LateIn(lists[j])
    ensures r != Stuck
  {
    if r == Stuck {
      StuckLeaves(o, strategy1, lists, log);
    }
  }

  /** With late events in two tracks it never finishes. */
  lemma NeverFinished(o: Options, strategy1: bool, lists: Lists, log: seq<Entry>, r: Outcome, i: nat, j: nat)
    requires Ends(o, strategy1, lists, log, r)
    requires i < j < |lists| && LateIn(lists[i]) && LateIn(lists[j])
    ensures r != Finished
  {
    if r == Finished {
      FinishedServesAll(o, strategy1, lists, log, i);
      FinishedServesAll(o, strategy1, lists, log, j);
    }
  }

  /** A list in which times never fall, and a format error ends it. */
  ghost predicate Tidy(l: seq<Event>)
  {
    && (forall i :: 0 <= i < |l| && l[i].Broken? ==> i == |l| - 1)
    && (forall i, j :: 0 <= i < j < |l| && !l[j].Broken? ==> TimeOf(l[i]) <= TimeOf(l[j]))
  }

  lemma {:induction false} ListenTidy(mem: Memory, mask: set<int>, t: Track)
    ensures Tidy(Listen(mem, mask, t))
    ensures forall i :: 0 <= i < |Listen(mem, mask, t)| && !Listen(mem, mask, t)[i].Broken?
                        ==> t.time <= TimeOf(Listen(mem, mask, t)[i])
    decreases if t.ptr < t.end then t.end - t.ptr else 0
  {
    var f := Find(mem, mask, t);
    if f.Found? && !f.t.cmd.Done? {
      ListenTidy(mem, mask, f.t);
    }
  }

  /** Track m has the latest of all events before FOREVER. */
  ghost predicate LatestEarly(lists: Lists, m: nat, p: nat)
  {
    && m < |lists| && p < |lists[m]| && !lists[m][p].Broken? && TimeOf(lists[m][p]) < FOREVER
    && forall j, i :: 0 <= j < |lists| && j != m && 0 <= i < |lists[j]| && !lists[j][i].Broken?
                      ==> TimeOf(lists[j][i]) < TimeOf(lists[m][p]) || FOREVER <= TimeOf(lists[j][i])
  }

  /** Where everything before FOREVER has been handled, the track with the latest such event was served last. */
  lemma {:induction false} LatestServed(log: seq<Entry>, lists: Lists, m: nat, p: nat, i: nat)
    requires OnTime(log) && LatestEarly(lists, m, p) && i < |log| && log[i].track == m && log[i].event == lists[m][p]
    requires forall k, l :: 0 <= k < l < |log| ==> log[k].stamp <= log[l].stamp
    requires forall k :: 0 <= k < |log| ==>
               log[k].track < |lists| && log[k].event in lists[log[k].track] && !log[k].event.Broken?
    ensures ServedLast(log) == m
    decreases |log|
  {
    var n := |log| - 1;
    if log[n].stamp == FOREVER {
      LatestServed(log[..n], lists, m, p, i);
    } else {
      assert log[i].stamp <= log[n].stamp;
    }
  }

  /** What a track has not said yet is not before what it says next. */
  lemma HeadIsNext(lists: Lists, log: seq<Entry>, j: nat, p: nat)
    requires j < |lists| && OfTrack(log, j) + RestOf(lists, log)[j] == lists[j] && Tidy(lists[j])
             && Sound(RestOf(lists, log))
    requires |OfTrack(log, j)| <= p < |lists[j]| && !lists[j][p].Broken?
    ensures Least(RestOf(lists, log)) <= Capped(lists[j][p])
  {
    var n, rest := |OfTrack(log, j)|, RestOf(lists, log)[j];
    assert rest[p - n] == lists[j][p] && rest[0] == lists[j][n];
    assert Least(RestOf(lists, log)) <= HeadTime(rest);
  }

  lemma EarlyIsHandled(o: Options, strategy1: bool, lists: Lists, log: seq<Entry>, r: Outcome, m: nat, p: nat)
    returns (i: nat)
    requires Ends(o, strategy1, lists, log, r) && (r == Finished || r == Stuck)
    requires m < |lists| && Tidy(lists[m]) && p < |lists[m]| && !lists[m][p].Broken? && TimeOf(lists[m][p]) < FOREVER
    ensures i < |log| && log[i].track == m && log[i].event == lists[m][p]
  {
    Accounts(o, strategy1, lists, log, m);
    if |OfTrack(log, m)| <= p {
      HeadIsNext(lists, log, m, p);
    }
    i := WhichEntry(log, m, p);
  }

  /** When a track has the latest of all events before FOREVER, the merge goes round without end exactly if
      another track has an event at FOREVER or later. */
  lemma StuckByTimes(o: Options, strategy1: bool, lists: Lists, log: seq<Entry>, r: Outcome, m: nat, p: nat)
    requires Ends(o, strategy1, lists, log, r) && (r == Finished || r == Stuck)
    requires LatestEarly(lists, m, p) && Tidy(lists[m])
    ensures r == Stuck <==> LateElsewhere(lists, m)
  {
    var i := EarlyIsHandled(o, strategy1, lists, log, r, m, p);
    InTime(o, strategy1, lists, log);
    forall k | 0 <= k < |log| ensures log[k].track < |lists| && log[k].event in lists[log[k].track] {
      var q := EntryInList(o, strategy1, lists, log, k);
    }
    LatestServed(log, lists, m, p, i);
    StuckExactly(o, strategy1, lists, log, r);
  }

  // -------------------------------------------------- tracks that share the latest early time

  predicate IsAt(e: Event, t: nat) { !e.Broken? && TimeOf(e) == t }

  ghost predicate AtTime(events: seq<Event>, t: nat)
  {
    exists i :: 0 <= i < |events| && IsAt(events[i], t)
  }

  /** The latest time before FOREVER at which there is an event. */
  ghost predicate LatestTime(lists: Lists, t: nat)
  {
    && t < FOREVER && (exists j :: 0 <= j < |lists| && AtTime(lists[j], t))
    && forall j, i :: 0 <= j < |lists| && 0 <= i < |lists[j]| && !lists[j][i].Broken? ==>
         TimeOf(lists[j][i]) <= t || FOREVER <= TimeOf(lists[j][i])
  }

  /** The last entry before FOREVER. */
  lemma {:induction false} LastEarly(log: seq<Entry>, i: nat) returns (k: nat)
    requires i < |log| && log[i].stamp < FOREVER
    requires forall k :: 0 <= k < |log| ==> log[k].stamp <= FOREVER
    requires forall k, l :: 0 <= k < l < |log| ==> log[k].stamp <= log[l].stamp
    ensures i <= k < |log| && log[k].stamp < FOREVER && ServedLast(log) == log[k].track
    ensures forall l :: k < l < |log| ==> log[l].stamp == FOREVER
    decreases |log|
  {
    var n := |log| - 1;
    if log[n].stamp == FOREVER {
      k := LastEarly(log[..n], i);
    } else {
      k := n;
    }
  }

  /** The track served last has an event at the latest time; k is where it was served, and i where track j was. */
  lemma LastIsTied(o: Options, strategy1: bool, lists: Lists, log: seq<Entry>, r: Outcome, t: nat, j: nat)
    returns (k: nat, i: nat)
    requires Ends(o, strategy1, lists, log, r) && (r == Finished || r == Stuck)
    requires LatestTime(lists, t) && j < |lists| && AtTime(lists[j], t) && Tidy(lists[j])
    ensures i <= k < |log| && log[i].track == j && log[i].stamp == log[k].stamp == t && ServedLast(log) == log[k].track
    ensures log[k].track < |lists| && AtTime(lists[log[k].track], t)
  {
    var p :| 0 <= p < |lists[j]| && IsAt(lists[j][p], t);
    i := EarlyIsHandled(o, strategy1, lists, log, r, j, p);
    InTime(o, strategy1, lists, log);
    k := LastEarly(log, i);
    var q := EntryInList(o, strategy1, lists, log, k);
    assert log[i].stamp <= log[k].stamp;
    assert IsAt(lists[log[k].track][q], t);
  }

  /** A late event in a track that has none at the latest time keeps the merge going round without end. */
  lemma StuckOutsideTies(o: Options, strategy1: bool, lists: Lists, log: seq<Entry>, r: Outcome, t: nat, j: nat, l: nat)
    requires Ends(o, strategy1, lists, log, r) && (r == Finished || r == Stuck)
    requires LatestTime(lists, t) && j < |lists| && AtTime(lists[j], t) && Tidy(lists[j])
    requires l < |lists| && LateIn(lists[l]) && !AtTime(lists[l], t)
    ensures r == Stuck
  {
    var k, i := LastIsTied(o, strategy1, lists, log, r, t, j);
    StuckExactly(o, strategy1, lists, log, r);
  }

  lemma {:induction false} OfTrackGrows(log: seq<Entry>, k: nat, a: nat, b: nat)
    requires a <= b <= |log|
    ensures |OfTrack(log[..a], k)| <= |OfTrack(log[..b], k)|
    decreases b
  {
    if a < b {
      OfTrackGrows(log, k, a, b - 1);
      assert log[..b][..b - 1] == log[..b - 1];
    }
  }

  /** What is handled later is still to be said, and nothing of its track is later than it. */
  lemma StillToSay(o: Options, strategy1: bool, lists: Lists, log: seq<Entry>, a: nat, b: nat)
    requires Scheduled(o, strategy1, lists, log) && a <= b < |log|
    requires log[b].track < |lists| && Tidy(lists[log[b].track])
    ensures HeadTime(RestOf(lists, log[..a])[log[b].track]) <= log[b].stamp
  {
    var k := log[b].track;
    PathUpTo(StepOf(o, strategy1, lists), log, b + 1);
    assert log[..b + 1][..b] == log[..b] && log[..b + 1][b] == log[b];
    assert Follows(TooFar(o, log[..b]), strategy1, RestOf(lists, log[..b]), log[..b], log[b]);
    OfTrackGrows(log, k, a, b);
    var n, p := |OfTrack(log[..a], k)|, |OfTrack(log[..b], k)|;
    assert lists[k][p] == log[b].event && !log[b].event.Broken?;
    assert RestOf(lists, log[..a])[k] == lists[k][n..];
  }

  /** When the search always starts at track 0, of two events at the same time that of the higher track is not
      handled first. */
  lemma {:induction false} LowerFirst(o: Options, lists: Lists, log: seq<Entry>, a: nat, b: nat)
    requires Scheduled(o, true, lists, log) && a < b < |log| && log[a].stamp == log[b].stamp < FOREVER
    requires log[b].track < |lists| && Tidy(lists[log[b].track])
    ensures log[a].track <= log[b].track
    decreases a
  {
    var before, rest := log[..a], RestOf(lists, log[..a]);
    PathUpTo(StepOf(o, true, lists), log, a + 1);
    assert log[..a + 1][..a] == before && log[..a + 1][a] == log[a];
    assert Follows(TooFar(o, before), true, rest, before, log[a]);
    if Again(before, rest) {
      LowerFirst(o, lists, log, a - 1, b);
    } else {
      StillToSay(o, true, lists, log, a, b);
      assert HeadTime(rest[log[b].track]) == HeadTime(rest[log[a].track]);
    }
  }

  lemma HighestIsLast(o: Options, lists: Lists, log: seq<Entry>, r: Outcome, t: nat, m: nat)
    requires Ends(o, true, lists, log, r) && (r == Finished || r == Stuck)
    requires forall j :: 0 <= j < |lists| ==> Tidy(lists[j])
    requires LatestTime(lists, t) && m < |lists| && AtTime(lists[m], t)
    requires forall j :: m < j < |lists| ==> !AtTime(lists[j], t)
    ensures ServedLast(log) == m
  {
    var k, i := LastIsTied(o, true, lists, log, r, t, m);
    if i < k {
      LowerFirst(o, lists, log, i, k);
    }
  }

  /** Then the merge goes round without end exactly if a late event lies in a track other than the highest of those
      that share the latest early time. */
  lemma StuckByTies(o: Options, lists: Lists, log: seq<Entry>, r: Outcome, t: nat, m: nat)
    requires Ends(o, true, lists, log, r) && (r == Finished || r == Stuck)
    requires forall j :: 0 <= j < |lists| ==> Tidy(lists[j])
    requires LatestTime(lists, t) && m < |lists| && AtTime(lists[m], t)
    requires forall j :: m < j < |lists| ==> !AtTime(lists[j], t)
    ensures r == Stuck <==> LateElsewhere(lists, m)
  {
    HighestIsLast(o, lists, log, r, t, m);
    StuckExactly(o, true, lists, log, r);
  }

  lemma {:induction false} NobodyServed(log: seq<Entry>)
    requires forall k :: 0 <= k < |log| ==> log[k].stamp == FOREVER
    ensures ServedLast(log) == 0
    decreases |log|
  {
    if log != [] { NobodyServed(log[..|log| - 1]); }
  }

  /** Without any event before FOREVER it does so exactly if a track other than the first has an event. */
  lemma StuckWithoutEarly(o: Options, strategy1: bool, lists: Lists, log: seq<Entry>, r: Outcome)
    requires Ends(o, strategy1, lists, log, r) && (r == Finished || r == Stuck)
    requires forall j, i :: 0 <= j < |lists| && 0 <= i < |lists[j]| && !lists[j][i].Broken? ==>
               FOREVER <= TimeOf(lists[j][i])
    ensures r == Stuck <==> LateElsewhere(lists, 0)
  {
    InTime(o, strategy1, lists, log);
    forall k | 0 <= k < |log| ensures log[k].stamp == FOREVER {
      var q := EntryInList(o, strategy1, lists, log, k);
    }
    NobodyServed(log);
    StuckExactly(o, strategy1, lists, log, r);
  }

  lemma NoTempoNoDelay(o: Options, ticks: nat)
    requires 0 < o.ticks
    ensures Msec(o, 0, ticks) == 0
  {
    assert ticks * 0 == 0;
    assert 0 / o.ticks == 0;
  }

  lemma NoTempoFits(o: Options)
    ensures !TooFar(o, [])(FOREVER)
  {
    if 0 < o.ticks {
      NoTempoNoDelay(o, FOREVER);
    }
    assert !Long(o, 0, FOREVER);
    assert TooFar(o, [])(FOREVER) == Long(o, TempoOf([]), FOREVER - NowOf([]));
  }

  lemma LateAtOnce(far: nat -> bool, strategy1: bool, rest: Lists)
    requires |rest| > 1 && rest[0] == [] && rest[1] != [] && !far(FOREVER)
    requires forall j :: 0 <= j < |rest| && rest[j] != [] ==> FOREVER <= TimeOf(rest[j][0])
    ensures EndsAt(far, strategy1, rest, [], Stuck)
  {
    forall j | 0 <= j < |rest| ensures HeadTime(rest[j]) == FOREVER {
    }
  }

  /** When the first track is empty and all the others have to say is too late, it does so at once. */
  lemma StuckAtOnce(o: Options, strategy1: bool, lists: Lists, log: seq<Entry>, r: Outcome)
    requires Ends(o, strategy1, lists, log, r) && |lists| > 1 && lists[0] == [] && lists[1] != []
    requires forall j :: 0 <= j < |lists| && lists[j] != [] ==> FOREVER <= TimeOf(lists[j][0])
    ensures r == Stuck && log == []
  {
    assert RestOf(lists, []) == lists;
    NoTempoFits(o);
    LateAtOnce(TooFar(o, []), strategy1, lists);
    OneOutcome(o, strategy1, lists, log, r, [], Stuck);
  }

  /** When no track has anything to say, the merge finishes. */
  lemma FinishedAtOnce(o: Options, strategy1: bool, lists: Lists, log: seq<Entry>, r: Outcome)
    requires Ends(o, strategy1, lists, log, r) && forall j :: 0 <= j < |lists| ==> lists[j] == []
    ensures r == Finished && log == []
  {
    assert RestOf(lists, []) == lists;
    assert Ends(o, strategy1, lists, [], Finished);
    OneOutcome(o, strategy1, lists, log, r, [], Finished);
  }

  /** A format error anywhere keeps the merge from finishing; without one it is none. */
  lemma BrokenNeverFinished(o: Options, strategy1: bool, lists: Lists, log: seq<Entry>, r: Outcome)
    requires Ends(o, strategy1, lists, log, r)
    ensures r == Finished ==> forall j :: 0 <= j < |lists| ==> Broken !in lists[j]
    ensures r == BadFile ==> exists j :: 0 <= j < |lists| && Broken in lists[j]
  {
    InTime(o, strategy1, lists, log);
    if r == Finished {
      forall j | 0 <= j < |lists| ensures Broken !in lists[j] {
        Accounts(o, strategy1, lists, log, j);
        if Broken in lists[j] {
          var p :| 0 <= p < |lists[j]| && lists[j][p] == Broken;
          var i := WhichEntry(log, j, p);
        }
      }
    } else if r == BadFile {
      var rest := RestOf(lists, log);
      var j: int :| 0 <= j < |rest| && rest[j] != [] && rest[j][0] == Broken;
      Accounts(o, strategy1, lists, log, j);
      assert lists[j][|OfTrack(log, j)|] == Broken;
    }
  }

  // ------------------------------------------------------------------ delays that fit

  ghost predicate TimeIn(lists: Lists, t: nat)
  {
    exists j: nat, i: nat :: j < |lists| && i < |lists[j]| && Capped(lists[j][i]) == t
  }

  ghost predicate TempoIn(lists: Lists, u: nat)
  {
    u == 0 || exists j: nat, i: nat :: j < |lists| && i < |lists[j]| && lists[j][i].NewTempo? && lists[j][i].usec == u
  }

  /** No event lies strictly between two times. */
  ghost predicate Between(lists: Lists, a: nat, b: nat)
  {
    forall j, i :: 0 <= j < |lists| && 0 <= i < |lists[j]| && !lists[j][i].Broken? ==>
      Capped(lists[j][i]) <= a || b <= Capped(lists[j][i])
  }

  /** From the start or an event on, the next event comes at time b. */
  ghost predicate Gap(lists: Lists, a: nat, b: nat)
  {
    (a == 0 || TimeIn(lists, a)) && TimeIn(lists, b) && Between(lists, a, b)
  }

  /** Every gap between events fits, at any tempo of the file. */
  ghost predicate ShortGaps(o: Options, lists: Lists)
  {
    forall a: nat, b: nat, u: nat :: Gap(lists, a, b) && TempoIn(lists, u) ==> !Long(o, u, b - a)
  }

  lemma {:induction false} TempoFromList(log: seq<Entry>, lists: Lists)
    requires forall k :: 0 <= k < |log| ==> log[k].track < |lists| && log[k].event in lists[log[k].track]
    ensures TempoIn(lists, TempoOf(log))
    decreases |log|
  {
    if log != [] && !log[|log| - 1].event.NewTempo? {
      TempoFromList(log[..|log| - 1], lists);
    }
  }

  lemma BetweenEvents(o: Options, strategy1: bool, lists: Lists, log: seq<Entry>)
    requires Scheduled(o, strategy1, lists, log) && Sound(RestOf(lists, log))
             && forall j :: 0 <= j < |lists| ==> Tidy(lists[j])
    ensures Between(lists, NowOf(log), Least(RestOf(lists, log)))
  {
    var rest := RestOf(lists, log);
    InTime(o, strategy1, lists, log);
    forall j, i | 0 <= j < |lists| && 0 <= i < |lists[j]| && !lists[j][i].Broken?
      ensures Capped(lists[j][i]) <= NowOf(log) || Least(rest) <= Capped(lists[j][i])
    {
      Accounts(o, strategy1, lists, log, j);
      var n := |OfTrack(log, j)|;
      if i < n {
        var k := WhichEntry(log, j, i);
      } else {
        HeadIsNext(lists, log, j, i);
      }
    }
  }

  lemma LeastIsTime(o: Options, strategy1: bool, lists: Lists, log: seq<Entry>)
    requires Scheduled(o, strategy1, lists, log) && !Empty(RestOf(lists, log))
    ensures TimeIn(lists, Least(RestOf(lists, log)))
  {
    var rest := RestOf(lists, log);
    var least := Least(rest);
    var k :| 0 <= k < |rest| && rest[k] != [];
    var j: nat := k;
    if least < FOREVER {
      j :| 0 <= j < |rest| && HeadTime(rest[j]) == least;
    }
    Accounts(o, strategy1, lists, log, j);
    assert lists[j][|OfTrack(log, j)|] == rest[j][0] && HeadTime(rest[j]) == least;
  }

  lemma NowIsTime(o: Options, strategy1: bool, lists: Lists, log: seq<Entry>)
    requires Scheduled(o, strategy1, lists, log)
    ensures NowOf(log) == 0 || TimeIn(lists, NowOf(log))
    ensures TempoIn(lists, TempoOf(log))
  {
    forall k | 0 <= k < |log| ensures log[k].track < |lists| && log[k].event in lists[log[k].track] {
      var q := EntryInList(o, strategy1, lists, log, k);
    }
    TempoFromList(log, lists);
    if log != [] {
      var q := EntryInList(o, strategy1, lists, log, |log| - 1);
    }
  }

  lemma GapAhead(o: Options, strategy1: bool, lists: Lists, log: seq<Entry>)
    requires Scheduled(o, strategy1, lists, log) && forall j :: 0 <= j < |lists| ==> Tidy(lists[j])
    requires Sound(RestOf(lists, log)) && !Empty(RestOf(lists, log))
    ensures Gap(lists, NowOf(log), Least(RestOf(lists, log))) && TempoIn(lists, TempoOf(log))
  {
    NowIsTime(o, strategy1, lists, log);
    BetweenEvents(o, strategy1, lists, log);
    LeastIsTime(o, strategy1, lists, log);
  }

  lemma ShortAhead(o: Options, lists: Lists, log: seq<Entry>, b: nat)
    requires ShortGaps(o, lists) && Gap(lists, NowOf(log), b) && TempoIn(lists, TempoOf(log))
    ensures !TooFar(o, log)(b)
  {
  }

  /** Where every gap between events is short, no delay is refused. */
  lemma NeverTooBig(o: Options, strategy1: bool, lists: Lists, log: seq<Entry>, r: Outcome)
    requires Ends(o, strategy1, lists, log, r) && ShortGaps(o, lists) && forall j :: 0 <= j < |lists| ==> Tidy(lists[j])
    ensures r != TooBig
  {
    if r == TooBig {
      GapAhead(o, strategy1, lists, log);
      ShortAhead(o, lists, log, Least(RestOf(lists, log)));
    }
  }
}
