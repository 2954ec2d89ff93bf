/**
 What a log of merged events sounds like, told of the score alone: the score is cut into one piece for
 each entry, and each piece is described by the commands before it and the entries that made them.
 */
module Voices {
  import opened Words
  import opened Score
  import opened MidiTrack
  import opened Mixer
  import opened Schedule
  import opened Merge

  // ---------------------------------------------------------------- reading a cut score

  function Flatten(pieces: seq<seq<Command>>): seq<Command>
  {
    if pieces == [] then [] else Flatten(pieces[..|pieces| - 1]) + pieces[|pieces| - 1]
  }

  /** The generator on which entry e started its note, if it did. */
  function Voice(e: Entry, piece: seq<Command>): (g: int)
    ensures -1 <= g
  {
    if e.event.On? && piece != [] && piece[|piece| - 1].Play? then piece[|piece| - 1].gen else -1
  }

  /** The generator on which the last started note of track k was played; 0 before any. */
  function LastVoice(log: seq<Entry>, pieces: seq<seq<Command>>, k: nat): nat
    requires |log| == |pieces|
  {
    if log == [] then 0
    else
      var n := |log| - 1;
      if log[n].track == k && Voice(log[n], pieces[n]) >= 0 then Voice(log[n], pieces[n])
      else LastVoice(log[..n], pieces[..n], k)
  }

  /** The track and the note that were last started on generator g. */
  function Holder(log: seq<Entry>, pieces: seq<seq<Command>>, g: nat): Gen
    requires |log| == |pieces|
  {
    if log == [] then Idle
    else
      var n := |log| - 1;
      if Voice(log[n], pieces[n]) == g then Busy(log[n].track, log[n].event.note)
      else Holder(log[..n], pieces[..n], g)
  }

  // ------------------------------------------------------------------ one piece

  /** ms milliseconds are the whole ones in that many ticks. */
  predicate Lasts(o: Options, tempo: nat, ticks: nat, ms: nat)
  {
    ms * (1000 * o.ticks) <= ticks * tempo < (ms + 1) * (1000 * o.ticks)
  }

  /** The note with the key shift, kept within 0 to 127. */
  predicate KeyOf(o: Options, note: int, key: int)
  {
    && 0 <= key <= 127
    && (0 <= note + o.keyshift <= 127 ==> key == note + o.keyshift)
    && (note + o.keyshift < 0 ==> key == 0)
    && (note + o.keyshift > 127 ==> key == 127)
  }

  /** A note goes to the generator of the track's last note under strategy 2 if that is silent, else to the
      lowest silent one; it is left out when all of them sound. */
  ghost predicate PlaysNote(o: Options, gens: nat, on: set<nat>, last: nat, note: int, did: seq<Command>)
  {
    if forall g :: 0 <= g < gens ==> g in on then did == []
    else
      && |did| == 1 && did[0].Play? && did[0].gen < gens && did[0].gen !in on && KeyOf(o, note, did[0].note)
      && if o.strategy2 && last < gens && last !in on then did[0].gen == last
         else forall g :: 0 <= g < did[0].gen ==> g in on
  }

  /** Exactly the generators that sound with the note for the track are stopped, in ascending order. */
  ghost predicate StopsNote(on: set<nat>, held: set<nat>, did: seq<Command>)
  {
    && (forall i :: 0 <= i < |did| ==> did[i].Stop?)
    && (forall i, j :: 0 <= i < j < |did| ==> did[i].gen < did[j].gen)
    && (forall g: nat :: Stop(g) in did <==> g in on && g in held)
  }

  /** The generators whose last note was that of the entry's track. */
  ghost function Held(log: seq<Entry>, pieces: seq<seq<Command>>, e: Entry, gens: nat): set<nat>
    requires |log| == |pieces| && e.event.Off?
  {
    set g: nat | g < gens && Holder(log, pieces, g) == Busy(e.track, e.event.note)
  }

  /** What entry e does to the score that the entries of the log have made, after the delay. */
  ghost predicate Does(o: Options, gens: nat, log: seq<Entry>, pieces: seq<seq<Command>>, e: Entry,
                       did: seq<Command>)
    requires |log| == |pieces|
  {
    var on := Sounding(Flatten(pieces));
    match e.event
    case NewTempo(_, _) => did == []
    case Broken => did == []
    case On(_, note) => PlaysNote(o, gens, on, LastVoice(log, pieces, e.track), note, did)
    case Off(_, _) => StopsNote(on, Held(log, pieces, e, gens), did)
  }

  /** ... with the delay, if time has passed since the last entry. */
  ghost predicate Adds(o: Options, gens: nat, log: seq<Entry>, pieces: seq<seq<Command>>, e: Entry,
                       piece: seq<Command>)
    requires |log| == |pieces|
  {
    if e.stamp <= NowOf(log) then Does(o, gens, log, pieces, e, piece)
    else
      && piece != [] && piece[0].Delay? && Lasts(o, TempoOf(log), e.stamp - NowOf(log), piece[0].ms)
      && Does(o, gens, log, pieces, e, piece[1..])
  }

  /** The pieces are the score of the log. */
  ghost predicate Scored(o: Options, gens: nat, log: seq<Entry>, pieces: seq<seq<Command>>)
  {
    && |pieces| == |log|
    && forall n :: 0 <= n < |log| ==> Adds(o, gens, log[..n], pieces[..n], log[n], pieces[n])
  }

  // ------------------------------------------------------- the mixer makes such scores

  /** Nothing has been played yet. */
  ghost predicate Silent(s: State)
  {
    && s.out == [] && s.now == 0 && s.tempo == 0
    && (forall g :: 0 <= g < |s.gens| ==> s.gens[g].Idle?)
    && (forall k :: 0 <= k < |s.preferred| ==> s.preferred[k] == 0)
  }

  /** What the mixer remembers can be read off the score. */
  ghost predicate Recalls(s: State, log: seq<Entry>, pieces: seq<seq<Command>>)
    requires |log| == |pieces|
  {
    && s.out == Flatten(pieces) && s.now == NowOf(log) && s.tempo == TempoOf(log)
    && (forall k :: 0 <= k < |s.preferred| ==> s.preferred[k] == LastVoice(log, pieces, k))
    && (forall g :: 0 <= g < |s.gens| && s.gens[g].Busy? ==> s.gens[g] == Holder(log, pieces, g))
  }

  lemma FloorTwice(x: nat, a: nat) returns (ms: nat)
    requires 0 < a
    ensures ms == x / a / 1000 && ms * (1000 * a) <= x < (ms + 1) * (1000 * a)
  {
    var y := x / a;
    ms := y / 1000;
    assert y * a <= x < (y + 1) * a;
    assert ms * 1000 <= y < (ms + 1) * 1000;
    Scale(ms * 1000, y, a);
    Scale(y + 1, (ms + 1) * 1000, a);
    Thousands(ms, a);
    Thousands(ms + 1, a);
  }

  lemma Scale(x: nat, y: nat, a: nat)
    requires x <= y
    ensures x * a <= y * a
  {
  }

  lemma Thousands(m: nat, a: nat)
    ensures m * 1000 * a == m * (1000 * a)
  {
  }

  /** The division of the mixer, in whole milliseconds. */
  lemma MsecLasts(o: Options, tempo: nat, ticks: nat)
    requires 0 < o.ticks
    ensures Lasts(o, tempo, ticks, Msec(o, tempo, ticks))
  {
    var ms := FloorTwice(ticks * tempo, o.ticks);
  }

  lemma ShiftedKey(o: Options, note: Byte)
    ensures KeyOf(o, note, Shifted(o, note))
  {
  }

  /** One entry and its piece more. */
  lemma Longer(log: seq<Entry>, pieces: seq<seq<Command>>, e: Entry, p: seq<Command>)
    requires |log| == |pieces|
    ensures Flatten(pieces + [p]) == Flatten(pieces) + p && NowOf(log + [e]) == e.stamp
    ensures TempoOf(log + [e]) == if e.event.NewTempo? then e.event.usec else TempoOf(log)
    ensures forall k :: LastVoice(log + [e], pieces + [p], k) ==
              if e.track == k && Voice(e, p) >= 0 then Voice(e, p) else LastVoice(log, pieces, k)
    ensures forall g: nat :: Holder(log + [e], pieces + [p], g) ==
              if Voice(e, p) == g then Busy(e.track, e.event.note) else Holder(log, pieces, g)
  {
    assert (log + [e])[..|log|] == log && (pieces + [p])[..|pieces|] == pieces;
  }

  /** The delay of an entry, and the state behind it. */
  lemma Waited(o: Options, s: State, stamp: nat) returns (w: State, wait: seq<Command>)
    requires Proper(o, s) && s.now <= stamp && Tuned(s)
    ensures w == Wait(o, s, stamp) && w.out == s.out + wait && Sounding(w.out) == Sounding(s.out) && Tuned(w)
    ensures if stamp == s.now then wait == []
            else |wait| == 1 && wait[0].Delay? && Lasts(o, s.tempo, stamp - s.now, wait[0].ms)
  {
    w := Wait(o, s, stamp);
    wait := [];
    if stamp != s.now {
      wait := [Delay(Msec(o, s.tempo, stamp - s.now))];
      MsecLasts(o, s.tempo, stamp - s.now);
      assert (s.out + wait)[..|s.out|] == s.out;
    }
  }

  /** A note on, as the mixer handles it. */
  lemma NotePlayed(o: Options, s: State, k: nat, note: Byte) returns (r: State, did: seq<Command>)
    requires Proper(o, s) && Tuned(s) && k < |s.preferred|
    ensures r == Start(o, s, k, note) && r.out == s.out + did
    ensures PlaysNote(o, |s.gens|, Sounding(s.out), s.preferred[k], note, did)
    ensures did == [] ==> r == s
    ensures did != [] ==> r == s.(out := r.out, gens := s.gens[did[0].gen := Busy(k, note)],
                                  preferred := s.preferred[k := did[0].gen])
  {
    r := Start(o, s, k, note);
    var g := Choose(o, s.gens, s.preferred[k]);
    ShiftedKey(o, note);
    if g == |s.gens| {
      did := [];
      assert s.out + did == s.out;
    } else {
      did := [Play(g, Shifted(o, note))];
    }
  }

  /** The stop commands come in ascending order, one for each generator that plays the note. */
  lemma {:induction false} StopsAre(gens: seq<Gen>, k: nat, note: Byte, n: nat)
    requires n <= |gens|
    ensures var cs := Stops(gens, k, note, n);
      && (forall i :: 0 <= i < |cs| ==> cs[i].Stop? && cs[i].gen < n)
      && (forall i, j :: 0 <= i < j < |cs| ==> cs[i].gen < cs[j].gen)
      && (forall g: nat :: Stop(g) in cs <==> g < n && gens[g] == Busy(k, note))
  {
    if n > 0 {
      StopsAre(gens, k, note, n - 1);
      var before, one := Stops(gens, k, note, n - 1), StopOf(gens[n - 1], k, note, n - 1);
      forall g: nat ensures Stop(g) in before + one <==> g < n && gens[g] == Busy(k, note) {
        assert Stop(g) in before + one <==> Stop(g) in before || Stop(g) in one;
      }
    }
  }

  /** A note off, as the mixer handles it. */
  lemma NoteStopped(s: State, k: nat, note: Byte, held: set<nat>) returns (did: seq<Command>)
    requires Tuned(s)
    requires forall g: nat :: g < |s.gens| && s.gens[g].Busy? ==> (g in held <==> s.gens[g] == Busy(k, note))
    ensures did == Stops(s.gens, k, note, |s.gens|) && StopsNote(Sounding(s.out), held, did)
  {
    did := Stops(s.gens, k, note, |s.gens|);
    StopsAre(s.gens, k, note, |s.gens|);
  }

  /** The parts that a state and its successor have in common with the log. */
  lemma AddsBoth(o: Options, gens: nat, log: seq<Entry>, pieces: seq<seq<Command>>, e: Entry,
                 wait: seq<Command>, did: seq<Command>)
    requires |log| == |pieces| && NowOf(log) <= e.stamp
    requires if e.stamp == NowOf(log) then wait == []
             else |wait| == 1 && wait[0].Delay? && Lasts(o, TempoOf(log), e.stamp - NowOf(log), wait[0].ms)
    requires Does(o, gens, log, pieces, e, did)
    ensures Adds(o, gens, log, pieces, e, wait + did)
  {
    if e.stamp == NowOf(log) {
      assert wait + did == did;
    } else {
      assert (wait + did)[1..] == did;
    }
  }

  /** Where the piece of an entry ends with no note, nothing but the tempo is remembered anew. */
  lemma Unvoiced(s: State, r: State, log: seq<Entry>, pieces: seq<seq<Command>>, e: Entry, piece: seq<Command>)
    requires |log| == |pieces| && Recalls(s, log, pieces) && Voice(e, piece) < 0
    requires r.out == s.out + piece && r.now == e.stamp && r.preferred == s.preferred && |r.gens| == |s.gens|
    requires r.tempo == if e.event.NewTempo? then e.event.usec else s.tempo
    requires forall g :: 0 <= g < |r.gens| && r.gens[g].Busy? ==> r.gens[g] == s.gens[g]
    ensures Recalls(r, log + [e], pieces + [piece])
  {
    Longer(log, pieces, e, piece);
  }

  lemma Voiced(s: State, r: State, log: seq<Entry>, pieces: seq<seq<Command>>, e: Entry, piece: seq<Command>, g: nat)
    requires |log| == |pieces| && Recalls(s, log, pieces) && e.event.On? && Voice(e, piece) == g
    requires e.track < |s.preferred| && g < |s.gens|
    requires r.out == s.out + piece && r.now == e.stamp && r.tempo == s.tempo
    requires r.preferred == s.preferred[e.track := g] && r.gens == s.gens[g := Busy(e.track, e.event.note)]
    ensures Recalls(r, log + [e], pieces + [piece])
  {
    Longer(log, pieces, e, piece);
  }

  lemma Joined(out: seq<Command>, wait: seq<Command>, did: seq<Command>)
    ensures (out + wait) + did == out + (wait + did)
  {
  }

  /** The delay, and a note on behind it. */
  lemma WaitPlay(o: Options, s: State, e: Entry)
    returns (r: State, wait: seq<Command>, did: seq<Command>)
    requires Proper(o, s) && Tuned(s) && e.event.On? && s.now <= e.stamp && e.track < |s.preferred|
    ensures r == Apply(o, Wait(o, s, e.stamp), e.track, e.event) && r.out == s.out + (wait + did)
    ensures if e.stamp == s.now then wait == []
            else |wait| == 1 && wait[0].Delay? && Lasts(o, s.tempo, e.stamp - s.now, wait[0].ms)
    ensures PlaysNote(o, |s.gens|, Sounding(s.out), s.preferred[e.track], e.event.note, did)
    ensures r.now == e.stamp && r.tempo == s.tempo
    ensures did == [] ==> r.gens == s.gens && r.preferred == s.preferred
    ensures did != [] ==> r.gens == s.gens[did[0].gen := Busy(e.track, e.event.note)]
                          && r.preferred == s.preferred[e.track := did[0].gen]
  {
    var w;
    w, wait := Waited(o, s, e.stamp);
    r, did := NotePlayed(o, w, e.track, e.event.note);
    Joined(s.out, wait, did);
  }

  /** The delay, and a note off behind it. */
  lemma WaitStop(o: Options, s: State, e: Entry, held: set<nat>)
    returns (r: State, wait: seq<Command>, did: seq<Command>)
    requires Proper(o, s) && Tuned(s) && e.event.Off? && s.now <= e.stamp && e.track < |s.preferred|
    requires forall g: nat :: g < |s.gens| && s.gens[g].Busy? ==>
               (g in held <==> s.gens[g] == Busy(e.track, e.event.note))
    ensures r == Apply(o, Wait(o, s, e.stamp), e.track, e.event) && r.out == s.out + (wait + did)
    ensures if e.stamp == s.now then wait == []
            else |wait| == 1 && wait[0].Delay? && Lasts(o, s.tempo, e.stamp - s.now, wait[0].ms)
    ensures StopsNote(Sounding(s.out), held, did)
    ensures r.now == e.stamp && r.tempo == s.tempo && r.preferred == s.preferred
    ensures r.gens == Stopped(s.gens, e.track, e.event.note)
  {
    var w;
    w, wait := Waited(o, s, e.stamp);
    r := Apply(o, w, e.track, e.event);
    did := NoteStopped(w, e.track, e.event.note, held);
    Joined(s.out, wait, did);
  }

  lemma ScoresOn(o: Options, s: State, log: seq<Entry>, pieces: seq<seq<Command>>, e: Entry)
    returns (r: State, piece: seq<Command>)
    requires |log| == |pieces| && Recalls(s, log, pieces) && Proper(o, s) && e.event.On?
    requires Tuned(s) && s.now <= e.stamp && e.track < |s.preferred|
    ensures r == Apply(o, Wait(o, s, e.stamp), e.track, e.event)
    ensures Adds(o, |s.gens|, log, pieces, e, piece) && Recalls(r, log + [e], pieces + [piece])
  {
    var wait, did;
    r, wait, did := WaitPlay(o, s, e);
    piece := wait + did;
    AddsBoth(o, |s.gens|, log, pieces, e, wait, did);
    if did == [] {
      assert piece == wait;
      Unvoiced(s, r, log, pieces, e, piece);
    } else {
      Voiced(s, r, log, pieces, e, piece, did[0].gen);
    }
  }

  lemma ScoresOff(o: Options, s: State, log: seq<Entry>, pieces: seq<seq<Command>>, e: Entry)
    returns (r: State, piece: seq<Command>)
    requires |log| == |pieces| && Recalls(s, log, pieces) && Proper(o, s) && e.event.Off?
    requires Tuned(s) && s.now <= e.stamp && e.track < |s.preferred|
    ensures r == Apply(o, Wait(o, s, e.stamp), e.track, e.event)
    ensures Adds(o, |s.gens|, log, pieces, e, piece) && Recalls(r, log + [e], pieces + [piece])
  {
    var wait, did;
    r, wait, did := WaitStop(o, s, e, Held(log, pieces, e, |s.gens|));
    piece := wait + did;
    AddsBoth(o, |s.gens|, log, pieces, e, wait, did);
    Unvoiced(s, r, log, pieces, e, piece);
  }

  lemma ScoresOther(o: Options, s: State, log: seq<Entry>, pieces: seq<seq<Command>>, e: Entry)
    returns (r: State, piece: seq<Command>)
    requires |log| == |pieces| && Recalls(s, log, pieces) && Proper(o, s) && (e.event.NewTempo? || e.event.Broken?)
    requires Tuned(s) && s.now <= e.stamp && e.track < |s.preferred|
    ensures r == Apply(o, Wait(o, s, e.stamp), e.track, e.event)
    ensures Adds(o, |s.gens|, log, pieces, e, piece) && Recalls(r, log + [e], pieces + [piece])
  {
    var w, wait := Waited(o, s, e.stamp);
    r := Apply(o, w, e.track, e.event);
    piece := wait + [];
    AddsBoth(o, |s.gens|, log, pieces, e, wait, []);
    assert piece == wait;
    Unvoiced(s, r, log, pieces, e, piece);
  }

  /** What the mixer does with an entry is what the description says. */
  lemma Scores(o: Options, s: State, log: seq<Entry>, pieces: seq<seq<Command>>, e: Entry)
    returns (r: State, piece: seq<Command>)
    requires |log| == |pieces| && Recalls(s, log, pieces) && Proper(o, s)
    requires Tuned(s) && s.now <= e.stamp && e.track < |s.preferred|
    ensures r == Apply(o, Wait(o, s, e.stamp), e.track, e.event)
    ensures Adds(o, |s.gens|, log, pieces, e, piece) && Recalls(r, log + [e], pieces + [piece])
  {
    match e.event
    case NewTempo(_, _) => r, piece := ScoresOther(o, s, log, pieces, e);
    case Broken => r, piece := ScoresOther(o, s, log, pieces, e);
    case On(_, _) => r, piece := ScoresOn(o, s, log, pieces, e);
    case Off(_, _) => r, piece := ScoresOff(o, s, log, pieces, e);
  }

  lemma ScoredMore(o: Options, gens: nat, log: seq<Entry>, pieces: seq<seq<Command>>, e: Entry, piece: seq<Command>)
    requires Scored(o, gens, log, pieces) && Adds(o, gens, log, pieces, e, piece)
    ensures Scored(o, gens, log + [e], pieces + [piece])
  {
    var log', pieces' := log + [e], pieces + [piece];
    forall n | 0 <= n < |log'|
      ensures Adds(o, gens, log'[..n], pieces'[..n], log'[n], pieces'[n])
    {
      if n < |log| {
        assert log'[..n] == log[..n] && pieces'[..n] == pieces[..n];
      } else {
        assert log'[..n] == log && pieces'[..n] == pieces;
      }
    }
  }

  /** The state that a log makes, step by step. */
  ghost predicate Renders(o: Options, render: seq<Entry> -> State, log: seq<Entry>)
  {
    Proper(o, render(log)) && Tuned(render(log))
    && (log != [] ==>
      var n := |log| - 1;
      && Renders(o, render, log[..n]) && render(log[..n]).now <= log[n].stamp
      && log[n].track < |render(log[..n]).preferred|
      && render(log) == Apply(o, Wait(o, render(log[..n]), log[n].stamp), log[n].track, log[n].event))
  }

  /** The log is cut as described, and the state recalls it. */
  ghost predicate Cut(o: Options, gens: nat, s: State, log: seq<Entry>, pieces: seq<seq<Command>>)
  {
    Scored(o, gens, log, pieces) && Recalls(s, log, pieces) && |s.gens| == gens
  }

  lemma CutNothing(o: Options, s: State)
    requires Silent(s)
    ensures Cut(o, |s.gens|, s, [], [])
  {
  }

  lemma CutMore(o: Options, gens: nat, s: State, log: seq<Entry>, pieces: seq<seq<Command>>, e: Entry)
    returns (pieces': seq<seq<Command>>)
    requires Cut(o, gens, s, log, pieces) && Proper(o, s) && Tuned(s) && s.now <= e.stamp && e.track < |s.preferred|
    ensures Cut(o, gens, Apply(o, Wait(o, s, e.stamp), e.track, e.event), log + [e], pieces')
  {
    var r, piece := Scores(o, s, log, pieces, e);
    ScoredMore(o, gens, log, pieces, e, piece);
    pieces' := pieces + [piece];
  }

  lemma RendersLast(o: Options, render: seq<Entry> -> State, log: seq<Entry>) returns (s: State, e: Entry)
    requires Renders(o, render, log) && log != []
    ensures s == render(log[..|log| - 1]) && log == log[..|log| - 1] + [e] && Renders(o, render, log[..|log| - 1])
    ensures Proper(o, s) && Tuned(s) && s.now <= e.stamp && e.track < |s.preferred|
    ensures render(log) == Apply(o, Wait(o, s, e.stamp), e.track, e.event)
  {
    s, e := render(log[..|log| - 1]), log[|log| - 1];
  }

  lemma {:induction false} RendersScored(o: Options, render: seq<Entry> -> State, log: seq<Entry>, gens: nat)
    returns (pieces: seq<seq<Command>>)
    requires Renders(o, render, log) && |render([]).gens| == gens && Silent(render([]))
    ensures Cut(o, gens, render(log), log, pieces)
    decreases |log|
  {
    if log == [] {
      CutNothing(o, render(log));
      pieces := [];
    } else {
      var s, e := RendersLast(o, render, log);
      var front := log[..|log| - 1];
      var before := RendersScored(o, render, front, gens);
      pieces := CutMore(o, gens, s, front, before, e);
    }
  }

  lemma {:induction false} IsRender(o: Options, s0: State, log: seq<Entry>, render: seq<Entry> -> State)
    requires Proper(o, s0) && Silent(s0) && Timed(log, |s0.preferred|, 0)
    requires forall l :: render(l) == if Timed(l, |s0.preferred|, 0) then Render(o, s0, l) else s0
    ensures Renders(o, render, log)
    decreases |log|
  {
    RenderKeeps(o, s0, log);
    if log != [] {
      IsRender(o, s0, log[..|log| - 1], render);
    }
  }

  /** Whatever events come in order of time, the score can be cut into pieces, one for each, as described. */
  lemma RenderScored(o: Options, s0: State, log: seq<Entry>) returns (pieces: seq<seq<Command>>)
    requires Proper(o, s0) && Silent(s0) && Timed(log, |s0.preferred|, 0)
    ensures Scored(o, |s0.gens|, log, pieces) && Flatten(pieces) == Render(o, s0, log).out
    ensures NowOf(log) == Render(o, s0, log).now && TempoOf(log) == Render(o, s0, log).tempo
  {
    var render := (l: seq<Entry>) =>
      if Proper(o, s0) && Timed(l, |s0.preferred|, s0.now) then Render(o, s0, l) else s0;
    IsRender(o, s0, log, render);
    pieces := RendersScored(o, render, log, |s0.gens|);
  }

  // ------------------------------------------------------------------ from file to player

  /** A cut of the score of a file that was converted. */
  ghost predicate CutOf(o: Options, strategy1: bool, lists: Lists, gens: nat, log: seq<Entry>,
                        pieces: seq<seq<Command>>, tail: seq<Command>, played: seq<Command>)
  {
    && Ends(o, strategy1, lists, log, Finished) && Scored(o, gens, log, pieces)
    && played == Flatten(pieces) + tail + [End]
    && if EndTime(Finished, log) <= NowOf(log) then tail == []
       else |tail| == 1 && tail[0].Delay?
            && Lasts(o, TempoOf(log), EndTime(Finished, log) - NowOf(log), tail[0].ms)
  }

  /** What the player is told when a file is converted: one piece for each entry of the log that the events
      decide, each as described, a last delay, and the end. */
  lemma PlayedScored(mem: Memory, mask: set<int>, o: Options, strategy1: bool, spans: seq<(nat, nat)>,
                     generators: nat, played: seq<Command>)
    returns (log: seq<Entry>, pieces: seq<seq<Command>>, tail: seq<Command>)
    requires spans != [] && 0 < generators <= 16 && 0 < o.ticks
    requires Faithful(mem, mask, o, strategy1, spans, generators, Finished, played)
    ensures CutOf(o, strategy1, ListsOf(mem, mask, spans), generators, log, pieces, tail, played)
  {
    var s;
    log, s := HowItEnds(mem, mask, o, strategy1, spans, generators, Finished, played);
    var s0 := Opening(|spans|, generators);
    pieces := RenderScored(o, s0, log);
    tail := LastDelay(o, Render(o, s0, log), s);
  }

  lemma LastDelay(o: Options, t: State, s: State) returns (tail: seq<Command>)
    requires 0 < o.ticks && t.now <= s.now && s == Wait(o, t, s.now)
    ensures s.out == t.out + tail
    ensures if s.now == t.now then tail == []
            else |tail| == 1 && tail[0].Delay? && Lasts(o, t.tempo, s.now - t.now, tail[0].ms)
  {
    tail := [];
    if s.now != t.now {
      tail := [Delay(Msec(o, t.tempo, s.now - t.now))];
      MsecLasts(o, t.tempo, s.now - t.now);
    }
  }

  /** Under strategy 2 a track keeps its generator: entry n, a note of a track, is played on the generator on
      which the last started note of that track was played, 0 before any, whenever that one is silent. */
  lemma KeepsVoice(o: Options, gens: nat, log: seq<Entry>, pieces: seq<seq<Command>>, n: nat)
    requires Scored(o, gens, log, pieces) && n < |log| && log[n].event.On? && o.strategy2
    requires var g := LastVoice(log[..n], pieces[..n], log[n].track);
      g < gens && g !in Sounding(Flatten(pieces[..n]))
    ensures Voice(log[n], pieces[n]) == LastVoice(log[..n], pieces[..n], log[n].track)
  {
    assert Adds(o, gens, log[..n], pieces[..n], log[n], pieces[n]);
  }
}
