/**
 What the merged events of a tune do to the tone generators and to the score: delays, the choice of a
 generator, stops and plays (work/midi/hlp/miditonesV1.6.c, the second half of ProcessMidiFile's loop).
 */
module Mixer {
  import opened Words
  import opened Score
  import opened MidiTrack

  /** A generator is free, or plays a note for a track. */
  datatype Gen = Idle | Busy(track: nat, note: Byte)

  datatype Options = Options(strategy2: bool, keyshift: int, ticks: nat)

  datatype State = State(gens: seq<Gen>, preferred: seq<nat>, tempo: nat, now: nat, out: seq<Command>)

  /** An event of a track, and the time at which the merge handled it. */
  datatype Entry = Entry(track: nat, event: Event, stamp: nat)

  predicate Proper(o: Options, s: State)
  {
    && 0 < |s.gens| <= 16 && 0 < o.ticks
    && forall k :: 0 <= k < |s.preferred| ==> s.preferred[k] < |s.gens|
  }

  /** Ticks to milliseconds, at a tempo in microseconds per beat. */
  function Msec(o: Options, tempo: nat, ticks: nat): nat
    requires 0 < o.ticks
  {
    ticks * tempo / o.ticks / 1000
  }

  function Wait(o: Options, s: State, stamp: nat): State
    requires 0 < o.ticks && s.now <= stamp
  {
    if stamp == s.now then s else s.(now := stamp, out := s.out + [Delay(Msec(o, s.tempo, stamp - s.now))])
  }

  // ---------------------------------------------------------------- stopping notes

  function Stopped(gens: seq<Gen>, k: nat, note: Byte): seq<Gen>
  {
    seq(|gens|, i requires 0 <= i < |gens| => if gens[i] == Busy(k, note) then Idle else gens[i])
  }

  function StopOf(gen: Gen, k: nat, note: Byte, g: nat): seq<Command>
  {
    if gen == Busy(k, note) then [Stop(g)] else []
  }

  /** The stop commands for the first n generators, in order. */
  function Stops(gens: seq<Gen>, k: nat, note: Byte, n: nat): seq<Command>
    requires n <= |gens|
  {
    if n == 0 then []
    else Stops(gens, k, note, n - 1) + StopOf(gens[n - 1], k, note, n - 1)
  }

  // ---------------------------------------------------------------- starting notes

  function FirstIdle(gens: seq<Gen>, n: nat): (g: nat)
    requires n <= |gens|
    ensures n <= g <= |gens| && (forall i :: n <= i < g ==> gens[i].Busy?) && (g < |gens| ==> gens[g].Idle?)
    decreases |gens| - n
  {
    if n == |gens| || gens[n].Idle? then n else FirstIdle(gens, n + 1)
  }

  /** The preferred generator under strategy 2 if it is free, else the first free one, else none. */
  function Choose(o: Options, gens: seq<Gen>, preferred: nat): (g: nat)
    requires preferred < |gens|
    ensures g <= |gens| && (g < |gens| ==> gens[g].Idle?)
    ensures if o.strategy2 && gens[preferred].Idle? then g == preferred else forall i :: 0 <= i < g ==> gens[i].Busy?
  {
    if o.strategy2 && gens[preferred].Idle? then preferred else FirstIdle(gens, 0)
  }

  function Shifted(o: Options, note: Byte): nat
  {
    var n := note + o.keyshift;
    if n < 0 then 0 else if n > 127 then 127 else n
  }

  function Start(o: Options, s: State, k: nat, note: Byte): State
    requires Proper(o, s) && k < |s.preferred|
  {
    var g := Choose(o, s.gens, s.preferred[k]);
    if g == |s.gens| then s
    else s.(gens := s.gens[g := Busy(k, note)], preferred := s.preferred[k := g],
            out := s.out + [Play(g, Shifted(o, note))])
  }

  function Apply(o: Options, s: State, k: nat, e: Event): State
    requires Proper(o, s) && k < |s.preferred|
  {
    match e
    case NewTempo(_, usec) => s.(tempo := usec)
    case Off(_, note) => s.(gens := Stopped(s.gens, k, note), out := s.out + Stops(s.gens, k, note, |s.gens|))
    case On(_, note) => Start(o, s, k, note)
    case Broken => s
  }

  /** Entries of known tracks, in order of time. */
  predicate Timed(log: seq<Entry>, tracks: nat, now: nat)
  {
    && (forall i :: 0 <= i < |log| ==> log[i].track < tracks && now <= log[i].stamp)
    && (forall i, j :: 0 <= i < j < |log| ==> log[i].stamp <= log[j].stamp)
  }

  function Render(o: Options, s: State, log: seq<Entry>): (r: State)
    requires Proper(o, s) && Timed(log, |s.preferred|, s.now)
    ensures Proper(o, r) && |r.preferred| == |s.preferred| && |r.gens| == |s.gens|
    ensures r.now == if log == [] then s.now else log[|log| - 1].stamp
  {
    if log == [] then s
    else
      var n := |log| - 1;
      Apply(o, Wait(o, Render(o, s, log[..n]), log[n].stamp), log[n].track, log[n].event)
  }

  // ------------------------------------------------------------- play and stop alternate

  /** The generators that are on after these commands. */
  function Sounding(cs: seq<Command>): set<nat>
  {
    if cs == [] then {}
    else
      var before, c := Sounding(cs[..|cs| - 1]), cs[|cs| - 1];
      if c.Play? then before + {c.gen} else if c.Stop? then before - {c.gen} else before
  }

  /** A generator is started only when it is off, and stopped only when it is on. */
  predicate WellPlayed(cs: seq<Command>)
  {
    cs != [] ==>
      var before, c := cs[..|cs| - 1], cs[|cs| - 1];
      && WellPlayed(before)
      && (c.Play? ==> c.gen !in Sounding(before)) && (c.Stop? ==> c.gen in Sounding(before))
  }

  predicate Starts(c: Command, g: nat) { c.Play? && c.gen == g }

  predicate Halts(c: Command, g: nat) { c.Stop? && c.gen == g }

  /** Command i starts g, and no later one stops it. */
  ghost predicate OnSince(cs: seq<Command>, i: nat, g: nat)
    requires i < |cs|
  {
    Starts(cs[i], g) && forall j :: i < j < |cs| ==> !Halts(cs[j], g)
  }

  /** A generator sounds exactly if it was started and not stopped since. */
  lemma {:induction false} SoundingSince(cs: seq<Command>, g: nat)
    ensures g in Sounding(cs) <==> exists i :: 0 <= i < |cs| && OnSince(cs, i, g)
  {
    if cs != [] {
      var n := |cs| - 1;
      SoundingSince(cs[..n], g);
      assert forall i :: 0 <= i < n ==> (OnSince(cs, i, g) <==> OnSince(cs[..n], i, g) && !Halts(cs[n], g));
      assert OnSince(cs, n, g) <==> Starts(cs[n], g);
    }
  }

  lemma {:induction false} WellPlayedAt(cs: seq<Command>, j: nat)
    requires WellPlayed(cs) && j < |cs|
    ensures cs[j].Play? ==> cs[j].gen !in Sounding(cs[..j])
    ensures cs[j].Stop? ==> cs[j].gen in Sounding(cs[..j])
    decreases |cs|
  {
    if j < |cs| - 1 {
      WellPlayedAt(cs[..|cs| - 1], j);
      assert cs[..|cs| - 1][..j] == cs[..j];
    }
  }

  /** On every generator plays and stops alternate, starting with a play. */
  lemma Alternate(cs: seq<Command>, j: nat, g: nat)
    requires WellPlayed(cs) && j < |cs|
    ensures Starts(cs[j], g) ==>
              forall i :: 0 <= i < j && Starts(cs[i], g) ==> exists k :: i < k < j && Halts(cs[k], g)
    ensures Halts(cs[j], g) ==>
              exists i :: 0 <= i < j && Starts(cs[i], g) && forall k :: i < k < j ==> !Halts(cs[k], g)
  {
    WellPlayedAt(cs, j);
    SoundingSince(cs[..j], g);
    if Starts(cs[j], g) {
      forall i | 0 <= i < j && Starts(cs[i], g) ensures exists k :: i < k < j && Halts(cs[k], g) {
        assert !OnSince(cs[..j], i, g);
      }
    }
    if Halts(cs[j], g) {
      var i :| 0 <= i < j && OnSince(cs[..j], i, g);
      assert forall k :: i < k < j ==> cs[k] == cs[..j][k];
    }
  }

  // --------------------------------------------------------------- what the mixer keeps

  /** The score so far is playable, and its generators are in the state the mixer believes. */
  ghost predicate Tuned(s: State)
  {
    && WellPlayed(s.out)
    && (forall g :: g in Sounding(s.out) <==> 0 <= g < |s.gens| && s.gens[g].Busy?)
  }

  /** Every command but a delay is legal by construction. */
  predicate Sane(c: Command, gens: nat)
  {
    match c
    case Play(g, n) => g < gens && n < 128
    case Stop(g) => g < gens
    case Delay(_) => true
    case End => false
  }

  ghost predicate AllSane(s: State)
  {
    forall i :: 0 <= i < |s.out| ==> Sane(s.out[i], |s.gens|)
  }

  lemma WaitKeeps(o: Options, s: State, stamp: nat)
    requires Proper(o, s) && Tuned(s) && AllSane(s) && s.now <= stamp
    ensures Tuned(Wait(o, s, stamp)) && AllSane(Wait(o, s, stamp))
  {
  }

  /** The generators that sound when the first n have been told to stop the note. */
  ghost predicate StoppedUpTo(gens: seq<Gen>, cs: seq<Command>, k: nat, note: Byte, n: nat)
  {
    && WellPlayed(cs)
    && forall g :: g in Sounding(cs) <==> 0 <= g < |gens| && gens[g].Busy? && (n <= g || gens[g] != Busy(k, note))
  }

  lemma StopKeeps(gens: seq<Gen>, cs: seq<Command>, k: nat, note: Byte, n: nat)
    requires n < |gens| && StoppedUpTo(gens, cs, k, note, n)
    ensures StoppedUpTo(gens, cs + StopOf(gens[n], k, note, n), k, note, n + 1)
  {
    if gens[n] != Busy(k, note) {
      assert cs + [] == cs;
    }
  }

  lemma {:induction false} StopsKeep(gens: seq<Gen>, out: seq<Command>, k: nat, note: Byte, n: nat)
    requires n <= |gens| && StoppedUpTo(gens, out, k, note, 0)
    ensures StoppedUpTo(gens, out + Stops(gens, k, note, n), k, note, n)
  {
    if n == 0 {
      assert out + [] == out;
    } else {
      StopsKeep(gens, out, k, note, n - 1);
      var before := Stops(gens, k, note, n - 1);
      StopKeeps(gens, out + before, k, note, n - 1);
      assert out + (before + StopOf(gens[n - 1], k, note, n - 1)) == out + before + StopOf(gens[n - 1], k, note, n - 1);
    }
  }

  lemma {:induction false} StopsSane(gens: seq<Gen>, k: nat, note: Byte, n: nat)
    requires n <= |gens|
    ensures forall i :: 0 <= i < |Stops(gens, k, note, n)| ==> Sane(Stops(gens, k, note, n)[i], |gens|)
  {
    if n > 0 { StopsSane(gens, k, note, n - 1); }
  }

  lemma ApplyKeeps(o: Options, s: State, k: nat, e: Event)
    requires Proper(o, s) && k < |s.preferred| && Tuned(s) && AllSane(s)
    ensures Tuned(Apply(o, s, k, e)) && AllSane(Apply(o, s, k, e))
  {
    match e
    case NewTempo(_, _) =>
    case Broken =>
    case Off(_, note) =>
      StopsKeep(s.gens, s.out, k, note, |s.gens|);
      StopsSane(s.gens, k, note, |s.gens|);
    case On(_, note) =>
      var g := Choose(o, s.gens, s.preferred[k]);
  }

  /** Whatever events come in whatever order of time: generators play and stop in turn. */
  lemma {:induction false} RenderKeeps(o: Options, s: State, log: seq<Entry>)
    requires Proper(o, s) && Timed(log, |s.preferred|, s.now) && Tuned(s) && AllSane(s)
    ensures Tuned(Render(o, s, log)) && AllSane(Render(o, s, log))
    decreases |log|
  {
    if log != [] {
      var n := |log| - 1;
      RenderKeeps(o, s, log[..n]);
      var r := Render(o, s, log[..n]);
      ApplyKeeps(o, Wait(o, r, log[n].stamp), log[n].track, log[n].event);
    }
  }

  /** A note off frees every generator that plays the note for the track, and no other. */
  lemma OffFrees(o: Options, s: State, k: nat, time: nat, note: Byte, g: nat)
    requires Proper(o, s) && k < |s.preferred| && Tuned(s) && g < |s.gens|
    ensures g in Sounding(Apply(o, s, k, Off(time, note)).out) <==> g in Sounding(s.out) && s.gens[g] != Busy(k, note)
  {
    StopsKeep(s.gens, s.out, k, note, |s.gens|);
  }

  /** Every generator sounds. */
  ghost predicate Full(s: State)
  {
    forall g :: 0 <= g < |s.gens| ==> g in Sounding(s.out)
  }

  /** A note is dropped exactly when every generator sounds; else one more of them does. */
  lemma OnDropsOnlyWhenFull(o: Options, s: State, k: nat, time: nat, note: Byte)
    requires Proper(o, s) && k < |s.preferred| && Tuned(s)
    ensures Apply(o, s, k, On(time, note)) == s <==> Full(s)
    ensures Apply(o, s, k, On(time, note)) != s ==>
              exists g :: 0 <= g < |s.gens| && g !in Sounding(s.out)
                && PlaysOn(o, s, Apply(o, s, k, On(time, note)), k, note, g)
  {
    var g, after := Choose(o, s.gens, s.preferred[k]), Apply(o, s, k, On(time, note));
    if g < |s.gens| {
      assert |after.out| == |s.out| + 1;
      assert s.gens[g].Idle? && g !in Sounding(s.out) && !Full(s);
      assert PlaysOn(o, s, after, k, note, g);
    }
  }

  /** One more generator sounds: g, with the note of track k. */
  ghost predicate PlaysOn(o: Options, s: State, after: State, k: nat, note: Byte, g: nat)
  {
    && after.out == s.out + [Play(g, Shifted(o, note))] && Sounding(after.out) == Sounding(s.out) + {g}
    && g < |after.gens| && after.gens[g] == Busy(k, note)
  }
}
