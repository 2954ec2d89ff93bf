/**
 Turning the tracks of a MIDI file into one score: the merge by time, the tone generators and the byte
 stream (work/midi/hlp/miditonesV1.6.c, ProcessMidiFile).
 */
module Merge {
  import opened Words
  import opened Score
  import opened MidiTrack
  import opened Mixer
  import opened Schedule

  // ------------------------------------------------------------------- bookkeeping

  /** Bytes still to be read, and one for a track that is not known to be done. */
  function WorkOf(t: Track): nat
  {
    (if t.ptr < t.end then t.end - t.ptr else 0) + if t.cmd.Done? then 0 else 1
  }

  function Work(ts: seq<Track>): nat
  {
    if ts == [] then 0 else Work(ts[..|ts| - 1]) + WorkOf(ts[|ts| - 1])
  }

  function DoneCount(ts: seq<Track>): nat
  {
    if ts == [] then 0 else DoneCount(ts[..|ts| - 1]) + if ts[|ts| - 1].cmd.Done? then 1 else 0
  }

  lemma {:induction false} Replaced(ts: seq<Track>, k: nat, t: Track)
    requires k < |ts|
    ensures Work(ts[k := t]) == Work(ts) - WorkOf(ts[k]) + WorkOf(t)
    ensures DoneCount(ts[k := t]) == DoneCount(ts) - (if ts[k].cmd.Done? then 1 else 0) + if t.cmd.Done? then 1 else 0
  {
    var n := |ts| - 1;
    if k < n {
      Replaced(ts[..n], k, t);
      assert ts[k := t][..n] == ts[..n][k := t];
    } else {
      assert ts[k := t][..n] == ts[..n];
    }
  }

  lemma {:induction false} AllDone(ts: seq<Track>)
    ensures DoneCount(ts) <= |ts|
    ensures DoneCount(ts) == |ts| <==> forall i :: 0 <= i < |ts| ==> ts[i].cmd.Done?
  {
    if ts != [] {
      var n := |ts| - 1;
      AllDone(ts[..n]);
      assert forall i :: 0 <= i < n ==> ts[..n][i] == ts[i];
    }
  }

  function RawTrack(span: (nat, nat)): Track
  {
    Track(span.0, span.1, 0, 0, Unread, 0, 0)
  }

  function RawTracks(spans: seq<(nat, nat)>): (ts: seq<Track>)
  {
    seq(|spans|, i requires 0 <= i < |spans| => RawTrack(spans[i]))
  }

  lemma {:induction false} NoneDone(ts: seq<Track>)
    requires forall i :: 0 <= i < |ts| ==> ts[i].cmd.Unread?
    ensures DoneCount(ts) == 0
  {
    if ts != [] { NoneDone(ts[..|ts| - 1]); }
  }

  /** What find_note delivers for every track of the file. */
  function ListsOf(mem: Memory, mask: set<int>, spans: seq<(nat, nat)>): Lists
  {
    seq(|spans|, j requires 0 <= j < |spans| => Listen(mem, mask, RawTrack(spans[j])))
  }

  /** Its event is at hand, and those after it are still in the file. */
  function Pending(mem: Memory, mask: set<int>, t: Track): seq<Event>
    requires !t.cmd.Unread?
  {
    if t.cmd.Done? then [] else [EventOf(t)] + Listen(mem, mask, t)
  }

  class Tune {
    const mem: Memory
    const mask: set<int>
    const o: Options
    const strategy1: bool
    const track: array<Track>
    const gens: array<Gen>
    const preferred: array<nat>
    var tempo: nat
    var timenow: nat
    var tracksDone: nat
    var earliest: nat
    var file: seq<Byte>
    ghost var out: seq<Command>
    ghost var log: seq<Entry>
    ghost const tale: seq<Entry> -> Tale

    /** Tracks as their headers leave them: each a span of the file. */
    constructor (mem: Memory, mask: set<int>, o: Options, strategy1: bool, spans: seq<(nat, nat)>, generators: nat)
      requires spans != [] && 0 < generators <= 16 && 0 < o.ticks
      ensures fresh(track) && fresh(gens) && fresh(preferred) && Fresh(spans)
      ensures this.mem == mem && this.mask == mask && this.o == o && this.strategy1 == strategy1
              && gens.Length == generators
    {
      this.mem, this.mask, this.o, this.strategy1 := mem, mask, o, strategy1;
      track := new Track[|spans|](i requires 0 <= i < |spans| => RawTrack(spans[i]));
      gens := new Gen[generators](_ => Idle);
      preferred := new nat[|spans|](_ => 0);
      tempo, timenow, tracksDone, earliest, file := 0, 0, 0, 0, [];
      out, log := [], [];
      var s0 := State(seq(generators, _ => Idle), seq(|spans|, _ => 0), 0, 0, []);
      tale := log => TaleOf(o, s0, log);
      new;
      assert Silence() == s0;
    }

    /** Nothing has been read yet. */
    ghost predicate Fresh(spans: seq<(nat, nat)>)
      reads `tempo, `timenow, `tracksDone, `earliest, `file, `out, `log, track, gens, preferred
    {
      && Shape() && Tells(tale, o, Silence()) && View() == Silence() && file == [] && log == [] && tracksDone == 0
        && earliest == 0
      && track[..] == RawTracks(spans)
    }

    ghost function View(): State
      reads `tempo, `timenow, `out, gens, preferred
    {
      State(gens[..], preferred[..], tempo, timenow, out)
    }

    ghost predicate Shape()
    {
      0 < track.Length == preferred.Length && 0 < gens.Length <= 16 && 0 < o.ticks
    }

    /** The tracks stand at their next events, none of which is overdue. */
    ghost predicate TracksOk()
      reads `timenow, `tracksDone, track
    {
      Waiting(timenow) && timenow <= FOREVER && Counted()
    }

    ghost predicate Waiting(now: nat)
      reads track
    {
      AllWait(track[..], now)
    }

    ghost predicate Counted()
      reads `tracksDone, track
    {
      tracksDone == DoneCount(track[..])
    }

    ghost predicate Written()
      reads `file, `out
    {
      (forall c :: c in out ==> Legal(c) && c != End) && file == ScoreOf(out)
    }

    /** Of the first i tracks in turn, k has the next event, at the given time; or none has a time to speak of. */
    ghost predicate Next(start: nat, i: int, k: nat, time: nat)
      reads `earliest, track
    {
      && k < track.Length && time <= FOREVER
      && (if time < FOREVER then !track[k].cmd.Done? && track[k].time == time && Turn(start, k, track.Length) < i
          else k == earliest)
      && (forall j :: 0 <= j < track.Length && Turn(start, j, track.Length) < i && !track[j].cmd.Done?
                  ==> time <= track[j].time)
      && (time < FOREVER ==>
            forall j :: 0 <= j < track.Length && !track[j].cmd.Done? && track[j].time == time
                        ==> Turn(start, k, track.Length) <= Turn(start, j, track.Length))
    }

    /** The track with the next event; among those of equal time the first in turn. */
    method Earliest() returns (k: nat, time: nat)
      requires Shape() && earliest < track.Length
      ensures Next(StartAt(strategy1, earliest, track.Length), track.Length, k, time)
    {
      var tracknum: int := if strategy1 then track.Length else earliest;
      ghost var start := StartAt(strategy1, earliest, track.Length);
      k, time := earliest, FOREVER;
      for i := 0 to track.Length
        invariant Next(start, i, k, time)
        invariant if i == 0 then start == if tracknum + 1 >= track.Length then 0 else tracknum + 1
                  else 0 <= tracknum < track.Length && Turn(start, tracknum, track.Length) == i - 1
      {
        tracknum := tracknum + 1;
        if tracknum >= track.Length { tracknum := 0; }
        if !track[tracknum].cmd.Done? && track[tracknum].time < time {
          time := track[tracknum].time;
          k := tracknum;
        }
      }
    }

    /** A delay, if time has advanced: at most 15 bits of milliseconds. */
    method Advance(time: nat, ghost after: State, ghost far: bool) returns (ok: bool)
      requires Shape() && Written() && timenow <= time && after == Wait(o, View(), time)
      requires far <==> Long(o, tempo, time - timenow)
      modifies `timenow, `file, `out
      ensures Written()
      ensures ok ==> View() == after
      ensures !ok ==> View() == old(View())
      ensures ok <==> !far
      ensures time == old(timenow) ==> ok && View() == old(View()) && file == old(file)
    {
      var delta := time - timenow;
      ok := true;
      if delta > 0 {
        var msec := delta * tempo / o.ticks / 1000;
        assert msec == Msec(o, tempo, delta);
        if msec > 0x7fff {
          return false;
        }
        Emit(Delay(msec), [msec / 256, msec % 256]);
      }
      timenow := time;
    }

    /** Bytes to the file, and the command they stand for. */
    method Emit(ghost c: Command, bytes: seq<Byte>)
      requires Written() && Legal(c) && c != End && bytes == Encode(c)
      modifies `file, `out
      ensures Written() && out == old(out) + [c]
    {
      ScoreOfAppend(out, c);
      file := file + bytes;
      out := out + [c];
    }

    /** Stops the note on whichever generators play it for the track. */
    method StopNotes(k: nat, note: Byte)
      requires Shape() && Written()
      modifies `file, `out, gens
      ensures Written()
      ensures gens[..] == Stopped(old(gens[..]), k, note)
      ensures out == old(out) + Stops(old(gens[..]), k, note, gens.Length)
    {
      ghost var was, before := gens[..], out;
      for g := 0 to gens.Length
        invariant Written() && out == before + Stops(was, k, note, g)
        invariant forall i :: 0 <= i < gens.Length ==>
                  gens[i] == if i < g && was[i] == Busy(k, note) then Idle else was[i]
      {
        StopOne(k, note, g);
        assert before + (Stops(was, k, note, g) + StopOf(was[g], k, note, g))
            == before + Stops(was, k, note, g) + StopOf(was[g], k, note, g);
      }
    }

    method StopOne(k: nat, note: Byte, g: nat)
      requires g < gens.Length <= 16 && Written()
      modifies `file, `out, gens
      ensures Written() && out == old(out) + StopOf(old(gens[g]), k, note, g)
      ensures gens[g] == if old(gens[g]) == Busy(k, note) then Idle else old(gens[g])
      ensures forall i :: 0 <= i < gens.Length && i != g ==> gens[i] == old(gens[i])
    {
      if gens[g] == Busy(k, note) {
        Emit(Stop(g), [0x80 + g]);
        gens[g] := Idle;
      }
    }

    /** Starts a note on the preferred or the first free generator, or skips it. */
    method PlayNote(k: nat, note: Byte)
      requires Shape() && Written() && k < track.Length && Proper(o, View())
      modifies `file, `out, gens, preferred
      ensures Written() && View() == Start(o, old(View()), k, note)
    {
      var g := gens.Length;
      if o.strategy2 && gens[preferred[k]].Idle? {
        g := preferred[k];
      } else {
        g := 0;
        while g < gens.Length && gens[g].Busy?
          invariant g <= gens.Length && FirstIdle(gens[..], g) == FirstIdle(gens[..], 0)
        {
          g := g + 1;
        }
      }
      if g < gens.Length {
        var shifted := note + o.keyshift;
        if shifted < 0 { shifted := 0; }
        if shifted > 127 { shifted := 127; }
        Emit(Play(g, shifted), [0x90 + g, shifted]);
        gens[g] := Busy(k, note);
        preferred[k] := g;
      }
    }

    /** find_note, in place: track k moves on to its next event, or is done. */
    method FindNext(k: nat) returns (ok: bool)
      requires k < track.Length && !track[k].cmd.Done? && tracksDone == DoneCount(track[..])
      modifies track, `tracksDone
      ensures ok == Find(mem, mask, old(track[k])).Found?
      ensures ok ==> track[..] == old(track[..])[k := Find(mem, mask, old(track[k])).t]
      ensures ok ==> Work(track[..]) < old(Work(track[..]))
      ensures !ok ==> track[..] == old(track[..])
      ensures tracksDone == DoneCount(track[..])
    {
      var found := FindNote(mem, mask, track[k]);
      ok := found.Found?;
      if ok {
        Replaced(track[..], k, found.t);
        track[k] := found.t;
        if found.t.cmd.Done? { tracksDone := tracksDone + 1; }
      }
    }

    // ------------------------------------------------------------- the first events

    /** Reads every track up to its first event. */
    method Begin(ghost spans: seq<(nat, nat)>) returns (ok: bool)
      requires Fresh(spans)
      modifies `tracksDone, track
      ensures Settled()
      ensures var lists := ListsOf(mem, mask, spans);
        if ok then Poised(lists) else Ends(o, strategy1, lists, log, BadFile)
    {
      ghost var lists := ListsOf(mem, mask, spans);
      NoneDone(RawTracks(spans));
      FirstTale();
      ok := true;
      for k := 0 to track.Length
        invariant Counted() && ok && Opened(RawTracks(spans), track[..], k)
      {
        ghost var ts := track[..];
        ok := FindNext(k);
        if !ok {
          BrokenAtOnce(o, strategy1, lists, k);
          return;
        }
        Opens(RawTracks(spans), ts, k);
      }
      OpenedIsPoised(spans);
    }

    lemma OpenedIsPoised(spans: seq<(nat, nat)>)
      requires Shape() && Tells(tale, o, Silence()) && View() == Silence() && file == [] && log == [] && Settled()
               && Counted()
      requires earliest == 0 && Opened(RawTracks(spans), track[..], track.Length)
      ensures Poised(ListsOf(mem, mask, spans))
    {
      OpenedAccounts(spans, track[..]);
    }

    lemma OpenedAccounts(spans: seq<(nat, nat)>, ts: seq<Track>)
      requires Opened(RawTracks(spans), ts, |ts|)
      ensures var lists := ListsOf(mem, mask, spans);
        |lists| == |ts| && AllWait(ts, 0) && Accounted(mem, mask, [], ts, lists)
    {
      var lists := ListsOf(mem, mask, spans);
      forall j | AtTrack(j) && 0 <= j < |ts| ensures OfTrack([], j) + Pending(mem, mask, ts[j]) == lists[j] {
        assert OfTrack([], j) == [] && RawTracks(spans)[j] == RawTrack(spans[j]);
      }
    }

    ghost predicate Opened(first: seq<Track>, ts: seq<Track>, n: nat)
    {
      && |first| == |ts| && n <= |ts| && (forall j :: n <= j < |ts| ==> ts[j] == first[j] && ts[j].cmd.Unread?)
      && forall j :: 0 <= j < n ==> !ts[j].cmd.Unread? && Pending(mem, mask, ts[j]) == Listen(mem, mask, first[j])
    }

    lemma Opens(first: seq<Track>, ts: seq<Track>, k: nat)
      requires k < |ts| && Opened(first, ts, k) && Find(mem, mask, ts[k]).Found?
      ensures Opened(first, ts[k := Find(mem, mask, ts[k]).t], k + 1)
    {
    }

    lemma FirstTale()
      requires Shape() && Tells(tale, o, Silence()) && View() == Silence() && log == []
      ensures Settled()
    {
      assert Wanted(log);
    }

    // ------------------------------------------------------------- the whole story

    /** Before the first event. */
    ghost function Silence(): State
    {
      State(seq(gens.Length, _ => Idle), seq(track.Length, _ => 0), 0, 0, [])
    }

    /** The generators and the score are what the events handled have made them. */
    ghost predicate Settled()
      reads `tempo, `timenow, `out, `log, gens, preferred
    {
      tale(log) == Tale(View()) && timenow == NowOf(log) && tempo == TempoOf(log)
    }

    /** Likewise, and time may have passed since. */
    ghost predicate Rendered()
      reads `tempo, `timenow, `out, `log, gens, preferred
    {
      0 < o.ticks && Since(o, tale(log), View()) && NowOf(log) <= timenow && tempo == TempoOf(log)
    }

    /** Between two events. */
    ghost predicate Ready(lists: Lists)
      reads `file, `out, `timenow, `tracksDone, `log, track
    {
      Shape() && Tells(tale, o, Silence()) && Written() && TracksOk() && Balanced(lists) && Planned(lists)
    }

    ghost predicate Balanced(lists: Lists)
      reads `log, track
    {
      |lists| == track.Length && AllWait(track[..], 0) && Accounted(mem, mask, log, track[..], lists)
    }

    ghost predicate Planned(lists: Lists)
      reads `log
    {
      Scheduled(o, strategy1, lists, log)
    }

    ghost predicate Resting(lists: Lists)
      reads `log
    {
      !Again(log, RestOf(lists, log))
    }

    /** Before a pass. */
    ghost predicate Poised(lists: Lists)
      reads `earliest, `tempo, `file, `out, `timenow, `tracksDone, `log, track, gens, preferred
    {
      Ready(lists) && Settled() && earliest == LastTrack(log) < track.Length && Resting(lists)
    }

    /** The event of track k is the next one, and its time has come. */
    ghost predicate Due(lists: Lists, k: nat)
      reads `timenow, `log, track
    {
      && k < track.Length && !track[k].cmd.Unread? && !track[k].cmd.Done?
      && Follows(TooFar(o, log), strategy1, RestOf(lists, log), log, Entry(k, EventOf(track[k]), timenow))
    }

    /** Carries out what track k waits for. */
    method Carry(k: nat, ghost after: State)
      requires Shape() && Written() && k < track.Length && Proper(o, View())
      requires !track[k].cmd.Unread? && !track[k].cmd.Done?
      requires after == Apply(o, View(), k, EventOf(track[k]))
      modifies `tempo, `file, `out, gens, preferred
      ensures Written() && View() == after
    {
      var t := track[k];
      if t.cmd == Tempo {
        tempo := t.tempo;
      } else if t.cmd == StopNote {
        StopNotes(k, t.note);
      } else {
        PlayNote(k, t.note);
      }
    }

    /** An event of track k was handled; what comes next is at hand, or a format error. */
    ghost predicate Handled(lists: Lists, k: nat, ok: bool)
      reads `tempo, `file, `out, `timenow, `tracksDone, `log, track, gens, preferred
    {
      && Settled() && Written() && log != [] && LastTrack(log) == k < track.Length
      && if ok then Ready(lists) else Ends(o, strategy1, lists, log, BadFile)
    }

    /** The event of track k, and on to its next. */
    method Handle(k: nat, ghost lists: Lists) returns (ok: bool)
      requires Ready(lists) && Rendered() && Due(lists, k)
      modifies `tempo, `file, `out, `log, `tracksDone, gens, preferred, track
      ensures Handled(lists, k, ok) && log == old(log) + [Entry(k, EventOf(old(track[k])), timenow)]
      ensures ok ==> Work(track[..]) < old(Work(track[..]))
    {
      ghost var log0 := log;
      ghost var e := Book(k, lists);
      ok := Proceed(k, e, lists, log0);
    }

    /** Track k goes on to its next event, the one before having been logged. */
    method Proceed(k: nat, ghost e: Entry, ghost lists: Lists, ghost log0: seq<Entry>) returns (ok: bool)
      requires Shape() && TracksOk() && k < track.Length && !track[k].cmd.Done? && |lists| == track.Length
      requires e.track == k && e.event == EventOf(track[k]) && log == log0 + [e] && Planned(lists)
      requires Accounted(mem, mask, log0, track[..], lists)
      modifies `tracksDone, track
      ensures if ok then TracksOk() && Balanced(lists) else Ends(o, strategy1, lists, log, BadFile)
      ensures ok ==> Work(track[..]) < old(Work(track[..]))
    {
      ghost var ts := track[..];
      ok := FindNext(k);
      Moves(mem, mask, log0, e, ts, lists);
      if ok {
        WaitsOn(mem, mask, ts, k, timenow);
      } else {
        BrokenNext(o, strategy1, lists, log, k);
      }
    }

    /** The event of track k, done and logged. */
    method Book(k: nat, ghost lists: Lists) returns (ghost e: Entry)
      requires Shape() && Tells(tale, o, Silence()) && Written() && Rendered() && Planned(lists) && Due(lists, k)
      modifies `tempo, `file, `out, `log, gens, preferred
      ensures Settled() && Written() && Planned(lists)
      ensures e == Entry(k, EventOf(track[k]), timenow) && log == old(log) + [e]
    {
      e := Entry(k, EventOf(track[k]), timenow);
      ghost var after := TellMore(o, Silence(), tale, log, View(), e);
      ScheduledMore(o, strategy1, lists, log, e);
      Carry(k, after);
      log := log + [e];
    }

    /** The track chosen last is done, and no other has a time to speak of. */
    ghost predicate Dry()
      reads `earliest, `timenow, track
    {
      earliest < track.Length && track[earliest].cmd.Done? && timenow == FOREVER && Waiting(FOREVER)
    }

    /** The track remembered has the next event, at the given time, when track `last` was served last. */
    ghost predicate Sought(lists: Lists, last: nat, time: nat)
      reads `earliest, `log
    {
      First(strategy1, RestOf(lists, log), last, earliest) && time == Least(RestOf(lists, log))
    }

    /** The track with the next event is remembered. */
    method Take(ghost lists: Lists) returns (time: nat)
      requires Shape() && TracksOk() && Balanced(lists) && earliest < track.Length
      modifies `earliest
      ensures timenow <= time <= FOREVER && Waiting(time) && Sought(lists, old(earliest), time)
      ensures old(Dry()) ==> time == timenow && earliest == old(earliest)
    {
      var k;
      k, time := Earliest();
      NextIsFirst(mem, mask, log, track[..], lists, strategy1, earliest, k, time);
      earliest := k;
    }

    /** Time has gone on to the one that was sought, or its delay is too long. */
    ghost predicate Reached(r: Outcome, time: nat)
      reads `tempo, `file, `out, `timenow, `log, gens, preferred
    {
      if r == Going then Rendered() && timenow == time && !TooFar(o, log)(time)
      else r == TooBig && Settled() && TooFar(o, log)(time)
    }

    /** The delay up to the event that was chosen. */
    method Reach(ghost lists: Lists, time: nat) returns (r: Outcome)
      requires Ready(lists) && Rendered() && timenow <= time <= FOREVER && Waiting(time)
      requires Settled() || (time == timenow && !TooFar(o, log)(time))
      modifies `timenow, `file, `out
      ensures Ready(lists) && Reached(r, time)
      ensures time == old(timenow) ==> r == Going && View() == old(View()) && file == old(file)
    {
      ghost var far := FarNow(time);
      if time == timenow && !Settled() {
        assert !far;
      }
      ghost var after := TellWait(o, tale(log), View(), time);
      var ok := Advance(time, after, far);
      assert Balanced(lists) && Counted() && Waiting(time);
      r := if ok then Going else TooBig;
    }

    /** Whether a delay from now on is too long is known from the log, once the merge is settled. */
    lemma FarNow(time: nat) returns (far: bool)
      ensures far <==> Long(o, tempo, time - timenow)
      ensures Settled() ==> (far <==> TooFar(o, log)(time))
    {
      far := Long(o, tempo, time - timenow);
    }

    /** Between two passes: the event handled last is done with, and no time has passed since, unless the
        tracks are dry. */
    ghost predicate Pausing(lists: Lists)
      reads `earliest, `tempo, `file, `out, `timenow, `tracksDone, `log, track, gens, preferred
    {
      && Ready(lists) && Rendered() && earliest == LastTrack(log) < track.Length && Resting(lists)
      && !TooFar(o, log)(timenow) && (Settled() || Dry())
    }

    /** The next event is sought between two passes. */
    method TakeNext(ghost lists: Lists) returns (time: nat)
      requires Pausing(lists)
      modifies `earliest
      ensures Ready(lists) && Rendered() && timenow <= time <= FOREVER && Waiting(time)
      ensures Sought(lists, LastTrack(log), time)
      ensures Settled() || (time == timenow && !TooFar(o, log)(time))
      ensures old(Dry()) ==> time == timenow && earliest == old(earliest)
    {
      time := Take(lists);
    }

    /** The first half of a pass: the track with the next event, and the delay up to it. */
    method Seek(ghost lists: Lists) returns (r: Outcome, ghost time: nat)
      requires Pausing(lists)
      modifies `earliest, `timenow, `file, `out
      ensures Ready(lists) && Sought(lists, LastTrack(log), time)
      ensures Reached(r, time)
      ensures old(Dry()) ==> r == Going && View() == old(View()) && file == old(file) && earliest == old(earliest)
    {
      var t := TakeNext(lists);
      time := t;
      if t < timenow {
        return Backwards, time;
      }
      r := Reach(lists, t);
    }

    /** The note off of track k, and those of the same track at the same time. */
    method HandleStops(k: nat, ghost lists: Lists) returns (ok: bool)
      requires Ready(lists) && Rendered() && Due(lists, k) && track[k].cmd.StopNote?
      modifies `tempo, `file, `out, `log, `tracksDone, gens, preferred, track
      ensures Handled(lists, k, ok) && (ok ==> Resting(lists) && Work(track[..]) < old(Work(track[..])))
    {
      ok := Handle(k, lists);
      while ok && track[k].cmd.StopNote? && track[k].time == timenow
        invariant Handled(lists, k, ok) && log[|log| - 1].event.Off?
        invariant ok ==> Work(track[..]) < old(Work(track[..]))
        decreases ok, Work(track[..])
      {
        ok := HandleAgain(k, lists);
      }
      if ok {
        NoMoreStops(lists, k);
      }
    }

    method HandleAgain(k: nat, ghost lists: Lists) returns (ok: bool)
      requires Handled(lists, k, true) && log[|log| - 1].event.Off?
      requires k < track.Length && track[k].cmd.StopNote? && track[k].time == timenow
      modifies `tempo, `file, `out, `log, `tracksDone, gens, preferred, track
      ensures Handled(lists, k, ok) && log[|log| - 1].event.Off?
      ensures ok ==> Work(track[..]) < old(Work(track[..]))
    {
      SettledIsRendered();
      StillDue(lists, k);
      ok := Handle(k, lists);
    }

    lemma NoMoreStops(lists: Lists, k: nat)
      requires Handled(lists, k, true) && k < track.Length && !(track[k].cmd.StopNote? && track[k].time == timenow)
      ensures Resting(lists)
    {
      PendingHeads(mem, mask, log, track[..], lists);
    }

    lemma SettledIsRendered()
      requires Settled() && 0 < o.ticks
      ensures Rendered() && !TooFar(o, log)(timenow)
    {
      NowFits(o, log);
    }

    /** After a note off the next one of the track at the same time is due. */
    lemma StillDue(lists: Lists, k: nat)
      requires Handled(lists, k, true) && log[|log| - 1].event.Off?
      requires k < track.Length && track[k].cmd.StopNote? && track[k].time == timenow
      ensures Due(lists, k)
    {
      PendingHeads(mem, mask, log, track[..], lists);
      NowFits(o, log);
      StopFollows(TooFar(o, log), strategy1, RestOf(lists, log), log, k);
    }

    /** The event that was sought is due. */
    lemma SoughtIsDue(lists: Lists, k: nat)
      requires Ready(lists) && Rendered() && Resting(lists) && k < track.Length && !track[k].cmd.Done?
      requires k == earliest && Sought(lists, LastTrack(log), timenow) && !TooFar(o, log)(timenow)
      ensures Due(lists, k)
    {
      PendingHeads(mem, mask, log, track[..], lists);
      SoughtFollows(TooFar(o, log), strategy1, RestOf(lists, log), log, k, timenow);
    }

    /** How a pass leaves the merge. */
    ghost predicate After(lists: Lists, r: Outcome)
      reads `earliest, `tempo, `file, `out, `timenow, `tracksDone, `log, track, gens, preferred
    {
      && Written() && Rendered() && r != Finished
      && (r == Going ==> if tracksDone < track.Length then Pausing(lists) else Over(lists))
      && (r != Going ==> Ends(o, strategy1, lists, log, r) && timenow == EndTime(r, log))
      && (r == Stuck ==> Pausing(lists) && Dry() && tracksDone < track.Length)
    }

    /** Every track is done. */
    ghost predicate Over(lists: Lists)
      reads `earliest, `tempo, `file, `out, `timenow, `tracksDone, `log, track, gens, preferred
    {
      Ready(lists) && Rendered() && tracksDone >= track.Length && timenow == EndTime(Finished, log)
    }

    /** The second half of a pass: the event that was sought, and with a note off those of the same track
        and time. */
    method Serve(ghost lists: Lists) returns (r: Outcome)
      requires Ready(lists) && Rendered() && Resting(lists) && (tracksDone < track.Length || log == [])
      requires Sought(lists, LastTrack(log), timenow) && !TooFar(o, log)(timenow)
      modifies `tempo, `file, `out, `log, `tracksDone, gens, preferred, track
      ensures After(lists, r)
      ensures r == Going && tracksDone < track.Length ==> Work(track[..]) < old(Work(track[..]))
      ensures old(Dry() && tracksDone < track.Length) ==>
                r == Stuck && View() == old(View()) && file == old(file) && log == old(log)
                  && track[..] == old(track[..]) && tracksDone == old(tracksDone)
    {
      var k := earliest;
      if track[k].cmd.Done? {
        NowDry(lists);
        r := if tracksDone < track.Length then Stuck else Going;
      } else {
        SoughtIsDue(lists, k);
        var ok;
        if track[k].cmd.StopNote? {
          ok := HandleStops(k, lists);
        } else {
          ok := Handle(k, lists);
        }
        r := if ok then Going else BadFile;
        AfterHandled(lists, k, ok);
      }
    }

    /** One pass of the main loop. When the tracks are dry, this one and all later ones change nothing. */
    method Pass(ghost lists: Lists) returns (r: Outcome)
      requires Pausing(lists) && (tracksDone < track.Length || log == [])
      modifies `earliest, `timenow, `tempo, `file, `out, `log, `tracksDone, gens, preferred, track
      ensures After(lists, r)
      ensures r == Going && tracksDone < track.Length ==> Work(track[..]) < old(Work(track[..]))
      ensures old(Dry() && tracksDone < track.Length) ==>
                && r == Stuck && View() == old(View()) && file == old(file) && log == old(log)
                  && track[..] == old(track[..])
                && earliest == old(earliest) && tracksDone == old(tracksDone)
    {
      ghost var time;
      r, time := Seek(lists);
      if r == Going {
        r := Serve(lists);
      } else {
        TooBigEnds(lists, time);
      }
    }

    lemma AfterHandled(lists: Lists, k: nat, ok: bool)
      requires Handled(lists, k, ok) && Shape() && k == earliest && (ok ==> Resting(lists))
      ensures After(lists, if ok then Going else BadFile)
    {
      SettledIsRendered();
    }

    lemma TooBigEnds(lists: Lists, time: nat)
      requires Ready(lists) && Settled() && Resting(lists) && (tracksDone < track.Length || log == [])
      requires Sought(lists, LastTrack(log), time) && TooFar(o, log)(time)
      ensures Ends(o, strategy1, lists, log, TooBig)
    {
      PendingHeads(mem, mask, log, track[..], lists);
      AllDone(track[..]);
      if Empty(RestOf(lists, log)) {
        NoTempoFits(o);
      }
    }

    /** No event is in reach: the merge is over, or it will never be. */
    lemma NowDry(lists: Lists)
      requires Ready(lists) && Rendered() && earliest < track.Length && track[earliest].cmd.Done?
      requires Sought(lists, LastTrack(log), timenow) && !TooFar(o, log)(timenow)
      ensures Dry() && earliest == LastTrack(log) && timenow == FOREVER && Resting(lists)
      ensures tracksDone < track.Length ==> Ends(o, strategy1, lists, log, Stuck)
    {
      PendingHeads(mem, mask, log, track[..], lists);
      AllDone(track[..]);
    }

    /** The main loop of ProcessMidiFile: going on ends when every track is done. */
    method Passes(ghost lists: Lists) returns (r: Outcome)
      requires Poised(lists) && log == []
      modifies `earliest, `timenow, `tempo, `file, `out, `log, `tracksDone, gens, preferred, track
      ensures After(lists, r) && (r == Going ==> tracksDone >= track.Length)
    {
      SettledIsRendered();
      r := Going;
      var more := true;
      while more
        invariant if more then Pausing(lists) && (tracksDone < track.Length || log == [])
                  else After(lists, r) && (r == Going ==> tracksDone >= track.Length)
        decreases more, Work(track[..])
      {
        r := Pass(lists);
        more := r == Going && tracksDone < track.Length;
      }
    }

    /** The end of the score. */
    method Finish(ghost lists: Lists)
      requires Over(lists)
      modifies `file
      ensures Ends(o, strategy1, lists, log, Finished) && Complete(out + [End]) && file == ScoreOf(out + [End])
    {
      PendingHeads(mem, mask, log, track[..], lists);
      AllDone(track[..]);
      CompleteScore(out);
      ScoreOfAppend(out, End);
      file := file + [0xf0];
    }

    /** The whole conversion: a score of everything the tracks say, or the reason why there is none. */
    method Compile(ghost lists: Lists) returns (r: Outcome)
      requires Poised(lists) && log == []
      modifies `earliest, `timenow, `tempo, `file, `out, `log, `tracksDone, gens, preferred, track
      ensures Ends(o, strategy1, lists, log, r) && Rendered() && timenow == EndTime(r, log)
      ensures r == Finished ==> Complete(out + [End]) && file == ScoreOf(out + [End])
    {
      r := Passes(lists);
      if r == Going {
        Finish(lists);
        r := Finished;
      }
    }
  }

  /** Before the first event of a tune. */
  ghost function Opening(tracks: nat, generators: nat): State
  {
    State(seq(generators, _ => Idle), seq(tracks, _ => 0), 0, 0, [])
  }

  /** The time that has passed when the merge ends: that of the last event, unless it was waiting for ever. */
  function EndTime(r: Outcome, log: seq<Entry>): nat
  {
    if r == Stuck || (r == Finished && log == []) then FOREVER else NowOf(log)
  }

  /** How a conversion ends, as the events of the file decide it, and what its events have made. */
  ghost predicate Explained(mem: Memory, mask: set<int>, o: Options, strategy1: bool, spans: seq<(nat, nat)>,
                            generators: nat, r: Outcome, log: seq<Entry>, s: State)
    requires spans != [] && 0 < generators <= 16 && 0 < o.ticks
  {
    && Ends(o, strategy1, ListsOf(mem, mask, spans), log, r)
    && Since(o, TaleOf(o, Opening(|spans|, generators), log), s) && s.now == EndTime(r, log)
    && WellPlayed(s.out) && forall i :: 0 <= i < |s.out| ==> Sane(s.out[i], generators)
  }

  /** ProcessMidiFile: the file of the score, when there is one. */
  method Convert(mem: Memory, mask: set<int>, o: Options, strategy1: bool, spans: seq<(nat, nat)>, generators: nat)
    returns (r: Outcome, file: seq<Byte>, ghost log: seq<Entry>, ghost s: State)
    requires spans != [] && 0 < generators <= 16 && 0 < o.ticks
    ensures Explained(mem, mask, o, strategy1, spans, generators, r, log, s)
    ensures r == Finished ==> Complete(s.out + [End]) && file == ScoreOf(s.out + [End])
  {
    var tune := new Tune(mem, mask, o, strategy1, spans, generators);
    assert tune.Silence() == Opening(|spans|, generators);
    var ok := tune.Begin(spans);
    r := BadFile;
    if ok {
      r := tune.Compile(ListsOf(mem, mask, spans));
    } else {
      tune.SettledIsRendered();
    }
    file, log, s := tune.file, tune.log, tune.View();
    PlayedWell(o, tune.Silence(), tune.tale, log, s);
  }

  /** The events of the file explain how the conversion ended and what was played. */
  ghost predicate Faithful(mem: Memory, mask: set<int>, o: Options, strategy1: bool, spans: seq<(nat, nat)>,
                           generators: nat, r: Outcome, played: seq<Command>)
    requires spans != [] && 0 < generators <= 16 && 0 < o.ticks
  {
    exists log, s :: Explained(mem, mask, o, strategy1, spans, generators, r, log, s)
                  && played == if r == Finished then s.out + [End] else []
  }

  lemma FaithfulBy(mem: Memory, mask: set<int>, o: Options, strategy1: bool, spans: seq<(nat, nat)>, generators: nat,
                   r: Outcome, log: seq<Entry>, s: State, played: seq<Command>)
    requires spans != [] && 0 < generators <= 16 && 0 < o.ticks
    requires Explained(mem, mask, o, strategy1, spans, generators, r, log, s)
    requires played == if r == Finished then s.out + [End] else []
    ensures Faithful(mem, mask, o, strategy1, spans, generators, r, played)
    ensures forall i :: 0 <= i < |played| - 1 ==> Sane(played[i], generators)
    ensures r == Finished ==> played[..|played| - 1] == s.out && WellPlayed(s.out)
  {
    if r == Finished {
      assert forall i :: 0 <= i < |s.out| ==> played[i] == s.out[i];
    }
  }

  /** The file of a score, played. */
  method PlayFile(file: seq<Byte>, ghost cs: seq<Command>) returns (played: seq<Command>)
    requires Complete(cs) && file == ScoreOf(cs)
    ensures played == cs
  {
    var player := new Player(file);
    assert player.score[0..] == player.score;
    var samples := player.Perform(cs);
    played := player.played;
  }

  /** From the tracks of the file to what the player does. How it ends is decided by the events; when it
      finishes, the player is told exactly what the events, each handled once and in order of time, make of
      the generators. */
  method ConvertAndPlay(mem: Memory, mask: set<int>, o: Options, strategy1: bool, spans: seq<(nat, nat)>,
                        generators: nat)
    returns (r: Outcome, played: seq<Command>)
    requires spans != [] && 0 < generators <= 16 && 0 < o.ticks
    ensures Faithful(mem, mask, o, strategy1, spans, generators, r, played)
    ensures r == Finished ==> Complete(played) && WellPlayed(played[..|played| - 1])
    ensures forall i :: 0 <= i < |played| - 1 ==> Sane(played[i], generators)
  {
    var file;
    ghost var log, s;
    r, file, log, s := Convert(mem, mask, o, strategy1, spans, generators);
    played := [];
    if r == Finished {
      played := PlayFile(file, s.out + [End]);
    }
    FaithfulBy(mem, mask, o, strategy1, spans, generators, r, log, s, played);
  }

  lemma HowItEnds(mem: Memory, mask: set<int>, o: Options, strategy1: bool, spans: seq<(nat, nat)>, generators: nat,
                  r: Outcome, played: seq<Command>) returns (log: seq<Entry>, s: State)
    requires spans != [] && 0 < generators <= 16 && 0 < o.ticks
    requires Faithful(mem, mask, o, strategy1, spans, generators, r, played)
    ensures Ends(o, strategy1, ListsOf(mem, mask, spans), log, r)
    ensures Since(o, TaleOf(o, Opening(|spans|, generators), log), s) && s.now == EndTime(r, log)
    ensures played == if r == Finished then s.out + [End] else []
  {
    log, s :| Explained(mem, mask, o, strategy1, spans, generators, r, log, s)
              && played == if r == Finished then s.out + [End] else [];
  }

  /** There is only one answer for a file: how it ends and what is played. */
  lemma OneAnswer(mem: Memory, mask: set<int>, o: Options, strategy1: bool, spans: seq<(nat, nat)>, generators: nat,
                  r: Outcome, played: seq<Command>, r': Outcome, played': seq<Command>)
    requires spans != [] && 0 < generators <= 16 && 0 < o.ticks
    requires Faithful(mem, mask, o, strategy1, spans, generators, r, played)
    requires Faithful(mem, mask, o, strategy1, spans, generators, r', played')
    ensures r == r' && played == played'
  {
    var log, s := HowItEnds(mem, mask, o, strategy1, spans, generators, r, played);
    var log', s' := HowItEnds(mem, mask, o, strategy1, spans, generators, r', played');
    OneOutcome(o, strategy1, ListsOf(mem, mask, spans), log, r, log', r');
  }

  // ------------------------------------------------------------- the tracks and their lists

  lemma CompleteScore(cs: seq<Command>)
    requires forall c :: c in cs ==> Legal(c) && c != End
    ensures Complete(cs + [End])
  {
    forall i | 0 <= i < |cs| ensures (cs + [End])[i] in cs {
      assert (cs + [End])[i] == cs[i];
    }
  }

  lemma BrokenNext(o: Options, strategy1: bool, lists: Lists, log: seq<Entry>, k: nat)
    requires Scheduled(o, strategy1, lists, log) && k < |lists| && OfTrack(log, k) + [Broken] == lists[k]
    ensures Ends(o, strategy1, lists, log, BadFile)
  {
    assert RestOf(lists, log)[k] == [Broken];
  }

  lemma BrokenAtOnce(o: Options, strategy1: bool, lists: Lists, k: nat)
    requires k < |lists| && lists[k] == [Broken]
    ensures Ends(o, strategy1, lists, [], BadFile)
  {
    BrokenNext(o, strategy1, lists, [], k);
  }

  /** What a track still has to say begins with its pending event. */
  lemma PendingHeads(mem: Memory, mask: set<int>, log: seq<Entry>, ts: seq<Track>, lists: Lists)
    requires |lists| == |ts| && AllWait(ts, 0) && Accounted(mem, mask, log, ts, lists)
    ensures Sound(RestOf(lists, log))
    ensures forall j :: 0 <= j < |ts| ==> if ts[j].cmd.Done? then RestOf(lists, log)[j] == []
                                          else RestOf(lists, log)[j] != [] && RestOf(lists, log)[j][0] == EventOf(ts[j])
    ensures forall j :: 0 <= j < |ts| ==>
              HeadTime(RestOf(lists, log)[j]) ==
                if ts[j].cmd.Done? || FOREVER <= ts[j].time then FOREVER else ts[j].time
  {
    forall j | 0 <= j < |ts| ensures RestOf(lists, log)[j] == Pending(mem, mask, ts[j]) {
      var said, all := OfTrack(log, j), lists[j];
      assert AtTrack(j);
      assert all == said + Pending(mem, mask, ts[j]);
    }
  }

  /** The track that the search finds is the first in turn. */
  lemma NextIsFirst(mem: Memory, mask: set<int>, log: seq<Entry>, ts: seq<Track>, lists: Lists, strategy1: bool,
                    last: nat, k: nat, time: nat)
    requires |lists| == |ts| && AllWait(ts, 0) && Accounted(mem, mask, log, ts, lists) && k < |ts| && time <= FOREVER
    requires if time < FOREVER then !ts[k].cmd.Done? && ts[k].time == time else k == last
    requires forall j :: 0 <= j < |ts| && !ts[j].cmd.Done? ==> time <= ts[j].time
    requires time < FOREVER ==>
               forall j :: 0 <= j < |ts| && !ts[j].cmd.Done? && ts[j].time == time
                           ==> Turn(StartAt(strategy1, last, |ts|), k, |ts|)
                               <= Turn(StartAt(strategy1, last, |ts|), j, |ts|)
    ensures time == Least(RestOf(lists, log)) && First(strategy1, RestOf(lists, log), last, k)
  {
    PendingHeads(mem, mask, log, ts, lists);
    var rest := RestOf(lists, log);
    assert HeadTime(rest[k]) == time;
    assert forall j :: 0 <= j < |rest| ==> time <= HeadTime(rest[j]);
  }

  // ---------------------------------------------------------- what the events have made

  /** The state that a log makes, if it is a log. */
  datatype Tale = Nonsense | Tale(s: State)

  ghost predicate LogOk(log: seq<Entry>, tracks: nat)
  {
    Timed(log, tracks, 0) && OnTime(log)
  }

  ghost function TaleOf(o: Options, s0: State, log: seq<Entry>): Tale
    requires Proper(o, s0) && s0.now == 0
  {
    if LogOk(log, |s0.preferred|) then Tale(Render(o, s0, log)) else Nonsense
  }

  predicate Wanted(log: seq<Entry>) { true }

  /** A teller of tales, described only where it is asked. */
  ghost predicate Tells(tale: seq<Entry> -> Tale, o: Options, s0: State)
  {
    && Proper(o, s0) && s0.now == 0
    && forall log {:trigger Wanted(log)} :: Wanted(log) ==> tale(log) == TaleOf(o, s0, log)
  }

  ghost predicate Since(o: Options, t: Tale, s: State)
    requires 0 < o.ticks
  {
    t.Tale? && t.s.now <= s.now && s == Wait(o, t.s, s.now)
  }

  /** What a delay will have done, from the last event on or after no time at all. */
  lemma TellWait(o: Options, t: Tale, s: State, time: nat) returns (after: State)
    requires 0 < o.ticks && Since(o, t, s) && s.now <= time && (t == Tale(s) || time == s.now)
    ensures after == Wait(o, s, time) && after.now == time && Since(o, t, after)
  {
    after := Wait(o, s, time);
  }

  /** What the entry that is about to be logged will have done. */
  lemma TellMore(o: Options, s0: State, tale: seq<Entry> -> Tale, log: seq<Entry>, s: State, e: Entry)
    returns (after: State)
    requires Tells(tale, o, s0) && Since(o, tale(log), s) && e.track < |s0.preferred| && e.stamp == s.now
    requires e.stamp == Capped(e.event)
    ensures Proper(o, s) && |s.preferred| == |s0.preferred|
    ensures after == Apply(o, s, e.track, e.event) && tale(log + [e]) == Tale(after)
  {
    assert Wanted(log) && Wanted(log + [e]);
    assert (log + [e])[..|log|] == log;
    after := Apply(o, s, e.track, e.event);
  }

  /** What a true tale says of the score. */
  lemma PlayedWell(o: Options, s0: State, tale: seq<Entry> -> Tale, log: seq<Entry>, s: State)
    requires Tells(tale, o, s0) && Since(o, tale(log), s)
    requires s0.out == [] && forall g :: 0 <= g < |s0.gens| ==> s0.gens[g].Idle?
    ensures Since(o, TaleOf(o, s0, log), s) && WellPlayed(s.out)
            && forall i :: 0 <= i < |s.out| ==> Sane(s.out[i], |s0.gens|)
  {
    assert Wanted(log);
    RenderKeeps(o, s0, log);
    WaitKeeps(o, Render(o, s0, log), s.now);
  }

  /** The tracks stand at their next events, none of which is overdue. */
  ghost predicate AllWait(ts: seq<Track>, now: nat)
  {
    forall j :: 0 <= j < |ts| ==> !ts[j].cmd.Unread? && (!ts[j].cmd.Done? ==> now <= ts[j].time)
  }

  lemma WaitsOn(mem: Memory, mask: set<int>, ts: seq<Track>, k: nat, now: nat)
    requires k < |ts| && AllWait(ts, now) && !ts[k].cmd.Done? && Find(mem, mask, ts[k]).Found?
    ensures AllWait(ts[k := Find(mem, mask, ts[k]).t], now)
  {
  }

  /** Marks the tracks whose account is to be looked into. */
  predicate AtTrack(j: int) { true }

  /** Everything each track has to say has been handled or is pending. */
  ghost predicate Accounted(mem: Memory, mask: set<int>, log: seq<Entry>, ts: seq<Track>, lists: Lists)
    requires |lists| == |ts| && forall j :: 0 <= j < |ts| ==> !ts[j].cmd.Unread?
  {
    forall j {:trigger AtTrack(j)} :: AtTrack(j) && 0 <= j < |ts| ==>
      OfTrack(log, j) + Pending(mem, mask, ts[j]) == lists[j]
  }

  lemma Moves(mem: Memory, mask: set<int>, log: seq<Entry>, e: Entry, ts: seq<Track>, lists: Lists)
    requires |lists| == |ts| && forall j :: 0 <= j < |ts| ==> !ts[j].cmd.Unread?
    requires Accounted(mem, mask, log, ts, lists)
    requires e.track < |ts| && !ts[e.track].cmd.Done? && e.event == EventOf(ts[e.track])
    ensures var f := Find(mem, mask, ts[e.track]);
      if f.Found? then Accounted(mem, mask, log + [e], ts[e.track := f.t], lists)
      else OfTrack(log + [e], e.track) + [Broken] == lists[e.track]
  {
    assert AtTrack(e.track);
    var k, f := e.track, Find(mem, mask, ts[e.track]);
    MoveOne(mem, mask, OfTrack(log, k), ts[k], lists[k]);
    OneMore(log, e, k);
    if f.Found? {
      forall j | AtTrack(j) && 0 <= j < |ts|
        ensures OfTrack(log + [e], j) + Pending(mem, mask, ts[k := f.t][j]) == lists[j]
      {
        OneMore(log, e, j);
      }
    }
  }

  lemma OneMore(log: seq<Entry>, e: Entry, j: nat)
    ensures OfTrack(log + [e], j) == if j == e.track then OfTrack(log, j) + [e.event] else OfTrack(log, j)
  {
    assert (log + [e])[..|log|] == log;
  }

  lemma MoveOne(mem: Memory, mask: set<int>, said: seq<Event>, t: Track, all: seq<Event>)
    requires !t.cmd.Unread? && !t.cmd.Done? && said + Pending(mem, mask, t) == all
    ensures var f := Find(mem, mask, t);
      said + [EventOf(t)] + (if f.Found? then Pending(mem, mask, f.t) else [Broken]) == all
  {
    assert said + [EventOf(t)] + Listen(mem, mask, t) == said + ([EventOf(t)] + Listen(mem, mask, t));
  }
}
