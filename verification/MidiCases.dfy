/**
 What the merge does with particular files: one on which it goes round without end, files without any
 event, and files on which it can be told beforehand how it ends.
 */
module MergeCases {
  import opened Words
  import opened Score
  import opened MidiTrack
  import opened Mixer
  import opened Schedule
  import opened Merge

  lemma ListsTidy(mem: Memory, mask: set<int>, spans: seq<(nat, nat)>)
    ensures forall j :: 0 <= j < |spans| ==> Tidy(ListsOf(mem, mask, spans)[j])
  {
    forall j | 0 <= j < |spans| ensures Tidy(ListsOf(mem, mask, spans)[j]) {
      ListenTidy(mem, mask, RawTrack(spans[j]));
    }
  }

  // -------------------------------------------------------------- a file without an end

  const GAP := 0x0fff_ffff

  /** n events that matter to nobody and a note, as far apart as the format allows. */
  function Waits(n: nat): seq<Item>
  {
    if n == 0 then [Item(GAP, Channel(9, 0, 60, 64), false)]
    else [Item(GAP, Channel(11, 0, 0, 0), false)] + Waits(n - 1)
  }

  lemma {:induction false} WaitsHeard(n: nat, last: Byte, time: nat)
    ensures AllWritable(Waits(n), last)
    ensures Heard(Waits(n), last, {0}, time) == [On(time + (n + 1) * GAP, 60)]
  {
    if n > 0 {
      assert Waits(n)[1..] == Waits(n - 1);
      WaitsHeard(n - 1, Status(Channel(11, 0, 0, 0)), time + GAP);
    } else {
      assert Waits(0)[1..] == [];
    }
  }

  function WaitBytes(n: nat): seq<Byte>
  {
    WaitsHeard(n, 0, 0);
    TrackBytes(Waits(n), 0)
  }

  function FileOf(bytes: seq<Byte>): Memory
  {
    (p: nat) => if p < |bytes| then bytes[p] else 0
  }

  /** An empty track, and one that fills the file. */
  function TwoSpans(bytes: seq<Byte>): (spans: seq<(nat, nat)>)
    ensures |spans| == 2
  {
    [(0, 0), (0, |bytes|)]
  }

  lemma WaitListens(n: nat, mem: Memory, t: Track)
    requires AllWritable(Waits(n), 0) && Holds(mem, 0, TrackBytes(Waits(n), 0))
    requires t == RawTrack((0, |TrackBytes(Waits(n), 0)|))
    ensures Listen(mem, {0}, t) == [On((n + 1) * GAP, 60)]
  {
    WaitsHeard(n, 0, 0);
    TrackReadsBack(mem, {0}, t, Waits(n));
  }

  lemma WaitLists(n: nat, bytes: seq<Byte>)
    requires bytes == WaitBytes(n)
    ensures ListsOf(FileOf(bytes), {0}, TwoSpans(bytes)) == [[], [On((n + 1) * GAP, 60)]]
  {
    WaitsHeard(n, 0, 0);
    WaitListens(n, FileOf(bytes), RawTrack((0, |bytes|)));
    WaitListsAre(FileOf(bytes), |bytes|, [On((n + 1) * GAP, 60)]);
  }

  lemma WaitListsAre(mem: Memory, end: nat, heard: seq<Event>)
    requires Listen(mem, {0}, RawTrack((0, end))) == heard
    ensures ListsOf(mem, {0}, [(0, 0), (0, end)]) == [[], heard]
  {
  }

  /** Nothing in the first track, and nothing before FOREVER in the others. */
  lemma StuckFile(mem: Memory, mask: set<int>, o: Options, strategy1: bool, spans: seq<(nat, nat)>, generators: nat,
                  r: Outcome, played: seq<Command>)
    requires |spans| > 1 && 0 < generators <= 16 && 0 < o.ticks
    requires Faithful(mem, mask, o, strategy1, spans, generators, r, played)
    requires var lists := ListsOf(mem, mask, spans);
      && lists[0] == [] && lists[1] != []
      && forall j :: 0 <= j < |lists| && lists[j] != [] ==> FOREVER <= TimeOf(lists[j][0])
    ensures r == Stuck && played == []
  {
    var log, s := HowItEnds(mem, mask, o, strategy1, spans, generators, r, played);
    StuckAtOnce(o, strategy1, ListsOf(mem, mask, spans), log, r);
  }

  /** A note after nine of the longest waits or more, beside an empty track: whatever the options, the merge
      goes round without end. */
  lemma LateIsStuck(n: nat, bytes: seq<Byte>, o: Options, strategy1: bool, generators: nat,
                    r: Outcome, played: seq<Command>)
    requires 8 <= n && bytes == WaitBytes(n) && 0 < generators <= 16 && 0 < o.ticks
    requires Faithful(FileOf(bytes), {0}, o, strategy1, TwoSpans(bytes), generators, r, played)
    ensures r == Stuck && played == []
  {
    WaitLists(n, bytes);
    StuckFile(FileOf(bytes), {0}, o, strategy1, TwoSpans(bytes), generators, r, played);
  }

  method ConvertLate(o: Options, strategy1: bool, generators: nat) returns (r: Outcome)
    requires 0 < generators <= 16 && 0 < o.ticks
    ensures r == Stuck
  {
    var n := 8;
    var bytes, played := WaitBytes(n), [];
    r, played := ConvertAndPlay(FileOf(bytes), {0}, o, strategy1, TwoSpans(bytes), generators);
    LateIsStuck(n, bytes, o, strategy1, generators, r, played);
  }

  // ------------------------------------------------------------------- files without events

  lemma NothingButTime(o: Options, tracks: nat, generators: nat, s: State)
    requires 0 < generators <= 16 && 0 < o.ticks && s.now == FOREVER
    requires Since(o, TaleOf(o, Opening(tracks, generators), []), s)
    ensures s.out == [Delay(0)]
  {
    NoTempoNoDelay(o, FOREVER);
  }

  /** Tracks without a byte make a score of one delay of zero milliseconds. */
  lemma SilentTune(mem: Memory, mask: set<int>, o: Options, strategy1: bool, spans: seq<(nat, nat)>, generators: nat,
                   r: Outcome, played: seq<Command>)
    requires spans != [] && 0 < generators <= 16 && 0 < o.ticks
             && forall j :: 0 <= j < |spans| ==> spans[j].1 <= spans[j].0
    requires Faithful(mem, mask, o, strategy1, spans, generators, r, played)
    ensures r == Finished && played == [Delay(0), End]
  {
    var log, s := HowItEnds(mem, mask, o, strategy1, spans, generators, r, played);
    FinishedAtOnce(o, strategy1, ListsOf(mem, mask, spans), log, r);
    NothingButTime(o, |spans|, generators, s);
  }

  // --------------------------------------------------------------- what can be told beforehand

  /** Without a format error, a gap that is too long, and an event at FOREVER or later, every file is converted. */
  lemma GoodFile(mem: Memory, mask: set<int>, o: Options, strategy1: bool, spans: seq<(nat, nat)>, generators: nat,
                 r: Outcome, played: seq<Command>)
    requires spans != [] && 0 < generators <= 16 && 0 < o.ticks
    requires Faithful(mem, mask, o, strategy1, spans, generators, r, played)
    requires var lists := ListsOf(mem, mask, spans);
      ShortGaps(o, lists) && forall j :: 0 <= j < |lists| ==> Broken !in lists[j] && !LateIn(lists[j])
    ensures r == Finished
  {
    var log, s := HowItEnds(mem, mask, o, strategy1, spans, generators, r, played);
    var lists := ListsOf(mem, mask, spans);
    ListsTidy(mem, mask, spans);
    NeverTooBig(o, strategy1, lists, log, r);
    NeverStuck(o, strategy1, lists, log, r);
    BrokenNeverFinished(o, strategy1, lists, log, r);
  }
}
