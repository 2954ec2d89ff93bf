/**
 The score: a byte stream of commands for the tone generators, as miditones writes it
 (work/midi/hlp/miditonesV1.6.c) and the player reads it back, one burst of commands per
 interrupt (work/midi/midiplayer.cpp).
 */
module Score {
  import opened Words

  datatype Command = Play(gen: nat, note: nat) | Stop(gen: nat) | Delay(ms: nat) | End

  predicate Legal(c: Command)
  {
    match c
    case Play(g, n) => g < 16 && n < 128
    case Stop(g) => g < 16
    case Delay(ms) => ms <= 0x7fff
    case End => true
  }

  function Encode(c: Command): seq<Byte>
    requires Legal(c)
  {
    match c
    case Play(g, n) => [0x90 + g, n]
    case Stop(g) => [0x80 + g]
    case Delay(ms) => [ms / 256, ms % 256]
    case End => [0xf0]
  }

  function ScoreOf(cs: seq<Command>): seq<Byte>
    requires forall c :: c in cs ==> Legal(c)
  {
    if cs == [] then [] else Encode(cs[0]) + ScoreOf(cs[1..])
  }

  lemma {:induction false} ScoreOfAppend(cs: seq<Command>, c: Command)
    requires Legal(c) && forall c :: c in cs ==> Legal(c)
    ensures ScoreOf(cs + [c]) == ScoreOf(cs) + Encode(c)
  {
    if cs == [] {
      assert [c][1..] == [];
      assert ScoreOf([c]) == Encode(c) + ScoreOf([]);
    } else {
      assert (cs + [c])[1..] == cs[1..] + [c];
      ScoreOfAppend(cs[1..], c);
    }
  }

  /** A whole score: legal commands, and End exactly at the end. */
  predicate Complete(cs: seq<Command>)
  {
    && cs != [] && cs[|cs| - 1] == End
    && forall i :: 0 <= i < |cs| ==> Legal(cs[i]) && (cs[i] == End ==> i == |cs| - 1)
  }

  /** The commands of one interrupt: up to the first delay, or the end. */
  function Burst(cs: seq<Command>): nat
    ensures Burst(cs) <= |cs|
  {
    if cs == [] then 0 else if cs[0].Delay? || cs[0].End? then 1 else 1 + Burst(cs[1..])
  }

  /** The pause of a delay, in samples. */
  function Pause(c: Command): nat
  {
    if c.Delay? then 44 * c.ms else 0
  }

  /** Samples between the first interrupt of a score and its last. */
  function Samples(cs: seq<Command>): nat
  {
    if cs == [] then 0 else (if cs[0].Delay? then Pause(cs[0]) + 1 else 0) + Samples(cs[1..])
  }

  lemma {:induction false} SamplesBurst(cs: seq<Command>)
    requires Complete(cs)
    ensures 0 < Burst(cs) && (Burst(cs) < |cs| ==> cs[Burst(cs) - 1].Delay? && Complete(cs[Burst(cs)..]))
    ensures Samples(cs) == if Burst(cs) < |cs| then Pause(cs[Burst(cs) - 1]) + 1 + Samples(cs[Burst(cs)..]) else 0
  {
    if !cs[0].Delay? && !cs[0].End? {
      SamplesBurst(cs[1..]);
      assert cs[1..][Burst(cs[1..])..] == cs[Burst(cs)..];
    } else if cs[0].End? {
      assert cs[1..] == [];
    }
  }

  class Player {
    const score: seq<Byte>
    var at: nat
    var pause: nat
    var running: bool
    var played: seq<Command> // what the generators, the timer and the callback were told

    constructor (score: seq<Byte>)
      ensures this.score == score && at == 0 && pause == 0 && running && played == []
    {
      this.score, at, pause, running, played := score, 0, 0, true, [];
    }

    /** The player stands before the commands cs. */
    ghost predicate Before(cs: seq<Command>)
      reads this
    {
      Complete(cs) && at <= |score| && score[at..] == ScoreOf(cs)
    }

    /** One command of ToneChange's loop: more tells whether another may follow in this burst. */
    method Execute(ghost cs: seq<Command>) returns (more: bool)
      requires running && Before(cs)
      modifies this
      ensures played == old(played) + [cs[0]] && (running <==> cs[0] != End)
      ensures more <==> cs[0].Play? || cs[0].Stop?
      ensures running ==> Before(cs[1..])
      ensures cs[0].Delay? ==> pause == Pause(cs[0])
    {
      Head(cs, at);
      var cmd: int := score[at];
      at := at + 1;
      more := false;
      if cmd >= 0x80 {
        var geno := cmd % 16;
        if cmd / 16 == 8 {
          played := played + [Stop(geno)];
          more := true;
        } else if cmd / 16 == 9 {
          var note := score[at];
          at := at + 1;
          played := played + [Play(geno, note)];
          more := true;
        } else {
          running := false;
          played := played + [End];
        }
      } else {
        var low: int := score[at];
        at := at + 1;
        pause := 256 * cmd + low;
        played := played + [Delay(pause)];
        pause := 44 * pause;
      }
    }

    /** ToneChange: carries out one burst, and is left standing before the rest. */
    method ToneChange(ghost cs: seq<Command>)
      requires running && Before(cs)
      modifies this
      ensures played == old(played) + cs[..Burst(cs)]
      ensures running <==> Burst(cs) < |cs|
      ensures running ==> Before(cs[Burst(cs)..]) && pause == Pause(cs[Burst(cs) - 1])
    {
      ghost var n := 0;
      var more := true;
      while more
        invariant n <= |cs| && played == old(played) + cs[..n]
        invariant if more then running && Before(cs[n..]) && Burst(cs) == n + Burst(cs[n..])
                  else n == Burst(cs) && n > 0 && (running <==> n < |cs|)
                       && (running ==> Before(cs[n..]) && pause == Pause(cs[n - 1]))
        decreases more, |cs| - n
      {
        more := Execute(cs[n..]);
        n := n + 1;
        Next(cs, n);
      }
    }

    lemma Next(cs: seq<Command>, n: nat)
      requires 0 < n <= |cs|
      ensures cs[n - 1..][0] == cs[n - 1] && cs[n - 1..][1..] == cs[n..] && cs[..n] == cs[..n - 1] + [cs[n - 1]]
      ensures n == |cs| ==> Burst(cs[n - 1..]) == 1
    {
      assert cs[n - 1..][1..] == cs[n..];
    }

    /** The first command and its bytes. */
    lemma Head(cs: seq<Command>, at: nat)
      requires Complete(cs) && at <= |score| && score[at..] == ScoreOf(cs)
      ensures at + |Encode(cs[0])| <= |score| && score[at] == Encode(cs[0])[0]
      ensures |Encode(cs[0])| > 1 ==> score[at + 1] == Encode(cs[0])[1]
      ensures cs[0] != End ==> Complete(cs[1..]) && score[at + |Encode(cs[0])|..] == ScoreOf(cs[1..])
    {
      var n := |Encode(cs[0])|;
      assert score[at..][0] == score[at] && (n > 1 ==> score[at..][1] == score[at + 1]);
      assert score[at..][n..] == score[at + n..];
      if cs[0] != End {
        assert cs[1..][|cs| - 2] == End;
      }
    }

    /** nextSample: counts the pause down, and asks for the next burst when it is over. */
    method NextSample(ghost cs: seq<Command>)
      requires running && Before(cs)
      modifies this
      ensures if old(pause) > 0 then
                running && Before(cs) && pause == old(pause) - 1 && played == old(played)
              else
                && played == old(played) + cs[..Burst(cs)] && (running <==> Burst(cs) < |cs|)
                && (running ==> Before(cs[Burst(cs)..]) && pause == Pause(cs[Burst(cs) - 1]))
    {
      if pause > 0 {
        pause := pause - 1;
      } else {
        ToneChange(cs);
      }
    }

    /** The player, with history p0, has done the first n commands of cs in the given number of samples. */
    ghost predicate Along(p0: seq<Command>, cs: seq<Command>, n: nat, samples: nat)
      reads this
    {
      && n <= |cs| && played == p0 + cs[..n]
      && if running then Before(cs[n..]) && samples + pause + 1 + Samples(cs[n..]) == Samples(cs)
         else n == |cs| && samples == Samples(cs)
    }

    /** start: the first interrupt comes at once. */
    method Begin(ghost cs: seq<Command>) returns (ghost n: nat)
      requires running && Before(cs)
      modifies this
      ensures Along(old(played), cs, n, 0)
    {
      SamplesBurst(cs);
      ToneChange(cs);
      n := Burst(cs);
    }

    /** One more sample. */
    method Tick(ghost p0: seq<Command>, ghost cs: seq<Command>, ghost n: nat, ghost samples: nat) returns (ghost m: nat)
      requires running && Along(p0, cs, n, samples)
      modifies this
      ensures n <= m <= |cs| && Along(p0, cs, m, samples + 1)
      ensures n < m || pause < old(pause)
    {
      ghost var todo := cs[n..];
      SamplesBurst(todo);
      m := if pause == 0 then n + Burst(todo) else n;
      assert todo[..m - n] == cs[n..m] && todo[m - n..] == cs[m..] && cs[..m] == cs[..n] + cs[n..m];
      NextSample(todo);
    }

    /** A score is played exactly as it was written, and takes one sample more than each delay asks for. */
    method Perform(ghost cs: seq<Command>) returns (samples: nat)
      requires running && Before(cs)
      modifies this
      ensures !running && played == old(played) + cs && samples == Samples(cs)
    {
      ghost var p0 := played;
      ghost var n := Begin(cs);
      samples := 0;
      while running
        invariant Along(p0, cs, n, samples)
        decreases |cs| - n, pause
      {
        n := Tick(p0, cs, n, samples);
        samples := samples + 1;
      }
    }
  }
}
