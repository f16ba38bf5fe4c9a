/** `ReceitaDeOvo.IniciarTemporizador` as it is written: locals updated in place by a
    loop. The locals live in the fields of a `Timer` object; each method is proved against
    the state machine of module `Countdown`. */
module CountdownLoop {
  import opened Wrappers
  import opened ConsoleKeys
  import opened Countdown

  class Timer {
    /** `tempoRestante` */
    var remaining: nat
    /** `s`, the index into the spinner characters */
    var spinner: nat
    /** `pausado` */
    var paused: bool
    /** where control is: in the loop, returned early, or past the loop */
    var outcome: Outcome

    function State(): Countdown.State
      reads this
    {
      Countdown.State(remaining, spinner, paused, outcome)
    }

    ghost predicate Valid()
      reads this
    {
      Countdown.Valid(State())
    }

    /** The initialisation of the locals and the first test of the loop guard. */
    constructor (duration: nat)
      ensures Valid() && State() == Start(duration)
    {
      remaining := duration;
      spinner := 0;
      paused := false;
      outcome := if duration > 0 then Running else Finished;
    }

    /** One iteration of the loop: at most one key, then a tick or an idle wait, then the
        loop guard. Returns what the iteration draws. */
    method Step(key: Option<Key>) returns (frame: Option<Frame>)
      requires Valid() && outcome == Running
      modifies this
      ensures Valid()
      ensures State() == Countdown.Step(old(State()), key)
      ensures frame == Shown(old(State()), key)
    {
      if key.Some? {
        var k := key.value;
        if k == P {
          paused := true;
        } else if k == R && paused {
          paused := false;
        } else if k == S || k == Escape {
          outcome := Cancelled;
          return None;
        }
      }
      if !paused {
        frame := Some(Frame(Glyphs[spinner], remaining));
        remaining := remaining - 1;
        spinner := (spinner + 1) % |Glyphs|;
        if remaining == 0 {
          outcome := Finished;
        }
      } else {
        frame := None;
      }
    }

    /** Iterates while the loop goes on and the script has polls left, one poll per
        iteration. Returns the frames drawn. */
    method Run(keys: seq<Option<Key>>) returns (frames: seq<Frame>)
      requires Valid()
      modifies this
      ensures Valid()
      ensures State() == Countdown.Run(old(State()), keys)
      ensures frames == Countdown.Frames(old(State()), keys)
    {
      frames := [];
      var i := 0;
      while i < |keys| && outcome == Running
        invariant 0 <= i <= |keys|
        invariant Valid()
        invariant Countdown.Run(State(), keys[i..]) == Countdown.Run(old(State()), keys)
        invariant frames + Countdown.Frames(State(), keys[i..]) == Countdown.Frames(old(State()), keys)
        decreases |keys| - i
      {
        assert keys[i..][0] == keys[i] && keys[i..][1..] == keys[i + 1..];
        var f := Step(keys[i]);
        frames := frames + (if f.Some? then [f.value] else []);
        i := i + 1;
      }
    }
  }

  /** The whole timer method: a countdown of `duration` seconds driven by a script of
      polled keys. Reports how it ended and the frames it drew. */
  method StartTimer(duration: nat, keys: seq<Option<Key>>) returns (outcome: Outcome, frames: seq<Frame>)
    ensures outcome == Countdown.Run(Start(duration), keys).outcome
    ensures frames == Countdown.Frames(Start(duration), keys)
    ensures outcome == Cancelled ==> |frames| < duration
    ensures outcome == Finished <==> |frames| == duration
  {
    var timer := new Timer(duration);
    frames := timer.Run(keys);
    outcome := timer.outcome;
    RunAccounts(Start(duration), keys);
  }
}
