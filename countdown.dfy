/** The countdown loop of `ReceitaDeOvo.IniciarTemporizador` as a state machine over
    values. One call of `Step` is one iteration of the `while (tempoRestante > 0)` loop,
    followed by the re-evaluation of its guard; `Run` feeds a script of polled keys, one
    entry per iteration (`None` when `Console.KeyAvailable` is false). */
module Countdown {
  import opened Wrappers
  import opened ConsoleKeys
  import opened ClockFormat

  /** The spinner characters `{ '|', '/', '-', '\\' }`. */
  const Glyphs: string := ['|', '/', '-', '\\']

  /** Where control is: inside the loop, after the early `return` of a cancel key,
      or past the loop at the completion message. */
  datatype Outcome = Running | Cancelled | Finished

  /** The locals `tempoRestante`, `s` and `pausado`, and the outcome. */
  datatype State = State(remaining: nat, spinner: nat, paused: bool, outcome: Outcome)

  /** What one running iteration draws: the spinner character and the remaining
      seconds, shown as `Clock` gives them. */
  datatype Frame = Frame(glyph: char, seconds: nat) {
    /** The `MM:SS` text of the frame. */
    function Clock(): (c: string)
      ensures ParseTime(c) == Some(seconds)
    {
      FormatTimeRoundTrip(seconds);
      FormatTime(seconds)
    }
  }

  /** The states the loop can be in: the spinner indexes the glyphs, the loop only
      continues while time remains, a cancel happens only inside the loop, and the loop
      is left normally only when the time is used up. */
  predicate Valid(st: State) {
    && st.spinner < |Glyphs|
    && (st.outcome == Running ==> st.remaining > 0)
    && (st.outcome == Cancelled ==> st.remaining > 0)
    && (st.outcome == Finished ==> st.remaining == 0)
  }

  /** The state on entering the method: the loop is skipped when the duration is 0. */
  function Start(duration: nat): (st: State)
    ensures Valid(st) && st.remaining == duration && st.spinner == 0 && !st.paused
    ensures st.outcome == (if duration > 0 then Running else Finished)
  {
    State(duration, 0, false, if duration > 0 then Running else Finished)
  }

  /** The key handling at the head of an iteration (at most one key). */
  function HandleKey(st: State, key: Option<Key>): (h: State) {
    match key
    case None => st
    case Some(k) =>
      if k == P then st.(paused := true)
      else if k == R && st.paused then st.(paused := false)
      else if IsCancel(k) then st.(outcome := Cancelled)
      else st
  }

  /** Whether the iteration, after its key handling, reaches the running branch. */
  predicate Ticks(st: State, key: Option<Key>) {
    var h := HandleKey(st, key);
    h.outcome != Cancelled && !h.paused
  }

  /** A key that a paused timer ignores: no key at all, `P` again, or any key other
      than `R`, `S` and `Escape`. */
  predicate IdleWhilePaused(key: Option<Key>) {
    key.None? || !(key.value == R || IsCancel(key.value))
  }

  /** One iteration of the loop followed by its guard. */
  function Step(st: State, key: Option<Key>): (r: State)
    requires Valid(st) && st.outcome == Running
    ensures Valid(r)
  {
    var h := HandleKey(st, key);
    if h.outcome == Cancelled || h.paused then h
    else
      var left := h.remaining - 1;
      h.(remaining := left, spinner := (h.spinner + 1) % |Glyphs|,
         outcome := if left > 0 then Running else Finished)
  }

  /** What the iteration draws, if it reaches the running branch. */
  function Shown(st: State, key: Option<Key>): (f: Option<Frame>)
    requires Valid(st)
    ensures f.Some? <==> Ticks(st, key)
  {
    if Ticks(st, key) then Some(Frame(Glyphs[st.spinner], st.remaining)) else None
  }

  /** The iterations driven by a key script: the run ends when the loop is left or the
      script is used up. */
  function Run(st: State, keys: seq<Option<Key>>): (r: State)
    requires Valid(st)
    ensures Valid(r)
    ensures r.remaining <= st.remaining
    ensures st.outcome != Running ==> r == st
    decreases |keys|
  {
    if st.outcome != Running || keys == [] then st else Run(Step(st, keys[0]), keys[1..])
  }

  /** The frames drawn, in order, during `Run(st, keys)`. */
  function Frames(st: State, keys: seq<Option<Key>>): (fs: seq<Frame>)
    requires Valid(st)
    decreases |keys|
  {
    if st.outcome != Running || keys == [] then []
    else
      var f := Shown(st, keys[0]);
      (if f.Some? then [f.value] else []) + Frames(Step(st, keys[0]), keys[1..])
  }

  /** A script of `n` polls that find no key. */
  function Idle(n: nat): (keys: seq<Option<Key>>)
    ensures |keys| == n
    ensures forall i :: 0 <= i < n ==> keys[i] == None
  {
    if n == 0 then [] else [None] + Idle(n - 1)
  }

  function Min(a: nat, b: nat): (m: nat) {
    if a < b then a else b
  }

  /** The spinner index after `k` ticks from index `s`, each tick doing
      `s = (s + 1) % spinner.Length`. */
  function Cycle(s: nat, k: nat): (r: nat)
    requires s < |Glyphs|
    ensures r < |Glyphs|
    decreases k
  {
    if k == 0 then s else Cycle((s + 1) % |Glyphs|, k - 1)
  }

  /** `k` ticks move the spinner `k` places round its four glyphs. */
  lemma {:induction false} CycleIsModulo(s: nat, k: nat)
    requires s < |Glyphs|
    ensures Cycle(s, k) == (s + k) % 4
    decreases k
  {
    if k > 0 {
      CycleIsModulo((s + 1) % 4, k - 1);
      var q := (s + 1) / 4;
      assert s + 1 == 4 * q + (s + 1) % 4;
      assert s + k == 4 * q + ((s + 1) % 4 + (k - 1));
    }
  }

  // ---------------------------------------------------------------------------
  // One iteration

  /** An iteration that reaches the running branch takes exactly one second off and
      advances the spinner by one; any other iteration leaves both alone. */
  lemma StepTickOrIdle(st: State, key: Option<Key>)
    requires Valid(st) && st.outcome == Running
    ensures var r := Step(st, key);
      if Ticks(st, key) then
        r.remaining == st.remaining - 1 && r.spinner == (st.spinner + 1) % 4 && !r.paused
        && r.outcome == (if st.remaining > 1 then Running else Finished)
      else
        r.remaining == st.remaining && r.spinner == st.spinner
  {
  }

  /** While paused, a poll that finds no key, `P`, or an unrecognised key changes nothing. */
  lemma PausedIdles(st: State, key: Option<Key>)
    requires Valid(st) && st.outcome == Running && st.paused
    requires IdleWhilePaused(key)
    ensures Step(st, key) == st && Shown(st, key) == None
  {
  }

  /** `R` while running is ignored: the iteration is the same as one without a key. */
  lemma ResumeWhileRunningIgnored(st: State)
    requires Valid(st) && st.outcome == Running && !st.paused
    ensures Step(st, Some(R)) == Step(st, None)
    ensures Shown(st, Some(R)) == Shown(st, None)
  {
  }

  /** An iteration draws a frame exactly when it takes a second off, and the frame shows
      the current glyph and the time before that decrement. */
  lemma TickShowsTimeBefore(st: State, key: Option<Key>)
    requires Valid(st) && st.outcome == Running
    ensures Shown(st, key).Some? <==> Step(st, key).remaining < st.remaining
    ensures Shown(st, key).Some? ==>
      Shown(st, key).value == Frame(Glyphs[st.spinner], Step(st, key).remaining + 1)
  {
  }

  /** Only `S` and `Escape` cancel. */
  lemma CancelsExactlyOnCancelKey(st: State, key: Option<Key>)
    requires Valid(st) && st.outcome == Running
    ensures Step(st, key).outcome == Cancelled <==> key.Some? && IsCancel(key.value)
  {
  }

  /** A key the loop does not handle (`Enter` or any other) is the same as no key:
      it neither wakes a paused timer nor stops a running one's tick. */
  lemma UnhandledKeyIgnored(st: State, k: Key)
    requires Valid(st) && st.outcome == Running
    requires k == Enter || k.Other?
    ensures Step(st, Some(k)) == (if st.paused then st else Step(st, None))
    ensures Shown(st, Some(k)) == Shown(st, None)
  {
  }

  /** `P` always pauses, and the iteration that reads it does not tick. */
  lemma PauseFreezes(st: State)
    requires Valid(st) && st.outcome == Running
    ensures Step(st, Some(P)) == st.(paused := true)
    ensures Shown(st, Some(P)) == None
  {
  }

  /** `R` while paused resumes and ticks in the same iteration. */
  lemma ResumeTicks(st: State)
    requires Valid(st) && st.outcome == Running && st.paused
    ensures Step(st, Some(R)) == Step(st.(paused := false), None)
    ensures Shown(st, Some(R)) == Some(Frame(Glyphs[st.spinner], st.remaining))
  {
  }

  /** `S` or `Escape` cancels, paused or not, whatever the remaining time, without
      ticking. */
  lemma CancelStops(st: State, k: Key)
    requires Valid(st) && st.outcome == Running && IsCancel(k)
    ensures Step(st, Some(k)) == st.(outcome := Cancelled)
    ensures Shown(st, Some(k)) == None
  {
  }

  // ---------------------------------------------------------------------------
  // Whole runs

  /** Running a script in two parts is running it at once. */
  lemma {:induction false} RunAppend(st: State, a: seq<Option<Key>>, b: seq<Option<Key>>)
    requires Valid(st)
    ensures Run(st, a + b) == Run(Run(st, a), b)
    ensures Frames(st, a + b) == Frames(st, a) + Frames(Run(st, a), b)
    decreases |a|
  {
    if st.outcome != Running {
    } else if a == [] {
      assert a + b == b;
    } else {
      assert (a + b)[0] == a[0] && (a + b)[1..] == a[1..] + b;
      RunAppend(Step(st, a[0]), a[1..], b);
    }
  }

  /** Every frame drawn takes exactly one second off and advances the spinner once:
      nothing is skipped and nothing is counted twice. */
  lemma {:induction false} RunAccounts(st: State, keys: seq<Option<Key>>)
    requires Valid(st)
    ensures Run(st, keys).remaining + |Frames(st, keys)| == st.remaining
    ensures Run(st, keys).spinner == Cycle(st.spinner, |Frames(st, keys)|)
    decreases |keys|
  {
    if st.outcome != Running || keys == [] {
    } else {
      var next := Step(st, keys[0]);
      StepTickOrIdle(st, keys[0]);
      RunAccounts(next, keys[1..]);
      var k := |Frames(next, keys[1..])|;
      if Ticks(st, keys[0]) {
        assert |Frames(st, keys)| == k + 1;
      } else {
        assert |Frames(st, keys)| == k;
      }
    }
  }

  /** Whatever keys are read, the frames count down one second at a time from the time
      that remained, each drawn with the glyph one place on from the previous one. */
  lemma {:induction false} FramesCountDown(st: State, keys: seq<Option<Key>>, i: nat)
    requires Valid(st) && i < |Frames(st, keys)|
    ensures i < st.remaining
    ensures Frames(st, keys)[i] == Frame(Glyphs[Cycle(st.spinner, i)], st.remaining - i)
    decreases |keys|
  {
    RunAccounts(st, keys);
    var next := Step(st, keys[0]);
    StepTickOrIdle(st, keys[0]);
    if Ticks(st, keys[0]) {
      if i > 0 {
        FramesCountDown(next, keys[1..], i - 1);
        assert Frames(st, keys)[i] == Frames(next, keys[1..])[i - 1];
      }
    } else {
      FramesCountDown(next, keys[1..], i);
      assert Frames(st, keys) == Frames(next, keys[1..]);
    }
  }

  /** A script with no `S` or `Escape` in it never ends cancelled. */
  lemma {:induction false} CancelNeedsCancelKey(st: State, keys: seq<Option<Key>>)
    requires Valid(st) && st.outcome != Cancelled
    requires forall i :: 0 <= i < |keys| && keys[i].Some? ==> !IsCancel(keys[i].value)
    ensures Run(st, keys).outcome != Cancelled
    decreases |keys|
  {
    if st.outcome == Running && keys != [] {
      assert keys[0].Some? ==> !IsCancel(keys[0].value);
      CancelNeedsCancelKey(Step(st, keys[0]), keys[1..]);
    }
  }

  /** A run ends at the completion message exactly when it has drawn one frame per
      second of the time that remained. */
  lemma FinishedIffAllTicked(st: State, keys: seq<Option<Key>>)
    requires Valid(st) && st.outcome == Running
    ensures Run(st, keys).outcome == Finished <==> |Frames(st, keys)| == st.remaining
  {
    RunAccounts(st, keys);
  }

  /** The first poll of an idle script finds no key and ticks. */
  lemma IdleUnfold(st: State, n: nat)
    requires Valid(st) && st.outcome == Running && !st.paused && n > 0
    ensures Run(st, Idle(n)) == Run(Step(st, None), Idle(n - 1))
    ensures Frames(st, Idle(n))
      == [Frame(Glyphs[st.spinner], st.remaining)] + Frames(Step(st, None), Idle(n - 1))
  {
    var keys := Idle(n);
    assert keys[0] == None && keys[1..] == Idle(n - 1);
  }

  /** With no key pressed, a running timer loses one second per iteration, stays
      unpaused, and leaves the loop exactly when no time remains. */
  lemma {:induction false} IdleProgress(st: State, n: nat)
    requires Valid(st) && st.outcome == Running && !st.paused
    ensures var r := Run(st, Idle(n));
      && !r.paused
      && r.remaining == (if n < st.remaining then st.remaining - n else 0)
      && r.outcome == (if n < st.remaining then Running else Finished)
    decreases n
  {
    if n > 0 {
      IdleUnfold(st, n);
      var next := Step(st, None);
      assert next.remaining == st.remaining - 1 && !next.paused;
      if st.remaining > 1 {
        IdleProgress(next, n - 1);
      }
    }
  }

  /** With no key pressed, a running timer counts down one second per iteration and
      finishes after exactly as many iterations as seconds remained, the spinner having
      advanced once per second. */
  lemma RunIdle(st: State, n: nat)
    requires Valid(st) && st.outcome == Running && !st.paused
    ensures var r := Run(st, Idle(n));
      if n < st.remaining then
        r == st.(remaining := st.remaining - n, spinner := Cycle(st.spinner, n))
      else
        r == State(0, Cycle(st.spinner, st.remaining), false, Finished)
    ensures |Frames(st, Idle(n))| == Min(n, st.remaining)
  {
    var r, k := Run(st, Idle(n)), |Frames(st, Idle(n))|;
    IdleProgress(st, n);
    RunAccounts(st, Idle(n));
    assert k == Min(n, st.remaining);
  }

  /** With no key pressed, the `i`-th frame drawn shows `remaining - i` seconds and the
      spinner advanced `i` times: the four glyphs in turn. */
  lemma {:induction false} IdleFrames(st: State, n: nat, i: nat)
    requires Valid(st) && st.outcome == Running && !st.paused
    requires i < n && i < st.remaining
    ensures i < |Frames(st, Idle(n))|
    ensures Frames(st, Idle(n))[i] == Frame(Glyphs[Cycle(st.spinner, i)], st.remaining - i)
    decreases n
  {
    RunIdle(st, n);
    IdleUnfold(st, n);
    if i > 0 {
      var next := Step(st, None);
      assert next.remaining == st.remaining - 1 && next.spinner == (st.spinner + 1) % |Glyphs|;
      IdleFrames(next, n - 1, i - 1);
      assert Frames(st, Idle(n))[i] == Frames(next, Idle(n - 1))[i - 1];
      assert Cycle(st.spinner, i) == Cycle(next.spinner, i - 1);
    }
  }

  /** With no key pressed, a countdown of `duration` seconds finishes after exactly
      `duration` iterations, having drawn `duration` frames showing `duration`,
      `duration - 1`, ..., 1 seconds. A duration of 0 finishes without entering the
      loop. */
  lemma FullCountdown(duration: nat)
    ensures Run(Start(duration), Idle(duration)).outcome == Finished
    ensures Run(Start(duration), Idle(duration)).remaining == 0
    ensures |Frames(Start(duration), Idle(duration))| == duration
    ensures forall i :: 0 <= i < duration ==>
      Frames(Start(duration), Idle(duration))[i].seconds == duration - i
  {
    var st := Start(duration);
    if duration > 0 {
      RunIdle(st, duration);
      forall i | 0 <= i < duration
        ensures Frames(st, Idle(duration))[i].seconds == duration - i
      {
        IdleFrames(st, duration, i);
      }
    }
  }

  /** With no key pressed, a countdown of `duration` seconds has not finished after
      fewer than `duration` iterations. */
  lemma NotFinishedEarly(duration: nat, n: nat)
    requires n < duration
    ensures Run(Start(duration), Idle(n)).outcome == Running
    ensures Run(Start(duration), Idle(n)).remaining == duration - n
  {
    RunIdle(Start(duration), n);
  }

  /** The spinner glyphs of the first six ticks of a countdown of at least six
      seconds: indices 0, 1, 2, 3, 0, 1. */
  lemma SpinnerCycle(duration: nat)
    requires duration >= 6
    ensures var fs := Frames(Start(duration), Idle(6));
      |fs| == 6 && fs[0].glyph == '|' && fs[1].glyph == '/' && fs[2].glyph == '-'
      && fs[3].glyph == '\\' && fs[4].glyph == '|' && fs[5].glyph == '/'
  {
    var st := Start(duration);
    IdleFrames(st, 6, 0);
    IdleFrames(st, 6, 1);
    IdleFrames(st, 6, 2);
    IdleFrames(st, 6, 3);
    IdleFrames(st, 6, 4);
    IdleFrames(st, 6, 5);
    RunIdle(st, 6);
  }

  /** A paused timer ignores a whole script of idle polls. */
  lemma {:induction false} PausedRunIdles(st: State, keys: seq<Option<Key>>)
    requires Valid(st) && st.outcome == Running && st.paused
    requires forall i :: 0 <= i < |keys| ==> IdleWhilePaused(keys[i])
    ensures Run(st, keys) == st && Frames(st, keys) == []
    decreases |keys|
  {
    if keys != [] {
      PausedIdles(st, keys[0]);
      PausedRunIdles(st, keys[1..]);
    }
  }

  /** A one-key script runs one iteration. */
  lemma RunOne(st: State, key: Option<Key>)
    requires Valid(st) && st.outcome == Running
    ensures Run(st, [key]) == Step(st, key)
    ensures Frames(st, [key]) == if Ticks(st, key) then [Shown(st, key).value] else []
  {
    var keys := [key];
    assert keys[0] == key && keys[1..] == [];
  }

  /** `P` followed by idle polls leaves the timer paused where it was. */
  lemma PauseThenIdle(st: State, idle: seq<Option<Key>>)
    requires Valid(st) && st.outcome == Running
    requires forall i :: 0 <= i < |idle| ==> IdleWhilePaused(idle[i])
    ensures Run(st, [Some(P)] + idle) == st.(paused := true)
    ensures Frames(st, [Some(P)] + idle) == []
  {
    var p := st.(paused := true);
    PauseFreezes(st);
    RunOne(st, Some(P));
    RunAppend(st, [Some(P)], idle);
    PausedRunIdles(p, idle);
  }

  /** Pausing at `r` seconds, idling for any number of polls, then resuming is the same
      as a single uninterrupted iteration: the countdown continues from exactly `r`,
      the resuming iteration drawing `r` and taking it to `r - 1`. */
  lemma PauseResume(st: State, idle: seq<Option<Key>>)
    requires Valid(st) && st.outcome == Running && !st.paused
    requires forall i :: 0 <= i < |idle| ==> IdleWhilePaused(idle[i])
    ensures Run(st, [Some(P)] + idle + [Some(R)]) == Step(st, None)
    ensures Frames(st, [Some(P)] + idle + [Some(R)]) == Frames(st, [None])
    ensures Frames(st, [None]) == [Frame(Glyphs[st.spinner], st.remaining)]
  {
    var p := st.(paused := true);
    PauseThenIdle(st, idle);
    RunAppend(st, [Some(P)] + idle, [Some(R)]);
    ResumeTicks(p);
    assert p.(paused := false) == st;
    RunOne(p, Some(R));
    RunOne(st, None);
  }

  /** Once the loop is left, further keys change nothing: a cancel can never be
      followed by the completion message, nor a completion by a cancel. */
  lemma TerminalIsFinal(st: State, keys: seq<Option<Key>>)
    requires Valid(st) && st.outcome != Running
    ensures Run(st, keys) == st && Frames(st, keys) == []
  {
  }

  /** A script whose first key cancels ends the run there. */
  lemma CancelFirst(st: State, keys: seq<Option<Key>>)
    requires Valid(st) && st.outcome == Running
    requires keys != [] && keys[0].Some? && IsCancel(keys[0].value)
    ensures Run(st, keys) == st.(outcome := Cancelled)
    ensures Frames(st, keys) == []
  {
    CancelStops(st, keys[0].value);
  }

  /** A cancel key read while the loop is still running ends the run there, as
      cancelled, with the remaining time it had and no further frame, whatever follows
      in the script. */
  lemma CancelPreempts(st: State, before: seq<Option<Key>>, k: Key, after: seq<Option<Key>>)
    requires Valid(st) && IsCancel(k)
    requires Run(st, before).outcome == Running
    ensures Run(st, before + [Some(k)] + after) == Run(st, before).(outcome := Cancelled)
    ensures Frames(st, before + [Some(k)] + after) == Frames(st, before)
  {
    var rest := [Some(k)] + after;
    assert before + [Some(k)] + after == before + rest;
    RunAppend(st, before, rest);
    CancelFirst(Run(st, before), rest);
  }
}
