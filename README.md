# Egg cooking guide: countdown timer and recipe catalogue

A Dafny model of the core of GuiaOvos, a terminal guide for cooking eggs (`main.cs`). It
covers the following parts:

- **The countdown timer** of `ReceitaDeOvo.IniciarTemporizador`. This is a loop over the
  remaining seconds (`tempoRestante`), a spinner index (`s`) and a pause flag (`pausado`).
  Each iteration takes at most one key (`P` pauses, `R` resumes while paused, `S` or
  `Escape` cancels), then either ticks or idles:
  - when it ticks, it draws the spinner and the `MM:SS` time, takes one second off and
    advances the spinner;
  - when paused, it idles.

  The loop ends in one of two ways: a cancel key returns early, or the time runs out and
  the completion message is shown.
- **The `MM:SS` format** (`{t / 60:D2}:{t % 60:D2}`), used both in the timer and on the
  recipe screen.
- **The recipe catalogue.** The class hierarchy (`OvoFrito`, `OvoMexido`, `OvoCozido` and
  the `OvoCozidoBase` variants `OvoMole`, `OvoMedio`, `OvoDuro`) is flattened into a
  datatype of recipe kinds. Each kind has its constant properties (`Nome`, `OndeFazer`,
  `Temperatura`, `TempoPreparo`, `Dicas`).
- **The two menu lookup tables** (`op switch`), and the Enter-only confirmation that
  starts the timer.

Modules:

- `Wrappers`: `Option`.
- `ConsoleKeys`: the keys the program reacts to.
- `ClockFormat`: the `D2` padding, `FormatTime`, and its partner `ParseTime`.
- `Countdown`: the timer as a state machine over values, and the lemmas about it.
  - `Step` is one loop iteration followed by the loop guard.
  - `Run` feeds a script of polls, one `Option<Key>` per iteration. `None` means
    `Console.KeyAvailable` was false.
  - `Frames` lists what the ticking iterations draw.
- `CountdownLoop`: the loop as written.
  - The locals are fields of class `Timer`.
  - `Timer.Step` and `Timer.Run` update them in place and are proved equal to
    `Countdown.Step` and `Countdown.Run`.
  - `StartTimer` is the whole timer method.
- `Recipes`: the catalogue, the lookups, and the agreement of the printed menus with the
  lookup tables.

Two behaviours of the code are worth stating directly:

- **Top-level menu.** "1" selects the boiled-egg category, "2" fried and "3" scrambled
  (main.cs:172-178).
- **Ticking after a key.** The key handling and the tick are two consecutive `if`s in one
  iteration (main.cs:38-66). An iteration that reads a key still ticks unless, after its
  key, the timer is paused or cancelled. So `R` while paused resumes *and* ticks at once,
  and an unrecognised key neither stops a running timer's tick nor wakes a paused one.
  `R` while running is ignored: that iteration counts down as if no key had been read
  (main.cs:45, 56-63).

## Model

| member | source | states |
|---|---|---|
| Countdown.Start | main.cs:32-37 | The timer starts with the full duration, spinner 0, unpaused; a positive duration enters the loop, and a duration of 0 skips it and finishes at once |
| Countdown.Step | main.cs:37-67 | One iteration keeps the timer state valid: the spinner stays an index into the four glyphs, the loop continues only while time remains, a cancel leaves time remaining, and the loop is left normally only at 0 |
| Countdown.Shown | main.cs:56-59 | An iteration draws a frame exactly when, after its key handling, the timer is neither cancelled nor paused |
| Countdown.TickShowsTimeBefore | main.cs:56-62 | An iteration draws a frame exactly when it takes a second off, and the frame shows the current glyph and the time before the decrement |
| Countdown.Frame.Clock | main.cs:57 | The text drawn for a frame reads back as the seconds the frame shows |
| Countdown.Run | main.cs:37-67 | A run keeps the state valid, never adds time, and does nothing once the loop has been left |
| Countdown.StepTickOrIdle | main.cs:56-66 | An iteration that reaches the running branch takes exactly one second off, advances the spinner by one modulo 4, and stays in the loop while more than one second remained, otherwise finishes; any other iteration leaves time and spinner unchanged |
| Countdown.PausedIdles | main.cs:41-42 | While paused, no key, `P` or any unrecognised key leaves the whole state unchanged and draws nothing |
| Countdown.ResumeWhileRunningIgnored | main.cs:45-48 | `R` while running behaves exactly like no key |
| Countdown.PauseFreezes | main.cs:41-44 | `P` always yields paused, and that iteration neither ticks nor draws |
| Countdown.ResumeTicks | main.cs:45-47 | `R` while paused unpauses and ticks in the same iteration, drawing the current time |
| Countdown.CancelStops | main.cs:49-53 | `S` or `Escape`, paused or not and whatever the remaining time, cancels without ticking or drawing |
| Countdown.CancelsExactlyOnCancelKey | main.cs:49-53 | An iteration ends cancelled if and only if the key it read is `S` or `Escape` |
| Countdown.UnhandledKeyIgnored | main.cs:38-66 | `Enter` or any key other than `P`, `R`, `S` and `Escape` behaves exactly like no key: a paused timer stays as it was, a running one ticks |
| Countdown.CycleIsModulo | main.cs:63 | `k` spinner advances of `(s + 1) % 4` land on `(s + k) % 4` |
| Countdown.RunAppend | main.cs:37-67 | Running a key script in two parts gives the same final state and frames as running it at once |
| Countdown.RunAccounts | main.cs:56-63 | Over any key script, the seconds lost equal the number of frames drawn, and the spinner has advanced once per frame: no decrement is skipped or doubled |
| Countdown.FramesCountDown | main.cs:37-66 | For any key script, with pauses, resumes and other keys, frame `i` shows `remaining - i` seconds and the glyph `i` spinner advances on; there are never more frames than seconds |
| Countdown.FinishedIffAllTicked | main.cs:37-69 | A run reaches the completion message if and only if it drew one frame per second that remained |
| Countdown.IdleProgress | main.cs:37-63 | With no keys, `n` polls leave `remaining - n` seconds while `n` is smaller, and otherwise a finished timer at 0, never paused |
| Countdown.RunIdle | main.cs:37-63 | With no keys, the final state of `n` polls, including the spinner, and the number of frames drawn, `min(n, remaining)` |
| Countdown.IdleFrames | main.cs:56-63 | With no keys, frame `i` shows `remaining - i` seconds and the glyph `i` spinner advances on |
| Countdown.FullCountdown | main.cs:34-69 | With no keys, a countdown of `d` seconds finishes after exactly `d` iterations, having drawn `d` frames showing `d` down to 1; `d = 0` finishes at once |
| Countdown.NotFinishedEarly | main.cs:37 | With no keys, fewer than `d` iterations of a `d`-second countdown leave it running with the matching time left |
| Countdown.SpinnerCycle | main.cs:32-63 | The first six ticks draw the glyphs at indices 0, 1, 2, 3, 0, 1 |
| Countdown.PausedRunIdles | main.cs:64-66 | A paused timer fed only idle polls stays exactly as it was and draws nothing |
| Countdown.PauseResume | main.cs:41-63 | Pausing at `r`, idling any number of polls, then resuming is the same as one uninterrupted iteration: it draws `r` once and continues from `r - 1` |
| Countdown.TerminalIsFinal | main.cs:52-69 | After a cancel or the completion, further keys change nothing and draw nothing |
| Countdown.CancelFirst | main.cs:49-53 | A script that starts with a cancel key ends cancelled at once with no frame |
| Countdown.CancelPreempts | main.cs:49-69 | A cancel key read while the loop runs ends the run cancelled, with the time it had, whatever follows, so never at the completion message |
| Countdown.CancelNeedsCancelKey | main.cs:37-69 | A key script containing no `S` and no `Escape` never ends the timer cancelled |
| CountdownLoop.Timer.constructor | main.cs:32-37 | The locals are initialised as in `Countdown.Start` |
| CountdownLoop.Timer.Step | main.cs:38-67 | The in-place iteration produces exactly the state and frame of `Countdown.Step` and keeps the timer valid |
| CountdownLoop.Timer.Run | main.cs:37-67 | The loop produces exactly the state and the frames of `Countdown.Run` |
| CountdownLoop.StartTimer | main.cs:31-72 | The timer method ends as `Countdown.Run` does from `Start(duration)`; it finishes if and only if it drew `duration` frames, and a cancelled run drew fewer |
| ClockFormat.ValueOfDecimal | main.cs:57 | The decimal digits written for a number read back as that number |
| ClockFormat.Pad2 | main.cs:57 | The `D2` form of a number has at least two digits, exactly two below 100, reads back as the number, and has no leading zero when it is longer than two digits |
| ClockFormat.FormatTime | main.cs:57 | The time text is minutes, a colon, then two second digits; the minute field reads as `t / 60` and the second field as `t % 60`; below 100 minutes it is five characters, and a longer text has no leading zero |
| ClockFormat.ParseClock | main.cs:57 | A minute count and a second count below 60, padded and joined by a colon, read back as `60 * minutes + seconds` |
| ClockFormat.FormatTimeRoundTrip | main.cs:21 | Parsing a formatted time gives back the seconds it was made from |
| ClockFormat.FormatTimeInjective | main.cs:57 | Different times are displayed differently |
| ClockFormat.FormatTimeExamples | main.cs:57 | 125 s shows as "02:05", 599 s as "09:59", 0 s as "00:00" |
| Recipes.LookupTopLevel | main.cs:172-178 | The top-level lookup selects a recipe exactly for "1", "2", "3" (the boiled category, fried or scrambled); "0" and every other input select none |
| Recipes.LookupYolk | main.cs:142-148 | The yolk lookup selects a boiled egg exactly for "1", "2", "3"; "0" and every other input select none |
| Recipes.Choose | main.cs:142-184 | One pass through the menus reaches a recipe exactly for top-level "2" or "3", or "1" followed by a yolk option "1" to "3"; the recipe reached is never the boiled-egg category and always has a positive duration |
| Recipes.ChosenRecipeCountsDown | main.cs:24-37 | On a recipe reached through the menus, the timer starts if and only if the key is Enter; it then has the recipe's positive duration, enters the loop, and with no keys finishes after one frame per second |
| Recipes.TopLevelMenuAgrees | main.cs:163-178 | The options printed on the top-level menu are exactly those the lookup accepts, and each selects the recipe whose name it prints |
| Recipes.YolkMenuAgrees | main.cs:134-148 | The options printed on the yolk menu are exactly those the lookup accepts, and each selects the boiled egg named after the printed yolk word and timed at the printed minutes |
| Recipes.Durations | main.cs:82-126 | Every duration is a whole number of minutes, only the boiled-egg category has none, and a firmer yolk boils longer (240 < 360 < 480) |
| Recipes.NamesDistinct | main.cs:79-123 | Different recipes have different names, boiled eggs being named "Ovo Cozido - Gema " followed by the yolk word |
| Recipes.Navigation | main.cs:142-185 | Top-level "1" then yolk "2" gives a 360 s timer, "2" gives 120 s and "3" gives 240 s; "0" selects nothing whatever follows, and yolk "0" goes back |

## Left out

- Screen output is not modelled: `Console.Clear`, `WriteLine`, `Write`, the emoji and
  status texts, and the recipe screen's rendering of the record's fields. A frame
  records only what varies, the spinner glyph and the seconds shown. `Frame.Clock`
  gives the `MM:SS` text.
- `Thread.Sleep` (1000, 200 and 1500 ms) is wall-clock pacing. Time is counted only in
  iterations and ticks.
- The terminal is not modelled. `Console.KeyAvailable` and `ReadKey` inside the loop are
  replaced by a script of polls, one per iteration. Key buffering and dropped keys are not
  modelled.
  - A run stops when the script is used up, and may then still be running. Treating the
    rest as "no key" would not end for a paused timer, which idles until a key comes.
- The final `ReadKey` after the completion message is not modelled; it is an
  acknowledgement with no effect on the timer.
- The `while (true)` menu loops of `Program.Main` and `OvoCozido.MostrarReceita`, and
  their blocking `ReadLine`, are not modelled. They are I/O navigation shells around the
  lookup tables. `Recipes.Choose` models one pass through them. A `null` line at end of
  input falls to the `_` case, like any unknown option.
- Virtual dispatch and inheritance are flattened into the `Recipe` datatype. The
  overrides carry no behaviour beyond their constants.
- `TempoPreparo` is a C# `int`. Every value in the source is non-negative, so durations
  are `nat`. A negative duration would also skip the loop.

