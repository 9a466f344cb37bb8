# 20-20-20 eye-rest timer: the countdown engine in Dafny

The widget counts down a work phase of 1200 seconds (`defaultDuration`) and then a
rest phase of 20 seconds (`restDuration`), alternating for ever. A one-second
interval drives the countdown, and an alarm sounds at the end of each phase. The
start button toggles between pausing and resuming. When it resumes a stopped timer,
it reads the seconds back from the `M:SS` display text and guesses the phase from
that number. The reset button stops the timer and shows a fresh work phase.

The project has three modules:

- `Display` (display.dfy) covers the display text. `Format` is the rendering done
  by `updateTimerDisplay`, with JavaScript's floor division and sign-of-dividend
  remainder written out, so even the transient `-1` rendering is exact. `Split` and
  `Parse` are the split-on-':' and `parseInt` read-back done by the start button.
  The module proves that `Parse(Format(t)) == Some(t)` for every `t >= 0`.
- `Timer` (timer.dfy) covers the engine.
  - `Countdown` is the value view of the live countdown. `Next`, `Run` and
    `AlarmsOver` describe what ticking does to it.
  - The class `Engine` holds the module-level state: `isRunning`, `isRestPeriod`,
    the interval handle, the set of still-scheduled interval handles, the
    countdown `time` of the live interval, the display text and a log of alarms.
  - Its methods `StartTimer`, `Tick`, `Pause`, `Reset` and `Click` are proved
    against those functions. `Valid()` states the invariant that holds between
    events:
    - at most one interval is scheduled, and only the latest one can be;
    - `isRunning` holds exactly when the latest interval is scheduled;
    - the count is in [0, 1200], and at most 20 in a rest phase;
    - the display is `Format(time)`.
- `Scenarios` (scenarios.dfy) holds client methods. Each one builds an engine and
  drives it with clicks, ticks and a reset, and its postconditions state the
  outcome of the run.

The engine starts in the state that `resetTimer` produces: stopped, work phase,
display `20:00`. This is an assumption, because the initial display text comes from
an HTML page that is not part of this model.

In two places the code behaves differently from what one would expect. The model
follows the code in both.

- One would expect a 1200-second phase to end after 1200 ticks. In the code the
  phase changes only when the count drops below zero (script.js:73), so a phase of
  `d` seconds ends on tick `d + 1`. `PhaseEnds` and `WorkRestCycle` prove this.
- One would expect a pause followed by a start to restore the paused state. The
  code guesses the phase from the displayed count (script.js:135), so this fails
  for a work phase paused with 20 seconds or fewer left (see "## Findings").

## Model

| member | source | states |
|---|---|---|
| Display.NatText | script.js:116 | the decimal text of a number is non-empty and all digits, has one digit exactly when the number is below 10, and starts with '0' only for 0 |
| Display.JsRem | script.js:115 | JavaScript `%` by a positive divisor: the result is strictly between -b and b, takes the dividend's sign, and equals Dafny's `%` for a non-negative dividend; for the divisor 60 used by the display, the dividend minus the result is a multiple of 60, which fixes the result for negative dividends too |
| Display.FormatLayout | script.js:113-117 | for t >= 0 the display is the text of t / 60, a colon, then t % 60 as exactly two digits; the colon is the third character from the end |
| Display.FormatDefault | script.js:109 | the display after a reset reads "20:00" |
| Display.FormatMinusOne | script.js:70-71 | on the tick that takes the count below zero, the transient rendering of -1 is "-1:0-1" |
| Display.JoinSplit | script.js:129 | joining the fields of `split(':')` with ':' gives back the original text |
| Display.SplitFieldsHaveNoSeparator | script.js:129 | no field produced by `split` contains the separator |
| Display.SplitAround | script.js:129 | a text with exactly one separator, between two separator-free parts, splits into exactly those two parts |
| Display.NatTextValue | script.js:130-131 | `parseInt` of a number's decimal text gives back the number |
| Display.ParseFormat | script.js:129-132 | round trip: for every t >= 0, parsing the rendered display gives back t, so resuming restarts at exactly the paused count |
| Display.FormatInjective | script.js:114-116 | two different non-negative counts never show the same display |
| Timer.Next | script.js:70-91 | one tick keeps the count in range and changes the phase exactly when the count was already 0 |
| Timer.RunInRange | script.js:69-93 | every countdown reached by ticking from an in-range one stays in [0, 1200] |
| Timer.CountsDown | script.js:70-71 | while the count stays at 0 or above, k ticks take exactly k seconds off, keep the phase and raise no alarm |
| Timer.PhaseEnds | script.js:73-91 | a phase with d seconds left raises no alarm in the first d ticks; tick d+1 raises exactly one alarm, for that phase, and starts the other phase (rest to work at 1200, work to rest at 20) |
| Timer.WorkRestCycle | script.js:69-93 | from a fresh work phase: after 1201 ticks, rest at 20 with one BreakDue alarm; after 21 further ticks, work at 1200 with one RestComplete alarm; 1222 ticks return to the start |
| Timer.ResumeFromFormat | script.js:129-136 | a stopped timer showing count t resumes at t, in the rest phase exactly when t <= 20 |
| Timer.ResumeRestoresIff | script.js:135 | the phase guess restores the paused countdown if and only if it was a rest phase or had more than 20 seconds left |
| Timer.LateWorkPauseSkipsBreak | script.js:126-137 | a work phase paused at 0:15 after 1185 ticks resumes as rest; it then ends with RestComplete and starts a new work phase, while the same phase resumed as work would end with BreakDue |
| Timer.Engine.SingleSeries | script.js:58-69 | in a valid engine at most one interval is scheduled, and the timer runs exactly when that interval is the latest one |
| Timer.Engine.constructor | script.js:104-110 | the initial engine is the reset state: stopped, work phase at 1200, display Format(1200), no interval scheduled, no alarm |
| Timer.Engine.StartTimer | script.js:56-94 | cancels the previous interval, sets the count and phase, renders the count at once and arms exactly one new interval; the engine is valid whenever the new countdown is in range |
| Timer.Engine.Tick | script.js:69-93 | the callback of the scheduled interval moves the countdown to Next of the old one and appends the alarms Fired by it. With time left, the handles stay as they are. On a phase change the old interval is replaced by exactly one new one |
| Timer.Engine.Pause | script.js:97-101 | cancels the interval and clears isRunning; the count, the phase, the display and the alarm log are unchanged |
| Timer.Engine.Reset | script.js:104-110 | from any state: not running, no interval scheduled, work phase at 1200, display Format(1200), no alarm added |
| Timer.Engine.Click | script.js:126-137 | a running timer is paused; a stopped one restarts at its displayed count, in the rest phase exactly when that count is <= 20 |
| Timer.Engine.ClickKeepingPhase | script.js:126-137 | the fix for the phase guess: pause then click restarts exactly the paused countdown, phase included |
| Timer.Engine.Advance | script.js:69-93 | n ticks with no other event in between act on the engine as Run and AlarmsOver act on its countdown |
| Scenarios.WorkThenRest | script.js:120-137 | start then 1201 ticks: rest at 20 and one BreakDue; 21 more ticks: work at 1200 and the log BreakDue, RestComplete |
| Scenarios.PauseAndResume | script.js:126-137 | start, 5 ticks, pause: work at 1195 showing Format(1195); start again: running at 1195, not 1200 |
| Scenarios.LateWorkPause | script.js:126-137 | a work phase paused at 15 seconds resumes as rest, and its end is logged as RestComplete |
| Scenarios.LateWorkPauseKeepingPhase | script.js:126-137 | with the phase kept across the pause, the same run resumes in the work phase and logs BreakDue |
| Scenarios.ResetDuringRest | script.js:104-110 | reset during a rest phase gives a stopped work phase at 1200 showing "20:00", and the log keeps only the alarm already raised |

## Findings

| source | as written | input that shows it | evidently intended | confidence | as-written member | corrected member |
|---|---|---|---|---|---|---|
| script.js:135 | a stopped timer resumes as rest whenever the displayed count is at most `restDuration` | start, let 1185 ticks pass (display 0:15, work phase), pause, start: the timer resumes as a rest phase, and 16 ticks later it logs "Rest Complete" and starts a new work phase, so the break is never announced | resume in the phase that was paused, so that a pause followed by a start restores the same countdown | not executed; medium | Timer.Engine.Click, Timer.LateWorkPauseSkipsBreak | Timer.Engine.ClickKeepingPhase |

## Left out

- DOM lookups and the start button's label (script.js:2-6, 60, 100, 108) are not modelled. `isRunning` stands for the label.
- Notification permission and the status text (script.js:17-37, 122-124) are not modelled. They depend on browser permission state.
- `sendNotification` (script.js:40-53) is modelled only as an entry in the engine's `alarms` log. Its title and body are `BreakDue` or `RestComplete`. The entry is not gated on permission. The icon, the badge and the 10-second auto-close are not modelled.
- `alarmSound.play()` (script.js:14, 75) is not modelled. It is a best-effort foreign call.
- Real timing is not modelled. `setInterval` is a fresh handle added to the set of scheduled handles, and `clearInterval` removes a handle from that set. Each firing is an explicit `Tick(h)` call on a scheduled handle `h`. `Advance(n)` stands for `n` consecutive firings.
- The dark-mode toggle (script.js:144-156) is left out as pure UI.
- Display.ParseDecimal: models `parseInt` only on a non-empty run of decimal digits. On any other text it gives None, where `parseInt` would give NaN or parse a prefix. Between events the display always holds `Format` of a count in [0, 1200], so the engine never reaches the None case.
- Timer.Engine.Reset: also sets `time` to 1200, which `resetTimer` does not do. The cancelled interval's closure variable can no longer be observed, and setting it keeps the invariant that the display shows `time`.
- Timer.Engine.Tick: writes the transient `Format(-1)` text and overwrites it within the same call (script.js:71, 66). Only the final display is stated.
- Numbers are unbounded integers rather than JavaScript doubles. Every count stays within [-1, 1200], where the two agree.
- The initial display text comes from an HTML page that is not part of this model. The engine is assumed to start in the reset state.
