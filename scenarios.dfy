/** Runs of the engine from the state the page starts in, driven only through the
    engine's own events: clicks of the start button, ticks and reset. */
module Scenarios {
  import opened Display
  import opened Timer

  /** Start, then 1201 ticks: the break is announced once and a rest phase of 20
      seconds is running; 21 ticks later work resumes and the rest is announced. */
  method WorkThenRest() returns (inRest: Countdown, firstLog: seq<Alarm>, backAtWork: Countdown, log: seq<Alarm>)
    ensures inRest == Countdown(REST_DURATION, true) && firstLog == [BreakDue]
    ensures backAtWork == Countdown(DEFAULT_DURATION, false) && log == [BreakDue, RestComplete]
  {
    var e := new Engine();
    e.Click();
    WorkRestCycle();
    e.Advance(DEFAULT_DURATION + 1);
    inRest, firstLog := e.View(), e.alarms;
    e.Advance(REST_DURATION + 1);
    backAtWork, log := e.View(), e.alarms;
  }

  /** Start, five ticks, pause, start: the countdown resumes at 1195 seconds of
      work rather than at 1200, and the display is unchanged by the pause. */
  method PauseAndResume() returns (paused: Countdown, pausedDisplay: string, resumed: Countdown, running: bool)
    ensures paused == Countdown(1195, false) && pausedDisplay == Format(1195)
    ensures resumed == paused && running
  {
    var e := new Engine();
    e.Click();
    CountsDown(Countdown(DEFAULT_DURATION, false), 5);
    e.Advance(5);
    e.Click();
    paused, pausedDisplay := e.View(), e.display;
    e.Click();
    resumed, running := e.View(), e.isRunning;
  }

  /** A work phase paused at 0:15 resumes as a rest phase, and its end is
      announced as the end of a rest. */
  method LateWorkPause() returns (paused: Countdown, resumed: Countdown, log: seq<Alarm>)
    ensures paused == Countdown(15, false)
    ensures resumed == Countdown(15, true)
    ensures log == [RestComplete]
  {
    var e := new Engine();
    e.Click();
    LateWorkPauseSkipsBreak();
    e.Advance(1185);
    assert e.View() == Countdown(15, false) && e.alarms == [];
    e.Click();
    paused := e.View();
    e.Click();
    resumed := e.View();
    e.Advance(16);
    log := e.alarms;
  }

  /** The same run with the phase kept across the pause: the break is announced. */
  method LateWorkPauseKeepingPhase() returns (paused: Countdown, resumed: Countdown, log: seq<Alarm>)
    ensures paused == Countdown(15, false)
    ensures resumed == paused
    ensures log == [BreakDue]
  {
    var e := new Engine();
    e.Click();
    LateWorkPauseSkipsBreak();
    e.Advance(1185);
    assert e.View() == Countdown(15, false) && e.alarms == [];
    e.ClickKeepingPhase();
    paused := e.View();
    e.ClickKeepingPhase();
    resumed := e.View();
    e.Advance(16);
    log := e.alarms;
  }

  /** Reset during a rest phase: a stopped work phase showing 20:00, and no alarm
      beyond the one already raised. */
  method ResetDuringRest() returns (after: Countdown, running: bool, shown: string, log: seq<Alarm>)
    ensures after == Countdown(DEFAULT_DURATION, false) && !running
    ensures shown == "20:00" && log == [BreakDue]
  {
    var e := new Engine();
    e.Click();
    WorkRestCycle();
    e.Advance(DEFAULT_DURATION + 1);
    e.Advance(3);
    e.Reset();
    FormatDefault();
    after, running, shown, log := e.View(), e.isRunning, e.display, e.alarms;
  }
}
