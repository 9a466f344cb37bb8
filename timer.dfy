/** The eye-rest countdown engine: a work phase of DEFAULT_DURATION seconds and a
    rest phase of REST_DURATION seconds, alternating for ever, driven by a
    one-second interval and controlled by a start/pause toggle and a reset. */
module Timer {
  import opened Display

  const DEFAULT_DURATION: nat := 1200
  const REST_DURATION: nat := 20

  /** What the notifier announces when a phase ends: the break after a work
      phase, the return to work after a rest phase. */
  datatype Alarm = BreakDue | RestComplete

  /** The countdown of the live interval: seconds left and whether it is the rest phase. */
  datatype Countdown = Countdown(time: int, rest: bool)

  /** The range every countdown stays in between events. */
  predicate InRange(c: Countdown) {
    0 <= c.time <= DEFAULT_DURATION && (c.rest ==> c.time <= REST_DURATION)
  }

  function EndAlarm(rest: bool): Alarm {
    if rest then RestComplete else BreakDue
  }

  /** The countdown after one tick of the interval callback. The phase changes only
      when the decremented count is below zero; a rest phase is followed by a work
      phase of DEFAULT_DURATION and a work phase by a rest phase of REST_DURATION. */
  function Next(c: Countdown): (n: Countdown)
    ensures InRange(c) ==> InRange(n)
    ensures n.rest != c.rest <==> c.time <= 0
  {
    if c.time - 1 >= 0 then Countdown(c.time - 1, c.rest)
    else if c.rest then Countdown(DEFAULT_DURATION, false)
    else Countdown(REST_DURATION, true)
  }

  /** The alarms one tick raises: one, for the phase that ended, or none. */
  function Fired(c: Countdown): seq<Alarm> {
    if c.time - 1 >= 0 then [] else [EndAlarm(c.rest)]
  }

  /** The countdown after `n` uninterrupted ticks. */
  function Run(c: Countdown, n: nat): Countdown
    decreases n
  {
    if n == 0 then c else Run(Next(c), n - 1)
  }

  /** The alarms raised, in order, by `n` uninterrupted ticks. */
  function AlarmsOver(c: Countdown, n: nat): seq<Alarm>
    decreases n
  {
    if n == 0 then [] else Fired(c) + AlarmsOver(Next(c), n - 1)
  }

  lemma {:induction false} RunSnoc(c: Countdown, n: nat)
    ensures Run(c, n + 1) == Next(Run(c, n))
    ensures AlarmsOver(c, n + 1) == AlarmsOver(c, n) + Fired(Run(c, n))
    decreases n
  {
    if n > 0 {
      RunSnoc(Next(c), n - 1);
    }
  }

  lemma {:induction false} RunAdd(c: Countdown, a: nat, b: nat)
    ensures Run(c, a + b) == Run(Run(c, a), b)
    ensures AlarmsOver(c, a + b) == AlarmsOver(c, a) + AlarmsOver(Run(c, a), b)
    decreases a
  {
    if a > 0 {
      RunAdd(Next(c), a - 1, b);
    }
  }

  /** Every countdown reachable by ticking stays within [0, DEFAULT_DURATION]. */
  lemma {:induction false} RunInRange(c: Countdown, n: nat)
    requires InRange(c)
    ensures InRange(Run(c, n))
    decreases n
  {
    if n > 0 {
      RunInRange(Next(c), n - 1);
    }
  }

  /** While the count stays non-negative each tick takes exactly one second off
      and raises nothing. */
  lemma {:induction false} CountsDown(c: Countdown, k: nat)
    requires k <= c.time
    ensures Run(c, k) == Countdown(c.time - k, c.rest)
    ensures AlarmsOver(c, k) == []
    decreases k
  {
    if k > 0 {
      CountsDown(Next(c), k - 1);
    }
  }

  /** A phase with `d` seconds left ends on the (d+1)-th uninterrupted tick, with
      exactly one alarm for that phase, and not before. */
  lemma PhaseEnds(c: Countdown)
    requires c.time >= 0
    ensures forall k :: 0 <= k <= c.time ==> AlarmsOver(c, k) == []
    ensures AlarmsOver(c, c.time + 1) == [EndAlarm(c.rest)]
    ensures Run(c, c.time + 1) ==
      if c.rest then Countdown(DEFAULT_DURATION, false) else Countdown(REST_DURATION, true)
  {
    forall k | 0 <= k <= c.time ensures AlarmsOver(c, k) == [] {
      CountsDown(c, k);
    }
    CountsDown(c, c.time);
    RunSnoc(c, c.time);
  }

  /** From a fresh work phase: the break is due after 1201 ticks, work resumes 21
      ticks later, and the engine is then back where it started. */
  lemma {:induction false} WorkRestCycle()
    ensures Run(Countdown(DEFAULT_DURATION, false), DEFAULT_DURATION + 1) == Countdown(REST_DURATION, true)
    ensures AlarmsOver(Countdown(DEFAULT_DURATION, false), DEFAULT_DURATION + 1) == [BreakDue]
    ensures Run(Countdown(REST_DURATION, true), REST_DURATION + 1) == Countdown(DEFAULT_DURATION, false)
    ensures AlarmsOver(Countdown(REST_DURATION, true), REST_DURATION + 1) == [RestComplete]
    ensures Run(Countdown(DEFAULT_DURATION, false), DEFAULT_DURATION + REST_DURATION + 2) == Countdown(DEFAULT_DURATION, false)
    ensures AlarmsOver(Countdown(DEFAULT_DURATION, false), DEFAULT_DURATION + REST_DURATION + 2) == [BreakDue, RestComplete]
  {
    var work, rest := Countdown(DEFAULT_DURATION, false), Countdown(REST_DURATION, true);
    PhaseEnds(work);
    PhaseEnds(rest);
    RunAdd(work, DEFAULT_DURATION + 1, REST_DURATION + 1);
  }

  // ---------------------------------------------------------------------------
  // Resuming from the display

  /** The countdown the start-button handler starts when the timer is stopped: the
      count read back from the display, and the rest phase exactly when that count
      is at most REST_DURATION. None when the display does not parse. */
  function ResumeFrom(display: string): Option<Countdown> {
    match Parse(display)
    case Some(total) => Some(Countdown(total, total <= REST_DURATION))
    case None => None
  }

  lemma ResumeFromFormat(time: int)
    requires time >= 0
    ensures ResumeFrom(Format(time)) == Some(Countdown(time, time <= REST_DURATION))
  {
    ParseFormat(time);
  }

  /** The phase guess restores a paused countdown exactly unless it was a work
      phase paused with REST_DURATION seconds or fewer left. */
  lemma ResumeRestoresIff(c: Countdown)
    requires InRange(c)
    ensures ResumeFrom(Format(c.time)) == Some(c) <==> (c.rest || c.time > REST_DURATION)
  {
    ResumeFromFormat(c.time);
  }

  /** A work phase paused at 0:15 (after 1185 ticks) resumes as a rest phase: 16
      ticks later the alarm says the rest is complete and a new work phase starts,
      so the break is never announced; resumed in its own phase it would be. */
  lemma LateWorkPauseSkipsBreak()
    ensures Run(Countdown(DEFAULT_DURATION, false), 1185) == Countdown(15, false)
    ensures AlarmsOver(Countdown(DEFAULT_DURATION, false), 1185) == []
    ensures ResumeFrom(Format(15)) == Some(Countdown(15, true))
    ensures AlarmsOver(Countdown(15, true), 16) == [RestComplete]
    ensures Run(Countdown(15, true), 16) == Countdown(DEFAULT_DURATION, false)
    ensures AlarmsOver(Countdown(15, false), 16) == [BreakDue]
  {
    CountsDown(Countdown(DEFAULT_DURATION, false), 1185);
    ResumeFromFormat(15);
    PhaseEnds(Countdown(15, true));
    PhaseEnds(Countdown(15, false));
  }

  // ---------------------------------------------------------------------------
  // The engine

  /** The module-level state of the widget. `interval` is the handle most recently
      returned by setInterval (0 before the first), `live` the handles whose series
      are still scheduled, and `nextHandle` the handle setInterval returns next.
      `time` is the countdown of the live series; while none is live it is the
      count the display shows. `alarms` logs one entry per phase ending. */
  class Engine {
    var time: int
    var isRunning: bool
    var isRestPeriod: bool
    var interval: nat
    var live: set<nat>
    var nextHandle: nat
    var display: string
    var alarms: seq<Alarm>

    function View(): Countdown
      reads this
    {
      Countdown(time, isRestPeriod)
    }

    /** At most one tick series is scheduled, and only the latest one can be. */
    ghost predicate HandlesValid()
      reads this
    {
      live <= {interval} && interval < nextHandle
    }

    ghost predicate Valid()
      reads this
    {
      HandlesValid() &&
      InRange(View()) &&
      display == Format(time) &&
      (isRunning <==> interval in live)
    }

    lemma SingleSeries()
      requires Valid()
      ensures |live| <= 1
      ensures isRunning <==> live == {interval}
    {
      if interval in live {
        assert live == {interval};
      } else {
        assert live == {};
      }
    }

    /** The engine as the page leaves it after `resetTimer`. */
    constructor ()
      ensures Valid()
      ensures View() == Countdown(DEFAULT_DURATION, false) && !isRunning && live == {}
      ensures display == Format(DEFAULT_DURATION) && alarms == []
    {
      time := DEFAULT_DURATION;
      isRunning := false;
      isRestPeriod := false;
      interval := 0;
      live := {};
      nextHandle := 1;
      display := Format(DEFAULT_DURATION);
      alarms := [];
    }

    /** `startTimer`: cancels the previous series, renders the new count at once and
        arms exactly one new series. */
    method StartTimer(duration: int, isRest: bool)
      requires HandlesValid()
      modifies this
      ensures HandlesValid()
      ensures View() == Countdown(duration, isRest) && isRunning
      ensures display == Format(duration)
      ensures interval == old(nextHandle) && live == {interval} && nextHandle == old(nextHandle) + 1
      ensures alarms == old(alarms)
      ensures InRange(View()) ==> Valid()
    {
      time := duration;
      isRunning := true;
      isRestPeriod := isRest;
      live := live - {interval};
      display := Format(time);
      interval := nextHandle;
      nextHandle := nextHandle + 1;
      live := live + {interval};
    }

    /** The interval callback of the live series `h`. */
    method Tick(h: nat)
      requires Valid() && h in live
      modifies this
      ensures Valid() && isRunning
      ensures View() == Next(old(View()))
      ensures alarms == old(alarms) + Fired(old(View()))
      ensures old(time) > 0 ==>
        (interval == old(interval) && live == old(live) && nextHandle == old(nextHandle))
      ensures old(time) <= 0 ==>
        (interval == old(nextHandle) && live == {interval} && nextHandle == old(nextHandle) + 1)
    {
      time := time - 1;
      display := Format(time);
      if time < 0 {
        live := live - {interval};
        if isRestPeriod {
          alarms := alarms + [RestComplete];
          StartTimer(DEFAULT_DURATION, false);
        } else {
          alarms := alarms + [BreakDue];
          StartTimer(REST_DURATION, true);
        }
      }
    }

    /** `pauseTimer`: cancels the series; the count, the phase and the display stay. */
    method Pause()
      requires Valid()
      modifies this
      ensures Valid() && !isRunning && live == {}
      ensures View() == old(View()) && display == old(display) && alarms == old(alarms)
      ensures interval == old(interval) && nextHandle == old(nextHandle)
    {
      live := live - {interval};
      isRunning := false;
    }

    /** `resetTimer`: from any state, a stopped work phase showing DEFAULT_DURATION. */
    method Reset()
      requires HandlesValid()
      modifies this
      ensures Valid() && !isRunning && live == {}
      ensures View() == Countdown(DEFAULT_DURATION, false) && display == Format(DEFAULT_DURATION)
      ensures alarms == old(alarms) && interval == old(interval) && nextHandle == old(nextHandle)
    {
      live := live - {interval};
      isRunning := false;
      isRestPeriod := false;
      time := DEFAULT_DURATION;
      display := Format(time);
    }

    /** The start button: pauses a running timer; otherwise restarts from the count
        read back from the display, guessing the phase from that count. */
    method Click()
      requires Valid()
      modifies this
      ensures Valid() && alarms == old(alarms) && display == old(display)
      ensures old(isRunning) ==>
        (!isRunning && live == {} && View() == old(View()) &&
         interval == old(interval) && nextHandle == old(nextHandle))
      ensures !old(isRunning) ==>
        (isRunning && View() == Countdown(old(time), old(time) <= REST_DURATION) &&
         interval == old(nextHandle) && live == {interval} && nextHandle == old(nextHandle) + 1)
    {
      if isRunning {
        Pause();
      } else {
        ResumeFromFormat(time);
        var c := ResumeFrom(display).value;
        StartTimer(c.time, c.rest);
      }
    }

    /** The start button with the phase carried in the state rather than guessed:
        a pause followed by this click restarts the very countdown that was paused. */
    method ClickKeepingPhase()
      requires Valid()
      modifies this
      ensures Valid() && alarms == old(alarms) && display == old(display)
      ensures old(isRunning) ==>
        (!isRunning && live == {} && View() == old(View()) &&
         interval == old(interval) && nextHandle == old(nextHandle))
      ensures !old(isRunning) ==>
        (isRunning && View() == old(View()) &&
         interval == old(nextHandle) && live == {interval} && nextHandle == old(nextHandle) + 1)
    {
      if isRunning {
        Pause();
      } else {
        ParseFormat(time);
        var total := Parse(display).value;
        StartTimer(total, isRestPeriod);
      }
    }

    /** `n` ticks of the live series with no other event in between. */
    method Advance(n: nat)
      requires Valid() && isRunning
      modifies this
      ensures Valid() && isRunning && display == Format(time)
      ensures View() == Run(old(View()), n)
      ensures alarms == old(alarms) + AlarmsOver(old(View()), n)
    {
      ghost var start := View();
      ghost var log := alarms;
      var k := 0;
      while k < n
        invariant 0 <= k <= n
        invariant Valid() && isRunning
        invariant View() == Run(start, k)
        invariant alarms == log + AlarmsOver(start, k)
      {
        RunSnoc(start, k);
        Tick(interval);
        k := k + 1;
      }
    }
  }
}
