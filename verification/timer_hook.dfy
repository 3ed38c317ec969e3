/** The countdown timer hooks: `useTimer`, with start / pause / resume /
    stop / reset and elapsed time accumulated across pauses, and
    `useSimpleTimer`, a countdown with a completion callback.

    Scheduled intervals are counted: `scheduled` is the number of
    one-second intervals still firing and `held` says whether the interval
    ref holds one of them (a start over a held ref leaks the old one).
    `Tick` is one firing of one of them; with none scheduled nothing fires.
    Time is the integer-millisecond parameter `now`. */
module TimerHook {
  import opened Util

  datatype Urgency = Normal | Warning | Critical

  /** `((initialTime - timeRemaining) / initialTime) * 100`, undefined
      (NaN or an infinity) when the initial time is 0. */
  function ProgressPercent(timeRemaining: int, initialTime: int): (r: Option<real>)
    ensures r.None? <==> initialTime == 0
    ensures initialTime != 0 && timeRemaining == initialTime ==> r == Some(0.0)
    ensures initialTime != 0 && timeRemaining == 0 ==> r == Some(100.0)
    ensures initialTime > 0 && 0 <= timeRemaining <= initialTime ==> 0.0 <= r.value <= 100.0
    ensures initialTime != 0 ==> r.value * initialTime as real == 100.0 * (initialTime - timeRemaining) as real
  {
    if initialTime == 0 then None
    else
      var q := (initialTime - timeRemaining) as real / initialTime as real;
      assert initialTime > 0 && 0 <= timeRemaining <= initialTime ==> 0.0 <= q <= 1.0 by {
        if initialTime > 0 && 0 <= timeRemaining <= initialTime {
          assert q * initialTime as real == (initialTime - timeRemaining) as real;
        }
      }
      assert timeRemaining == 0 ==> q == 1.0;
      assert q * initialTime as real == (initialTime - timeRemaining) as real;
      Some(q * 100.0)
  }

  /** Urgency of a countdown: critical at no more than 10% of the initial
      time left, warning at no more than 25%, normal otherwise. With an
      initial time of 0 the percentage is NaN or an infinity, and only a
      negative remaining time (minus infinity) is critical. */
  function UrgencyOf(timeRemaining: int, initialTime: int): (u: Urgency)
    ensures initialTime > 0 ==>
      && (u == Critical <==> 10 * timeRemaining <= initialTime)
      && (u == Warning <==> initialTime < 10 * timeRemaining && 4 * timeRemaining <= initialTime)
      && (u == Normal <==> initialTime < 4 * timeRemaining)
    ensures initialTime == 0 ==> (u == Critical <==> timeRemaining < 0) && u != Warning
  {
    if initialTime == 0 then
      (if timeRemaining < 0 then Critical else Normal)
    else
      var percentage := timeRemaining as real / initialTime as real * 100.0;
      assert initialTime > 0 ==>
        && (percentage <= 10.0 <==> 10 * timeRemaining <= initialTime)
        && (percentage <= 25.0 <==> 4 * timeRemaining <= initialTime)
      by {
        if initialTime > 0 {
          ScaledAtMost(timeRemaining, initialTime, 10);
          ScaledAtMost(timeRemaining, initialTime, 25);
        }
      }
      if percentage <= 10.0 then Critical
      else if percentage <= 25.0 then Warning
      else Normal
  }

  /** `a / b * 100 <= c` on exact rationals, for a positive b. */
  lemma ScaledAtMost(a: int, b: int, c: int)
    requires b > 0
    ensures a as real / b as real * 100.0 <= c as real <==> 100 * a <= c * b
  {
    var q := a as real / b as real;
    assert q * b as real == a as real;
    if q * 100.0 <= c as real {
      assert (c as real - q * 100.0) * b as real >= 0.0;
    } else {
      assert (q * 100.0 - c as real) * b as real > 0.0;
    }
  }

  function Rank(u: Urgency): int
  {
    match u
    case Normal => 0
    case Warning => 1
    case Critical => 2
  }

  /** Less time left is never less urgent. */
  lemma UrgencyMonotone(a: int, b: int, initialTime: int)
    requires initialTime > 0 && a <= b
    ensures Rank(UrgencyOf(a, initialTime)) >= Rank(UrgencyOf(b, initialTime))
  {
  }

  class CountdownTimer {
    const initialTime: int
    var timeRemaining: int
    var isActive: bool
    var isPaused: bool
    var startTime: Option<int>
    /** `pausedTimeRef`: milliseconds run before the last pause. */
    var pausedTime: int
    var scheduled: nat
    var held: bool

    predicate Valid()
      reads this
    {
      && (held ==> scheduled >= 1)
      && (isActive && !isPaused ==> held)
      && (isActive ==> startTime.Some? && timeRemaining != 0)
    }

    /** `useTimer(initialTime)`. */
    constructor (initial: int)
      ensures Valid() && initialTime == initial && timeRemaining == initial
      ensures !isActive && !isPaused && startTime.None? && pausedTime == 0
      ensures scheduled == 0 && !held
    {
      initialTime := initial;
      timeRemaining := initial;
      isActive := false;
      isPaused := false;
      startTime := None;
      pausedTime := 0;
      scheduled := 0;
      held := false;
    }

    /** `isRunning`: active and not paused; a running timer is never
        finished. */
    predicate IsRunning()
      reads this
      ensures IsRunning() ==> !IsFinished()
    {
      isActive && !isPaused
    }

    /** `isFinished`: no time left and inactive; a finished timer shows
        full progress and the critical urgency level. */
    predicate IsFinished()
      reads this
      ensures IsFinished() && initialTime != 0 ==> GetProgress() == Some(100.0)
      ensures IsFinished() && initialTime > 0 ==> GetUrgencyLevel() == Critical
    {
      timeRemaining == 0 && !isActive
    }

    /** Milliseconds counted so far: none without a start time, the
        accumulated total while paused, and the current run on top of it
        otherwise. */
    function ElapsedMs(now: int): int
      reads this
    {
      if startTime.None? then 0
      else if isPaused then pausedTime
      else now - startTime.value + pausedTime
    }

    /** `getElapsedTime`: whole seconds of `ElapsedMs`, rounded down. */
    function GetElapsedTime(now: int): (r: int)
      reads this
      ensures r * 1000 <= ElapsedMs(now) < (r + 1) * 1000
      ensures startTime.None? ==> r == 0
    {
      ElapsedMs(now) / 1000
    }

    /** `getProgress`. */
    function GetProgress(): (r: Option<real>)
      reads this
      ensures r.None? <==> initialTime == 0
      ensures initialTime != 0 && timeRemaining == initialTime ==> r == Some(0.0)
      ensures initialTime != 0 && timeRemaining == 0 ==> r == Some(100.0)
      ensures initialTime != 0 ==> r.value * initialTime as real == 100.0 * (initialTime - timeRemaining) as real
    {
      ProgressPercent(timeRemaining, initialTime)
    }

    /** `getUrgencyLevel`. */
    function GetUrgencyLevel(): (u: Urgency)
      reads this
      ensures initialTime > 0 ==>
        && (u == Critical <==> 10 * timeRemaining <= initialTime)
        && (u == Warning <==> initialTime < 10 * timeRemaining && 4 * timeRemaining <= initialTime)
        && (u == Normal <==> initialTime < 4 * timeRemaining)
      ensures initialTime == 0 ==> (u == Critical <==> timeRemaining < 0) && u != Warning
    {
      UrgencyOf(timeRemaining, initialTime)
    }

    /** Clears the held interval, if any. */
    method ClearInterval()
      requires held ==> scheduled >= 1
      modifies this
      ensures !held && scheduled == if old(held) then old(scheduled) - 1 else old(scheduled)
      ensures timeRemaining == old(timeRemaining) && isActive == old(isActive) && isPaused == old(isPaused)
      ensures startTime == old(startTime) && pausedTime == old(pausedTime)
    {
      if held {
        scheduled := scheduled - 1;
        held := false;
      }
    }

    /** `stop`: inactive and unpaused, the held interval cleared. */
    method Stop()
      requires Valid()
      modifies this
      ensures Valid() && !isActive && !isPaused && !held
      ensures scheduled == if old(held) then old(scheduled) - 1 else old(scheduled)
      ensures timeRemaining == old(timeRemaining) && startTime == old(startTime) && pausedTime == old(pausedTime)
    {
      isActive := false;
      isPaused := false;
      ClearInterval();
    }

    /** `start`: nothing while running. Otherwise active and unpaused, the
        start time set only if none is set, a new interval scheduled; the
        auto-stop effect then stops a timer that has no time left. */
    method Start(now: int)
      requires Valid()
      modifies this
      ensures Valid()
      ensures old(IsRunning()) ==> unchanged(this)
      ensures !old(IsRunning()) ==>
        && startTime == (if old(startTime).None? then Some(now) else old(startTime))
        && !isPaused && timeRemaining == old(timeRemaining) && pausedTime == old(pausedTime)
        && (isActive <==> timeRemaining != 0)
        && (timeRemaining != 0 ==> held && scheduled == old(scheduled) + 1)
        && (timeRemaining == 0 ==> !held && scheduled == old(scheduled))
    {
      if isActive && !isPaused {
        return;
      }
      isActive := true;
      isPaused := false;
      if startTime.None? {
        startTime := Some(now);
      }
      scheduled := scheduled + 1;
      held := true;
      AutoStop();
    }

    /** The effect that stops an active timer whose time has run out. */
    method AutoStop()
      requires held ==> scheduled >= 1
      requires isActive && !isPaused ==> held
      requires isActive ==> startTime.Some?
      modifies this
      ensures Valid()
      ensures old(timeRemaining == 0 && isActive) ==>
        (!isActive && !isPaused && !held
         && scheduled == (if old(held) then old(scheduled) - 1 else old(scheduled)))
      ensures !old(timeRemaining == 0 && isActive) ==> unchanged(this)
      ensures timeRemaining == old(timeRemaining) && startTime == old(startTime) && pausedTime == old(pausedTime)
    {
      if timeRemaining == 0 && isActive {
        isActive := false;
        isPaused := false;
        ClearInterval();
      }
    }

    /** `pause`: only when active and not paused; clears the interval and
        adds the current run to the accumulated time, so the elapsed time
        read at that moment does not change. */
    method Pause(now: int)
      requires Valid()
      modifies this
      ensures Valid()
      ensures !old(IsRunning()) ==> unchanged(this)
      ensures old(IsRunning()) ==>
        && isPaused && isActive && !held
        && pausedTime == old(pausedTime) + (now - old(startTime).value)
        && ElapsedMs(now) == old(ElapsedMs(now))
        && timeRemaining == old(timeRemaining) && startTime == old(startTime)
    {
      if !isActive || isPaused {
        return;
      }
      isPaused := true;
      ClearInterval();
      pausedTime := pausedTime + (now - if startTime.Some? then startTime.value else now);
    }

    /** `resume`: only when active and paused; a new run starts now, so the
        elapsed time read at that moment does not change. */
    method Resume(now: int)
      requires Valid()
      modifies this
      ensures Valid()
      ensures !old(isActive && isPaused) ==> unchanged(this)
      ensures old(isActive && isPaused) ==>
        && !isPaused && isActive && held && scheduled == old(scheduled) + 1
        && startTime == Some(now) && pausedTime == old(pausedTime)
        && ElapsedMs(now) == old(ElapsedMs(now))
        && timeRemaining == old(timeRemaining)
    {
      if !isActive || !isPaused {
        return;
      }
      isPaused := false;
      startTime := Some(now);
      scheduled := scheduled + 1;
      held := true;
    }

    /** `reset(newTime)`: the clock set to `newTime`, inactive, unpaused, no
        start time, no accumulated time, the held interval cleared. */
    method Reset(newTime: int)
      requires Valid()
      modifies this
      ensures Valid()
      ensures timeRemaining == newTime && !isActive && !isPaused && startTime.None? && pausedTime == 0
      ensures !held && scheduled == if old(held) then old(scheduled) - 1 else old(scheduled)
      ensures forall now :: GetElapsedTime(now) == 0
    {
      timeRemaining := newTime;
      isActive := false;
      isPaused := false;
      startTime := None;
      pausedTime := 0;
      ClearInterval();
    }

    /** One firing of a scheduled interval: above one second it counts
        down, otherwise the clock shows 0 and the timer turns inactive, so
        the remaining time never drops below 0 by ticking and the timer is
        finished. */
    method Tick()
      requires Valid()
      modifies this
      ensures Valid()
      ensures scheduled == 0 ==> unchanged(this)
      ensures scheduled > 0 && old(timeRemaining) <= 1 ==> timeRemaining == 0 && !isActive && IsFinished()
      ensures scheduled > 0 && old(timeRemaining) > 1 ==> timeRemaining == old(timeRemaining) - 1 && isActive == old(isActive)
      ensures isPaused == old(isPaused) && startTime == old(startTime) && pausedTime == old(pausedTime)
      ensures scheduled == old(scheduled) && held == old(held)
    {
      if scheduled == 0 {
        return;
      }
      if timeRemaining <= 1 {
        isActive := false;
        timeRemaining := 0;
      } else {
        timeRemaining := timeRemaining - 1;
      }
    }
  }

  /** `useSimpleTimer(initialTime, onComplete)`: `completions` counts the
      calls of the completion callback, `starts` the starts that took
      effect. */
  class SimpleTimer {
    const initialTime: int
    const hasOnComplete: bool
    var timeRemaining: int
    var isActive: bool
    var scheduled: nat
    var held: bool
    var completions: nat
    ghost var starts: nat

    predicate Valid()
      reads this
    {
      (held ==> scheduled >= 1) && (isActive ==> held)
    }

    /** The intended discipline: exactly the held interval is scheduled,
        only while active, and the callback has run at most once per start
        (not yet for the current run). */
    ghost predicate CompletesOnce()
      reads this
    {
      && scheduled == (if held then 1 else 0)
      && held == isActive
      && completions + (if isActive then 1 else 0) <= starts
    }

    constructor (initial: int, onComplete: bool)
      ensures Valid() && CompletesOnce()
      ensures initialTime == initial && hasOnComplete == onComplete && timeRemaining == initial
      ensures !isActive && scheduled == 0 && !held && completions == 0 && starts == 0
    {
      initialTime := initial;
      hasOnComplete := onComplete;
      timeRemaining := initial;
      isActive := false;
      scheduled := 0;
      held := false;
      completions := 0;
      starts := 0;
    }

    /** The `progress` value. */
    function Progress(): (r: Option<real>)
      reads this
      ensures r.None? <==> initialTime == 0
      ensures initialTime != 0 && timeRemaining == initialTime ==> r == Some(0.0)
      ensures initialTime != 0 && timeRemaining == 0 ==> r == Some(100.0)
      ensures initialTime != 0 ==> r.value * initialTime as real == 100.0 * (initialTime - timeRemaining) as real
    {
      ProgressPercent(timeRemaining, initialTime)
    }

    /** `start`: nothing while active; otherwise active with a new
        interval in the ref. */
    method Start()
      requires Valid()
      modifies this
      ensures Valid()
      ensures old(isActive) ==> unchanged(this)
      ensures !old(isActive) ==> isActive && held && scheduled == old(scheduled) + 1 && starts == old(starts) + 1
      ensures timeRemaining == old(timeRemaining) && completions == old(completions)
      ensures old(CompletesOnce()) ==> CompletesOnce()
    {
      if isActive {
        return;
      }
      isActive := true;
      scheduled := scheduled + 1;
      held := true;
      starts := starts + 1;
    }

    /** `stop`. */
    method Stop()
      requires Valid()
      modifies this
      ensures Valid() && !isActive && !held
      ensures scheduled == if old(held) then old(scheduled) - 1 else old(scheduled)
      ensures timeRemaining == old(timeRemaining) && completions == old(completions) && starts == old(starts)
      ensures old(CompletesOnce()) ==> CompletesOnce()
    {
      isActive := false;
      if held {
        scheduled := scheduled - 1;
        held := false;
      }
    }

    /** `reset(newTime)`. */
    method Reset(newTime: int)
      requires Valid()
      modifies this
      ensures Valid() && !isActive && !held && timeRemaining == newTime
      ensures scheduled == if old(held) then old(scheduled) - 1 else old(scheduled)
      ensures completions == old(completions) && starts == old(starts)
      ensures old(CompletesOnce()) ==> CompletesOnce()
    {
      timeRemaining := newTime;
      Stop();
    }

    /** One firing of a scheduled interval, as written: at one second or
        less the clock shows 0, the timer turns inactive and the callback
        runs, but the interval is not cleared, so every later firing runs
        the callback again. */
    method Tick()
      requires Valid()
      modifies this
      ensures Valid()
      ensures scheduled == 0 ==> unchanged(this)
      ensures scheduled > 0 && old(timeRemaining) <= 1 ==>
        && timeRemaining == 0 && !isActive
        && completions == old(completions) + (if hasOnComplete then 1 else 0)
      ensures scheduled > 0 && old(timeRemaining) > 1 ==>
        timeRemaining == old(timeRemaining) - 1 && isActive == old(isActive) && completions == old(completions)
      ensures scheduled == old(scheduled) && held == old(held) && starts == old(starts)
    {
      if scheduled == 0 {
        return;
      }
      if timeRemaining <= 1 {
        isActive := false;
        if hasOnComplete {
          completions := completions + 1;
        }
        timeRemaining := 0;
      } else {
        timeRemaining := timeRemaining - 1;
      }
    }

    /** One firing with the interval cleared on completion: the callback
        then runs at most once per start. */
    method TickClearing()
      requires Valid()
      modifies this
      ensures Valid()
      ensures scheduled == 0 && old(scheduled) == 0 ==> unchanged(this)
      ensures old(scheduled) > 0 && old(timeRemaining) <= 1 ==>
        && timeRemaining == 0 && !isActive && !held
        && completions == old(completions) + (if hasOnComplete then 1 else 0)
      ensures old(scheduled) > 0 && old(timeRemaining) > 1 ==>
        timeRemaining == old(timeRemaining) - 1 && isActive == old(isActive) && completions == old(completions)
      ensures scheduled ==
        if old(scheduled) > 0 && old(timeRemaining) <= 1 && old(held) then old(scheduled) - 1 else old(scheduled)
      ensures starts == old(starts)
      ensures old(CompletesOnce()) ==> CompletesOnce()
    {
      if scheduled == 0 {
        return;
      }
      if timeRemaining <= 1 {
        isActive := false;
        if hasOnComplete {
          completions := completions + 1;
        }
        timeRemaining := 0;
        if held {
          scheduled := scheduled - 1;
          held := false;
        }
      } else {
        timeRemaining := timeRemaining - 1;
      }
    }
  }

  /** One start of a one-second timer with a callback, then two firings:
      the callback runs twice. */
  method RepeatedCompletion() returns (completions: nat)
    ensures completions == 2
  {
    var t := new SimpleTimer(1, true);
    t.Start();
    t.Tick();
    t.Tick();
    assert t.starts == 1 && !t.CompletesOnce();
    completions := t.completions;
  }

  /** The same run with the clearing tick: the second firing never
      happens and the callback runs once. */
  method SingleCompletion() returns (completions: nat)
    ensures completions == 1
  {
    var t := new SimpleTimer(1, true);
    t.Start();
    t.TickClearing();
    t.TickClearing();
    completions := t.completions;
  }
}
