/** The countdown display: four urgency levels, the urgency message and
    icon, the motivation line and the elapsed / total breakdown. The clock
    text is `Calculations.FormatTime`, which the display computes the same
    way. */
module TimerDisplay {
  import opened Util
  import Calculations
  import TimerHook

  datatype Level = Normal | Caution | Warning | Critical

  function Rank(l: Level): int
  {
    match l
    case Normal => 0
    case Caution => 1
    case Warning => 2
    case Critical => 3
  }

  /** `urgencyLevel`: the remaining share of the total time, as a
      percentage, against 10, 25 and 50. With a total of 0 the percentage
      is NaN or an infinity, and only a negative remaining time (minus
      infinity) is critical. */
  function UrgencyLevel(timeRemaining: int, totalTime: int): (l: Level)
    ensures totalTime > 0 ==>
      && (l == Critical <==> 10 * timeRemaining <= totalTime)
      && (l == Warning <==> totalTime < 10 * timeRemaining && 4 * timeRemaining <= totalTime)
      && (l == Caution <==> totalTime < 4 * timeRemaining && 2 * timeRemaining <= totalTime)
      && (l == Normal <==> totalTime < 2 * timeRemaining)
    ensures totalTime == 0 ==> (l == Critical <==> timeRemaining < 0) && (l == Critical || l == Normal)
  {
    if totalTime == 0 then
      (if timeRemaining < 0 then Critical else Normal)
    else
      var percentage := timeRemaining as real / totalTime as real * 100.0;
      assert totalTime > 0 ==>
        && (percentage <= 10.0 <==> 10 * timeRemaining <= totalTime)
        && (percentage <= 25.0 <==> 4 * timeRemaining <= totalTime)
        && (percentage <= 50.0 <==> 2 * timeRemaining <= totalTime)
      by {
        if totalTime > 0 {
          TimerHook.ScaledAtMost(timeRemaining, totalTime, 10);
          TimerHook.ScaledAtMost(timeRemaining, totalTime, 25);
          TimerHook.ScaledAtMost(timeRemaining, totalTime, 50);
        }
      }
      if percentage <= 10.0 then Critical
      else if percentage <= 25.0 then Warning
      else if percentage <= 50.0 then Caution
      else Normal
  }

  /** Less time left is never less urgent. */
  lemma UrgencyMonotone(a: int, b: int, totalTime: int)
    requires totalTime > 0 && a <= b
    ensures Rank(UrgencyLevel(a, totalTime)) >= Rank(UrgencyLevel(b, totalTime))
  {
  }

  /** `getUrgencyMessage`: one message per level, so the level can be
      read back off the message. */
  function UrgencyMessage(l: Level): (m: string)
    ensures MessageLevel(m) == Some(l)
  {
    match l
    case Critical => "\U{1F6A8} Final seconds!"
    case Warning => "\U{26A0}\U{FE0F} Time running out!"
    case Caution => "\U{23F0} Halfway through"
    case Normal => "\U{2728} You've got time"
  }

  /** The level whose urgency message is m, if any. */
  function MessageLevel(m: string): Option<Level>
  {
    if m == "\U{1F6A8} Final seconds!" then Some(Critical)
    else if m == "\U{26A0}\U{FE0F} Time running out!" then Some(Warning)
    else if m == "\U{23F0} Halfway through" then Some(Caution)
    else if m == "\U{2728} You've got time" then Some(Normal)
    else None
  }

  /** The status line: the urgency message while active, the ready line
      otherwise; different levels never share a message. */
  function StatusMessage(isActive: bool, l: Level): (m: string)
    ensures !isActive ==> m == "\U{1F3AF} Ready to start"
    ensures isActive ==> m == UrgencyMessage(l)
    ensures forall l2: Level :: isActive && l2 != l ==> m != UrgencyMessage(l2)
    ensures forall l2: Level :: !isActive ==> m != UrgencyMessage(l2)
  {
    if isActive then UrgencyMessage(l) else "\U{1F3AF} Ready to start"
  }

  datatype Icon = Paused | Siren | WarningSign | Stopwatch

  /** `getTimerIcon`. */
  function TimerIcon(isActive: bool, l: Level): (i: Icon)
    ensures i == Paused <==> !isActive
    ensures i == Siren <==> isActive && l == Critical
    ensures i == WarningSign <==> isActive && l == Warning
    ensures i == Stopwatch <==> isActive && (l == Caution || l == Normal)
  {
    if !isActive then Paused
    else
      match l
      case Critical => Siren
      case Warning => WarningSign
      case Caution => Stopwatch
      case Normal => Stopwatch
  }

  datatype Motivation = GreatStart | DoingGreat | FinalStretch | AlmostThere | FinalCountdown

  /** The motivation spans rendered while active: five independent
      conditions on the remaining seconds, which partition them, so exactly
      one line shows while active and none while inactive. */
  function MotivationLines(isActive: bool, timeRemaining: int): (lines: seq<Motivation>)
    ensures |lines| == if isActive then 1 else 0
    ensures isActive && timeRemaining <= 5 ==> lines == [FinalCountdown]
    ensures isActive && timeRemaining > 45 ==> lines == [GreatStart]
    ensures isActive && 30 < timeRemaining <= 45 ==> lines == [DoingGreat]
    ensures isActive && 15 < timeRemaining <= 30 ==> lines == [FinalStretch]
    ensures isActive && 5 < timeRemaining <= 15 ==> lines == [AlmostThere]
  {
    if !isActive then []
    else
      (if timeRemaining > 45 then [GreatStart] else [])
      + (if timeRemaining <= 45 && timeRemaining > 30 then [DoingGreat] else [])
      + (if timeRemaining <= 30 && timeRemaining > 15 then [FinalStretch] else [])
      + (if timeRemaining <= 15 && timeRemaining > 5 then [AlmostThere] else [])
      + (if timeRemaining <= 5 then [FinalCountdown] else [])
  }

  function Stage(m: Motivation): int
  {
    match m
    case GreatStart => 0
    case DoingGreat => 1
    case FinalStretch => 2
    case AlmostThere => 3
    case FinalCountdown => 4
  }

  /** As the clock runs down the motivation line only moves on, through
      the five lines in order. */
  lemma MotivationAdvances(a: int, b: int)
    requires a <= b
    ensures Stage(MotivationLines(true, a)[0]) >= Stage(MotivationLines(true, b)[0])
  {
  }

  /** The time breakdown shows the elapsed clock (`totalTime -
      timeRemaining` seconds) and the total clock; read back, the elapsed
      and the remaining clocks add up to the total. */
  lemma BreakdownAddsUp(elapsed: nat, timeRemaining: nat, totalTime: nat)
    requires elapsed == totalTime - timeRemaining
    ensures Calculations.ClockValue(Calculations.FormatTime(elapsed)) == Some(elapsed)
    ensures Calculations.ClockValue(Calculations.FormatTime(timeRemaining)) == Some(timeRemaining)
    ensures Calculations.ClockValue(Calculations.FormatTime(totalTime)) == Some(totalTime)
    ensures Calculations.ClockValue(Calculations.FormatTime(elapsed)).value
          + Calculations.ClockValue(Calculations.FormatTime(timeRemaining)).value
         == Calculations.ClockValue(Calculations.FormatTime(totalTime)).value
  {
    Calculations.FormatTimeRoundTrip(elapsed);
    Calculations.FormatTimeRoundTrip(timeRemaining);
    Calculations.FormatTimeRoundTrip(totalTime);
  }
}
