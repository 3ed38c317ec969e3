/** Celebrations after a completed test: achievement detection, the
    confetti rules and the queue that shows one achievement at a time. */
module Celebration {
  import opened Util

  datatype Achievement =
    | TypingMaster | LightningFast | SpeedDemon
    | Perfectionist | Sharpshooter | Accurate
    | Unstoppable | FlawlessVictory
    | FirstTest

  /** 0 for speed, 1 for accuracy, 2 for combo, 3 for milestone. */
  function Category(a: Achievement): int
  {
    match a
    case TypingMaster => 0
    case LightningFast => 0
    case SpeedDemon => 0
    case Perfectionist => 1
    case Sharpshooter => 1
    case Accurate => 1
    case Unstoppable => 2
    case FlawlessVictory => 2
    case FirstTest => 3
  }

  /** The highest speed award the run earns, if any. */
  function SpeedAward(wpm: int): (r: seq<Achievement>)
    ensures |r| <= 1 && forall x :: x in r ==> Category(x) == 0
    ensures TypingMaster in r <==> wpm >= 120
    ensures LightningFast in r <==> 100 <= wpm < 120
    ensures SpeedDemon in r <==> 80 <= wpm < 100
    ensures r == [] <==> wpm < 80
  {
    if wpm >= 120 then [TypingMaster]
    else if wpm >= 100 then [LightningFast]
    else if wpm >= 80 then [SpeedDemon]
    else []
  }

  /** The highest accuracy award the run earns, if any. */
  function AccuracyAward(accuracy: int): (r: seq<Achievement>)
    ensures |r| <= 1 && forall x :: x in r ==> Category(x) == 1
    ensures Perfectionist in r <==> accuracy == 100
    ensures Sharpshooter in r <==> accuracy != 100 && accuracy >= 98
    ensures Accurate in r <==> accuracy < 98 && accuracy >= 95
    ensures r == [] <==> accuracy != 100 && accuracy < 95
  {
    if accuracy == 100 then [Perfectionist]
    else if accuracy >= 98 then [Sharpshooter]
    else if accuracy >= 95 then [Accurate]
    else []
  }

  /** At most one combo award; the faster combo is checked first. */
  function ComboAward(wpm: int, accuracy: int): (r: seq<Achievement>)
    ensures |r| <= 1 && forall x :: x in r ==> Category(x) == 2
    ensures Unstoppable in r <==> wpm >= 100 && accuracy >= 98
    ensures FlawlessVictory in r <==> !(wpm >= 100 && accuracy >= 98) && wpm >= 80 && accuracy == 100
  {
    if wpm >= 100 && accuracy >= 98 then [Unstoppable]
    else if wpm >= 80 && accuracy == 100 then [FlawlessVictory]
    else []
  }

  /** The first-test milestone, for any run with a positive speed. */
  function MilestoneAward(wpm: int): (r: seq<Achievement>)
    ensures |r| <= 1 && forall x :: x in r ==> Category(x) == 3
    ensures FirstTest in r <==> wpm > 0
  {
    if wpm > 0 then [FirstTest] else []
  }

  /** Categories strictly increase along a concatenation of lists of at
      most one element each, taken in category order. */
  lemma CategoriesIncrease(a: seq<Achievement>, b: seq<Achievement>, c: seq<Achievement>, d: seq<Achievement>)
    requires |a| <= 1 && |b| <= 1 && |c| <= 1 && |d| <= 1
    requires forall x :: x in a ==> Category(x) == 0
    requires forall x :: x in b ==> Category(x) == 1
    requires forall x :: x in c ==> Category(x) == 2
    requires forall x :: x in d ==> Category(x) == 3
    ensures var r := a + b + c + d;
      forall i, j :: 0 <= i < j < |r| ==> Category(r[i]) < Category(r[j])
  {
    var r := a + b + c + d;
    forall i | 0 <= i < |r|
      ensures Category(r[i]) == (if i < |a| then 0
                                 else if i < |a| + |b| then 1
                                 else if i < |a| + |b| + |c| then 2
                                 else 3)
    {
      if i < |a| {
        assert r[i] in a;
      } else if i < |a| + |b| {
        assert r[i] == b[i - |a|];
        assert r[i] in b;
      } else if i < |a| + |b| + |c| {
        assert r[i] == c[i - |a| - |b|];
        assert r[i] in c;
      } else {
        assert r[i] == d[i - |a| - |b| - |c|];
        assert r[i] in d;
      }
    }
  }

  /** `detectAchievements`: nothing unless the test is complete; then the
      highest speed award, the highest accuracy award, one combo (the
      faster one first) and the first-test milestone, in that order. The
      contract lists each award with its exact condition and shows that
      the categories strictly increase along the list, so no category
      appears twice and nothing is repeated. */
  function DetectAchievements(wpm: int, accuracy: int, isComplete: bool): (r: seq<Achievement>)
    ensures !isComplete ==> r == []
    ensures TypingMaster in r <==> isComplete && wpm >= 120
    ensures LightningFast in r <==> isComplete && 100 <= wpm < 120
    ensures SpeedDemon in r <==> isComplete && 80 <= wpm < 100
    ensures Perfectionist in r <==> isComplete && accuracy == 100
    ensures Sharpshooter in r <==> isComplete && accuracy != 100 && accuracy >= 98
    ensures Accurate in r <==> isComplete && accuracy < 98 && accuracy >= 95
    ensures Unstoppable in r <==> isComplete && wpm >= 100 && accuracy >= 98
    ensures FlawlessVictory in r <==> isComplete && !(wpm >= 100 && accuracy >= 98) && wpm >= 80 && accuracy == 100
    ensures FirstTest in r <==> isComplete && wpm > 0
    ensures forall i, j :: 0 <= i < j < |r| ==> Category(r[i]) < Category(r[j])
  {
    if !isComplete then []
    else
      var speed := SpeedAward(wpm);
      var precision := AccuracyAward(accuracy);
      var combo := ComboAward(wpm, accuracy);
      var milestone := MilestoneAward(wpm);
      CategoriesIncrease(speed, precision, combo, milestone);
      speed + precision + combo + milestone
  }

  /** Distinct awards on the list, as a consequence of the order. */
  lemma NoDuplicateAchievements(wpm: int, accuracy: int, isComplete: bool)
    ensures var r := DetectAchievements(wpm, accuracy, isComplete);
      forall i, j :: 0 <= i < j < |r| ==> r[i] != r[j]
  {
    var r := DetectAchievements(wpm, accuracy, isComplete);
    forall i, j | 0 <= i < j < |r|
      ensures r[i] != r[j]
    {
      assert Category(r[i]) < Category(r[j]);
    }
  }

  /** Confetti shows for at least 60 WPM or at least 90% accuracy. The
      thresholds of the intensity, particle count and palette all lie above
      it: a run without confetti would get the lightest, smallest and
      default one of each. */
  predicate ShowsConfetti(wpm: int, accuracy: int)
    ensures !ShowsConfetti(wpm, accuracy) ==>
      && ConfettiIntensity(wpm, accuracy) == Light && ParticleCount(wpm) == 50
      && ConfettiPalette(wpm, accuracy) == Festive
  {
    wpm >= 60 || accuracy >= 90
  }

  datatype Intensity = Light | Medium | Heavy

  function IntensityRank(i: Intensity): int
  {
    match i
    case Light => 0
    case Medium => 1
    case Heavy => 2
  }

  /** `getConfettiIntensity`. */
  function ConfettiIntensity(wpm: int, accuracy: int): (i: Intensity)
    ensures i == Heavy <==> wpm >= 100 || accuracy == 100
    ensures i == Medium <==> !(wpm >= 100 || accuracy == 100) && (wpm >= 80 || accuracy >= 95)
  {
    if wpm >= 100 || accuracy == 100 then Heavy
    else if wpm >= 80 || accuracy >= 95 then Medium
    else Light
  }

  /** Faster typing never gives less confetti; nor does higher accuracy up
      to 100%. */
  lemma IntensityMonotone(w1: int, w2: int, a1: int, a2: int)
    requires w1 <= w2 && a1 <= a2 <= 100
    ensures IntensityRank(ConfettiIntensity(w1, a1)) <= IntensityRank(ConfettiIntensity(w2, a2))
  {
  }

  datatype Palette = Green | Blue | Festive

  /** `getConfettiColors`: perfect accuracy takes precedence over speed. */
  function ConfettiPalette(wpm: int, accuracy: int): (p: Palette)
    ensures p == Green <==> accuracy == 100
    ensures p == Blue <==> accuracy != 100 && wpm >= 100
  {
    if accuracy == 100 then Green
    else if wpm >= 100 then Blue
    else Festive
  }

  function PaletteColors(p: Palette): (colors: seq<string>)
    ensures |colors| == if p == Festive then 6 else 4
  {
    match p
    case Green => ["#22c55e", "#16a34a", "#15803d", "#4ade80"]
    case Blue => ["#3b82f6", "#1d4ed8", "#1e40af", "#60a5fa"]
    case Festive => ["#ff6b6b", "#4ecdc4", "#45b7d1", "#96ceb4", "#feca57", "#ff9ff3"]
  }

  /** The `particleCount` passed to the confetti. */
  function ParticleCount(wpm: int): (n: int)
    ensures n == 80 || n == 50
    ensures n == 80 <==> wpm >= 100
  {
    if wpm >= 100 then 80 else 50
  }

  /** A run at 100 WPM or more gets the full celebration: confetti, heavy
      intensity, 80 particles and a non-default palette. */
  lemma FastRunsCelebrateFully(wpm: int, accuracy: int)
    requires wpm >= 100
    ensures ShowsConfetti(wpm, accuracy) && ConfettiIntensity(wpm, accuracy) == Heavy
    ensures ParticleCount(wpm) == 80 && ConfettiPalette(wpm, accuracy) != Festive
  {
  }

  /** The celebration state: the confetti flag, the achievement on show
      and the ones waiting; `completions` counts calls of the
      celebration-complete callback. */
  class CelebrationManager {
    const hasCallback: bool
    var showConfetti: bool
    var currentAchievement: Option<Achievement>
    var celebrationQueue: seq<Achievement>
    var completions: nat

    /** Once the queue effect has run, nothing waits while nothing shows. */
    predicate Valid()
      reads this
    {
      currentAchievement.None? ==> celebrationQueue == []
    }

    constructor (onCelebrationComplete: bool)
      ensures Valid() && hasCallback == onCelebrationComplete
      ensures !showConfetti && currentAchievement.None? && celebrationQueue == [] && completions == 0
    {
      hasCallback := onCelebrationComplete;
      showConfetti := false;
      currentAchievement := None;
      celebrationQueue := [];
      completions := 0;
    }

    /** The queue effect: when nothing is showing, the head of the queue
        moves to the display and the queue shrinks by exactly one. */
    method ProcessQueue()
      modifies this
      ensures old(|celebrationQueue| > 0 && currentAchievement.None?) ==>
        && currentAchievement == Some(old(celebrationQueue)[0])
        && celebrationQueue == old(celebrationQueue)[1..]
        && |celebrationQueue| == old(|celebrationQueue|) - 1
      ensures !old(|celebrationQueue| > 0 && currentAchievement.None?) ==> unchanged(this)
      ensures showConfetti == old(showConfetti) && completions == old(completions)
      ensures Valid()
    {
      if |celebrationQueue| > 0 && currentAchievement.None? {
        currentAchievement := Some(celebrationQueue[0]);
        celebrationQueue := celebrationQueue[1..];
      }
    }

    /** The detected achievements replace the queue when there are any;
        then the queue effect runs. */
    method ShowAchievements(found: seq<Achievement>)
      requires Valid()
      modifies this
      ensures Valid()
      ensures found == [] ==> currentAchievement == old(currentAchievement) && celebrationQueue == old(celebrationQueue)
      ensures found != [] && old(currentAchievement).None? ==>
        currentAchievement == Some(found[0]) && celebrationQueue == found[1..]
      ensures found != [] && old(currentAchievement).Some? ==>
        currentAchievement == old(currentAchievement) && celebrationQueue == found
      ensures showConfetti == old(showConfetti) && completions == old(completions)
    {
      if |found| > 0 {
        celebrationQueue := found;
      }
      ProcessQueue();
    }

    /** The performance effect on a completed test with results: confetti
        for a good run, and the detected achievements replace the queue
        when there are any; then the queue effect runs. */
    method TestCompleted(wpm: int, accuracy: int, isTestComplete: bool, hasResults: bool)
      requires Valid()
      modifies this
      ensures Valid()
      ensures !(isTestComplete && hasResults) ==> unchanged(this)
      ensures isTestComplete && hasResults ==>
        var found := DetectAchievements(wpm, accuracy, true);
        && showConfetti == (old(showConfetti) || ShowsConfetti(wpm, accuracy))
        && (found == [] ==> currentAchievement == old(currentAchievement) && celebrationQueue == old(celebrationQueue))
        && (found != [] && old(currentAchievement).None? ==>
              currentAchievement == Some(found[0]) && celebrationQueue == found[1..])
        && (found != [] && old(currentAchievement).Some? ==>
              currentAchievement == old(currentAchievement) && celebrationQueue == found)
      ensures completions == old(completions)
    {
      if isTestComplete && hasResults {
        var achievements := DetectAchievements(wpm, accuracy, true);
        if wpm >= 60 || accuracy >= 90 {
          showConfetti := true;
        }
        ShowAchievements(achievements);
      }
    }

    /** The three-second timeout that hides the confetti. */
    method ConfettiTimeout()
      modifies this
      ensures !showConfetti
      ensures currentAchievement == old(currentAchievement) && celebrationQueue == old(celebrationQueue)
      ensures completions == old(completions)
    {
      showConfetti := false;
    }

    /** `handleAchievementComplete`: the shown achievement goes away; with
        nothing left in the queue the celebration-complete callback runs,
        otherwise the next achievement shows. */
    method AchievementComplete()
      requires Valid()
      modifies this
      ensures Valid()
      ensures old(celebrationQueue) == [] ==>
        currentAchievement.None? && completions == old(completions) + (if hasCallback then 1 else 0)
      ensures old(celebrationQueue) != [] ==>
        && currentAchievement == Some(old(celebrationQueue)[0])
        && celebrationQueue == old(celebrationQueue)[1..]
        && completions == old(completions)
      ensures showConfetti == old(showConfetti)
    {
      currentAchievement := None;
      if |celebrationQueue| == 0 && hasCallback {
        completions := completions + 1;
      }
      ProcessQueue();
    }
  }
}
