/** The metric arithmetic of the typing test: words per minute, accuracy,
    progress, net WPM, consistency, error rate and the MM:SS clock text.
    Numbers are exact `real`s; `Math.round` is the nearest integer with
    halves rounded up, which is floor(x + 1/2). */
module Calculations {
  import opened Util

  /** `Math.round`. */
  function Round(x: real): (r: int)
    ensures r as real - 0.5 <= x < r as real + 0.5
  {
    (x + 0.5).Floor
  }

  lemma RoundMonotone(x: real, y: real)
    requires x <= y
    ensures Round(x) <= Round(y)
  {
  }

  /** A quotient of a non-negative number by a larger one lies in [0, 1]. */
  lemma QuotientBounds(a: real, b: real)
    requires 0.0 <= a <= b && b > 0.0
    ensures 0.0 <= a / b <= 1.0
    ensures a == b ==> a / b == 1.0
  {
    var q := a / b;
    assert q * b == a;
    assert (1.0 - q) * b == b - a;
    if a == b {
      assert (q - 1.0) * b == 0.0;
    }
  }

  /** Words per minute: a word is five correct characters. A zero elapsed
      time yields 0 instead of a division by zero. */
  function CalculateWPM(correctCharacters: int, timeElapsedSeconds: real): (r: int)
    ensures timeElapsedSeconds == 0.0 ==> r == 0
    ensures timeElapsedSeconds != 0.0 ==> r == Round(12.0 * correctCharacters as real / timeElapsedSeconds)
    ensures correctCharacters >= 0 && timeElapsedSeconds > 0.0 ==> r >= 0
  {
    if timeElapsedSeconds == 0.0 then 0
    else
      var wordsTyped := correctCharacters as real / 5.0;
      var minutes := timeElapsedSeconds / 60.0;
      assert wordsTyped / minutes == 12.0 * correctCharacters as real / timeElapsedSeconds by {
        assert wordsTyped == correctCharacters as real / 5.0;
        assert minutes * (wordsTyped / minutes) == wordsTyped;
      }
      Round(wordsTyped / minutes)
  }

  /** More correct characters in the same time never lower the WPM. */
  lemma WpmMonotone(c1: int, c2: int, seconds: real)
    requires c1 <= c2 && seconds > 0.0
    ensures CalculateWPM(c1, seconds) <= CalculateWPM(c2, seconds)
  {
    assert 12.0 * c1 as real / seconds <= 12.0 * c2 as real / seconds by {
      assert 12.0 * c1 as real <= 12.0 * c2 as real;
    }
    RoundMonotone(12.0 * c1 as real / seconds, 12.0 * c2 as real / seconds);
  }

  /** Accuracy in percent; nothing typed counts as 100. */
  function CalculateAccuracy(correctCharacters: int, totalCharacters: int): (r: int)
    ensures totalCharacters == 0 ==> r == 100
    ensures correctCharacters == totalCharacters ==> r == 100
    ensures 0 <= correctCharacters <= totalCharacters ==> 0 <= r <= 100
    ensures totalCharacters != 0 ==>
      r as real - 0.5 <= correctCharacters as real / totalCharacters as real * 100.0 < r as real + 0.5
  {
    if totalCharacters == 0 then 100
    else
      var ratio := correctCharacters as real / totalCharacters as real;
      if 0 <= correctCharacters <= totalCharacters then
        QuotientBounds(correctCharacters as real, totalCharacters as real);
        Round(ratio * 100.0)
      else
        assert correctCharacters == totalCharacters ==> ratio == 1.0;
        Round(ratio * 100.0)
  }

  /** With the same number of characters typed, more of them correct never
      lowers the accuracy. */
  lemma AccuracyMonotone(c1: int, c2: int, total: int)
    requires c1 <= c2 && total > 0
    ensures CalculateAccuracy(c1, total) <= CalculateAccuracy(c2, total)
  {
    assert c1 as real / total as real <= c2 as real / total as real;
    RoundMonotone(c1 as real / total as real * 100.0, c2 as real / total as real * 100.0);
  }

  /** Progress through the passage in percent, capped at 100. */
  function CalculateProgress(currentPosition: int, totalLength: int): (r: real)
    ensures totalLength == 0 ==> r == 0.0
    ensures r <= 100.0
    ensures totalLength > 0 && currentPosition >= 0 ==> r >= 0.0
    ensures totalLength > 0 && currentPosition >= totalLength ==> r == 100.0
    ensures totalLength > 0 && currentPosition <= totalLength ==>
      r * totalLength as real == 100.0 * currentPosition as real
    ensures totalLength != 0 ==> r == 100.0 || r * totalLength as real == 100.0 * currentPosition as real
    ensures totalLength > 0 ==> r * totalLength as real <= 100.0 * currentPosition as real
    ensures totalLength < 0 ==> r * totalLength as real >= 100.0 * currentPosition as real
  {
    if totalLength == 0 then 0.0
    else
      var p := currentPosition as real / totalLength as real * 100.0;
      assert p * totalLength as real == 100.0 * currentPosition as real;
      assert totalLength > 0 && currentPosition >= totalLength ==> p >= 100.0 by {
        if totalLength > 0 && currentPosition >= totalLength {
          assert currentPosition as real / totalLength as real >= 1.0;
        }
      }
      if p <= 100.0 then p else 100.0
  }

  /** Typing further never lowers the progress. */
  lemma ProgressMonotone(p1: int, p2: int, totalLength: int)
    requires p1 <= p2 && totalLength > 0
    ensures CalculateProgress(p1, totalLength) <= CalculateProgress(p2, totalLength)
  {
    assert p1 as real / totalLength as real <= p2 as real / totalLength as real;
  }

  /** Net WPM: gross WPM minus errors per minute, never below zero. */
  function CalculateNetWPM(grossWPM: real, errors: int, timeElapsedMinutes: real): (r: int)
    ensures timeElapsedMinutes == 0.0 ==> r == 0
    ensures r >= 0
    ensures timeElapsedMinutes > 0.0 && errors >= 0 ==> r <= Max(0, Round(grossWPM))
    ensures timeElapsedMinutes != 0.0 && r > 0 ==>
      r as real - 0.5 <= grossWPM - errors as real / timeElapsedMinutes < r as real + 0.5
    ensures timeElapsedMinutes != 0.0 && r == 0 ==> grossWPM - errors as real / timeElapsedMinutes < 0.5
  {
    if timeElapsedMinutes == 0.0 then 0
    else
      var errorPenalty := errors as real / timeElapsedMinutes;
      assert timeElapsedMinutes > 0.0 && errors >= 0 ==>
          Round(grossWPM - errorPenalty) <= Round(grossWPM) by {
        if timeElapsedMinutes > 0.0 && errors >= 0 {
          assert errorPenalty >= 0.0;
          RoundMonotone(grossWPM - errorPenalty, grossWPM);
        }
      }
      Max(0, Round(grossWPM - errorPenalty))
  }

  /** Errors per minute, rounded; zero minutes yields 0. */
  function CalculateErrorRate(errors: int, timeElapsedMinutes: real): (r: int)
    ensures timeElapsedMinutes == 0.0 ==> r == 0
    ensures timeElapsedMinutes != 0.0 ==>
      r as real - 0.5 <= errors as real / timeElapsedMinutes < r as real + 0.5
    ensures timeElapsedMinutes > 0.0 && errors >= 0 ==> r >= 0
  {
    if timeElapsedMinutes == 0.0 then 0
    else
      assert timeElapsedMinutes > 0.0 && errors >= 0 ==> errors as real / timeElapsedMinutes >= 0.0;
      Round(errors as real / timeElapsedMinutes)
  }

  // ---------------------------------------------------------------------
  // Consistency

  function Sum(h: seq<int>): int
  {
    if h == [] then 0 else Sum(h[..|h| - 1]) + h[|h| - 1]
  }

  function SquaredDeviations(h: seq<int>, mean: real): real
  {
    if h == [] then 0.0
    else
      var d := h[|h| - 1] as real - mean;
      SquaredDeviations(h[..|h| - 1], mean) + d * d
  }

  /** Consistency score. Fewer than two samples score 100. Otherwise the
      source computes 100 - stddev/mean*100 (clamped at 0, rounded); the
      model computes the exact mean and variance and returns the score when
      the deviation is zero and the mean is not (the score is then 100).
      A non-zero variance needs a square root and a zero mean gives NaN:
      both are `None` here. */
  function CalculateConsistency(wpmHistory: seq<int>): (r: Option<int>)
    ensures |wpmHistory| < 2 ==> r == Some(100)
    ensures r.Some? ==> r.value == 100
  {
    if |wpmHistory| < 2 then Some(100)
    else
      var n := |wpmHistory| as real;
      var mean := Sum(wpmHistory) as real / n;
      var variance := SquaredDeviations(wpmHistory, mean) / n;
      if variance == 0.0 && mean != 0.0 then
        var standardDeviation := 0.0;
        var score := 100.0 - (standardDeviation / mean) * 100.0;
        Some(Round(if score >= 0.0 then score else 0.0))
      else None
  }

  ghost predicate AllEqual(h: seq<int>)
  {
    forall i :: 0 <= i < |h| ==> h[i] == h[0]
  }

  lemma {:induction false} SumConstant(h: seq<int>, v: int)
    requires forall i :: 0 <= i < |h| ==> h[i] == v
    ensures Sum(h) == |h| * v
  {
    if h != [] {
      SumConstant(h[..|h| - 1], v);
    }
  }

  lemma {:induction false} DeviationsOfConstant(h: seq<int>, v: int)
    requires forall i :: 0 <= i < |h| ==> h[i] == v
    ensures SquaredDeviations(h, v as real) == 0.0
  {
    if h != [] {
      DeviationsOfConstant(h[..|h| - 1], v);
    }
  }

  /** A history of equal non-zero WPM samples is perfectly consistent. */
  lemma SteadyHistoryIsConsistent(wpmHistory: seq<int>)
    requires |wpmHistory| >= 2 && AllEqual(wpmHistory) && wpmHistory[0] != 0
    ensures CalculateConsistency(wpmHistory) == Some(100)
  {
    var v := wpmHistory[0];
    var n := |wpmHistory|;
    SumConstant(wpmHistory, v);
    assert Sum(wpmHistory) as real / n as real == v as real by {
      assert Sum(wpmHistory) as real == n as real * v as real;
    }
    DeviationsOfConstant(wpmHistory, v);
  }

  // ---------------------------------------------------------------------
  // MM:SS clock text

  function DigitChar(d: int): char
    requires 0 <= d < 10
  {
    (48 + d) as char
  }

  /** Every character is a decimal digit. */
  predicate IsDigits(s: string)
  {
    s == [] || (IsDigits(s[..|s| - 1]) && '0' <= s[|s| - 1] <= '9')
  }

  /** The value of a decimal digit string (leading zeros allowed). */
  function DigitsValue(s: string): nat
    requires IsDigits(s)
  {
    if s == [] then 0
    else DigitsValue(s[..|s| - 1]) * 10 + (s[|s| - 1] as int - '0' as int)
  }

  /** `Number.prototype.toString()` of a non-negative integer. */
  function NatToString(n: nat): (s: string)
    ensures 1 <= |s|
  {
    if n < 10 then [DigitChar(n)] else NatToString(n / 10) + [DigitChar(n % 10)]
  }

  /** `Number.prototype.toString()` of an integer. */
  function IntToString(i: int): (s: string)
    ensures i >= 0 ==> s == NatToString(i)
    ensures i < 0 ==> s == "-" + NatToString(-i)
  {
    if i < 0 then "-" + NatToString(-i) else NatToString(i)
  }

  /** `String.prototype.padStart(2, '0')`. */
  function PadStart2(s: string): (r: string)
    ensures |r| == Max(2, |s|)
  {
    if |s| >= 2 then s else if |s| == 1 then "0" + s else "00"
  }

  /** JavaScript's `%` for a positive divisor: the remainder takes the sign
      of the dividend. */
  function JsRem(a: int, b: int): (r: int)
    requires b > 0
    ensures a >= 0 ==> 0 <= r < b && a == (a / b) * b + r
    ensures a < 0 ==> -b < r <= 0
  {
    if a >= 0 then a % b else -((-a) % b)
  }

  /** Two numbers as clock text: each padded to two digits, joined by ':'. */
  function Clock(minutes: int, seconds: int): (r: string)
    ensures |r| >= 5
  {
    PadStart2(IntToString(minutes)) + ":" + PadStart2(IntToString(seconds))
  }

  /** `formatTime`: whole minutes and the remaining seconds as clock text. */
  function FormatTime(seconds: int): (r: string)
    ensures |r| >= 5
  {
    var minutes := seconds / 60;
    var remainingSeconds := JsRem(seconds, 60);
    Clock(minutes, remainingSeconds)
  }

  /** Reads an MM:SS text back as a number of seconds: the last three
      characters are ':' and two digits, everything before is minutes. */
  function ClockValue(t: string): (r: Option<int>)
  {
    if |t| >= 4 && t[|t| - 3] == ':' then ReadClock(t[..|t| - 3], t[|t| - 2..]) else None
  }

  /** The seconds shown by a minutes field and a seconds field below 60. */
  function ReadClock(minutesText: string, secondsText: string): Option<int>
  {
    if IsDigits(minutesText) && IsDigits(secondsText) && DigitsValue(secondsText) < 60
    then Some(DigitsValue(minutesText) * 60 + DigitsValue(secondsText))
    else None
  }

  lemma {:induction false} NatToStringDigits(n: nat)
    ensures IsDigits(NatToString(n)) && DigitsValue(NatToString(n)) == n
    ensures n < 100 ==> |NatToString(n)| <= 2
  {
    var s := NatToString(n);
    if n < 10 {
      assert s[..|s| - 1] == [];
    } else {
      NatToStringDigits(n / 10);
      assert s[..|s| - 1] == NatToString(n / 10);
    }
  }

  lemma {:induction false} LeadingZeroKeepsValue(s: string)
    requires IsDigits(s)
    ensures IsDigits(['0'] + s) && DigitsValue(['0'] + s) == DigitsValue(s)
  {
    var t := ['0'] + s;
    if s != [] {
      assert t[..|t| - 1] == ['0'] + s[..|s| - 1];
      LeadingZeroKeepsValue(s[..|s| - 1]);
    }
  }

  lemma PadStart2Digits(s: string)
    requires IsDigits(s)
    ensures IsDigits(PadStart2(s)) && DigitsValue(PadStart2(s)) == DigitsValue(s)
  {
    if |s| == 1 {
      assert PadStart2(s) == ['0'] + s;
      LeadingZeroKeepsValue(s);
    } else if |s| == 0 {
      assert PadStart2(s) == ['0'] + (['0'] + s);
      LeadingZeroKeepsValue(s);
      LeadingZeroKeepsValue(['0'] + s);
    }
  }

  /** Clock text splits at the colon into its two fields, so it reads back
      as whatever those fields read back as. */
  lemma ClockOfParts(m: string, sec: string, v: int)
    requires |m| >= 1 && |sec| == 2 && ReadClock(m, sec) == Some(v)
    ensures ClockValue(m + ":" + sec) == Some(v)
  {
    var r := m + ":" + sec;
    assert |r| == |m| + 3 && r[|r| - 3] == ':';
    assert r[..|r| - 3] == m;
    assert r[|r| - 2..] == sec;
  }

  /** Zero-padded digit fields read back as the numbers they hold. */
  lemma PaddedClockOfDigits(ms: string, ss: string)
    requires IsDigits(ms) && IsDigits(ss) && |ss| <= 2 && DigitsValue(ss) < 60
    ensures |PadStart2(ms)| >= 2 && |PadStart2(ss)| == 2
    ensures ReadClock(PadStart2(ms), PadStart2(ss)) == Some(DigitsValue(ms) * 60 + DigitsValue(ss))
  {
    PadStart2Digits(ms);
    PadStart2Digits(ss);
  }

  /** Non-negative numbers are shown by their decimal digits. */
  lemma ClockOfNats(minutes: nat, seconds: nat)
    ensures Clock(minutes, seconds) == PadStart2(NatToString(minutes)) + ":" + PadStart2(NatToString(seconds))
  {
  }

  /** Minutes and seconds below 60, as clock text, read back to the
      seconds they stand for. */
  lemma ClockRoundTrip(minutes: nat, seconds: nat)
    requires seconds < 60
    ensures ClockValue(Clock(minutes, seconds)) == Some(minutes * 60 + seconds)
  {
    NatToStringDigits(minutes);
    NatToStringDigits(seconds);
    var ms, ss := NatToString(minutes), NatToString(seconds);
    PaddedClockOfDigits(ms, ss);
    ClockOfParts(PadStart2(ms), PadStart2(ss), minutes * 60 + seconds);
    ClockOfNats(minutes, seconds);
  }

  /** For a non-negative number of seconds, `formatTime` shows the whole
      minutes and the remaining seconds below 60, and the text reads back
      as the same number of seconds. */
  lemma FormatTimeRoundTrip(seconds: int)
    requires seconds >= 0
    ensures FormatTime(seconds) == Clock(seconds / 60, seconds % 60) && seconds % 60 < 60
    ensures ClockValue(FormatTime(seconds)) == Some(seconds)
  {
    ClockRoundTrip(seconds / 60, seconds % 60);
  }
}
