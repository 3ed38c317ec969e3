/** The typing-test engine: a ready / active / completed state machine that
    reclassifies every character on each input, keeps an error log with one
    record per position, counts down a sixty-second timer and produces a
    results snapshot. Wall-clock time is the integer-millisecond parameter
    `now`; each interval callback is a method. */
module TypingTest {
  import opened Util
  import opened Calculations
  import opened TextProcessing

  const TestDuration: int := 60

  datatype Passage = Passage(text: string, difficulty: string)

  datatype Status = Ready | Active | Completed

  datatype CharState = Untyped | Correct | Incorrect

  datatype ErrorRecord = ErrorRecord(
    position: int,
    expectedCharacter: string,
    typedCharacter: string,
    timestamp: int,
    corrected: bool)

  datatype Snapshot = Snapshot(timestamp: int, wpm: int, accuracy: int, position: int)

  datatype Performance = Performance(
    wpm: int,
    accuracy: int,
    timeElapsed: int,
    totalCharacters: nat,
    correctCharacters: nat,
    incorrectCharacters: int,
    totalWords: int)

  datatype TestResult = TestResult(
    id: string,
    timestamp: int,
    difficulty: string,
    passage: Passage,
    performance: Performance,
    errors: seq<ErrorRecord>,
    wpmHistory: seq<Snapshot>)

  // ---------------------------------------------------------------------
  // Specification of the per-character classification

  /** How the character typed at index j is judged: correct exactly when
      the passage has the same character there. */
  function Judge(input: string, text: string, j: nat): CharState
    requires j < |input|
  {
    if j < |text| && input[j] == text[j] then Correct else Incorrect
  }

  /** Number of the first k typed characters that match the passage. */
  function Matches(input: string, text: string, k: nat): nat
    requires k <= |input|
  {
    if k == 0 then 0
    else Matches(input, text, k - 1) + (if Judge(input, text, k - 1) == Correct then 1 else 0)
  }

  function MatchCount(input: string, text: string): nat
  {
    Matches(input, text, |input|)
  }

  /** Number of `Correct` entries among the first k states. */
  function CorrectUpTo(states: seq<CharState>, k: nat): nat
    requires k <= |states|
  {
    if k == 0 then 0
    else CorrectUpTo(states, k - 1) + (if states[k - 1] == Correct then 1 else 0)
  }

  /** `characterStates.filter(state => state === 'correct').length`. */
  function CountCorrect(states: seq<CharState>): nat
  {
    CorrectUpTo(states, |states|)
  }

  /** At most one correct character per typed character and per passage
      character. */
  lemma {:induction false} MatchesBound(input: string, text: string, k: nat)
    requires k <= |input|
    ensures Matches(input, text, k) <= Min(k, |text|)
  {
    if k > 0 {
      MatchesBound(input, text, k - 1);
    }
  }

  /** All of the first k typed characters that lie inside the passage
      match it exactly when the count reaches its bound. */
  lemma {:induction false} MatchesAll(input: string, text: string, k: nat)
    requires k <= |input|
    ensures Matches(input, text, k) == Min(k, |text|) <==>
      forall j :: 0 <= j < Min(k, |text|) ==> input[j] == text[j]
  {
    if k > 0 {
      MatchesAll(input, text, k - 1);
      MatchesBound(input, text, k - 1);
    }
  }

  /** The completion rule `newInput.length >= text.length && correctCount
      === text.length` holds exactly when the passage has been typed as a
      prefix of the input without an uncorrected mistake. */
  lemma CompletionMeansPassageTyped(input: string, text: string)
    ensures (|input| >= |text| && MatchCount(input, text) == |text|) <==>
      (|input| >= |text| && input[..|text|] == text)
  {
    MatchesAll(input, text, |input|);
    if |input| >= |text| && input[..|text|] == text {
      assert forall j :: 0 <= j < |text| ==> input[j] == input[..|text|][j];
    }
  }

  lemma {:induction false} CorrectUpToBound(states: seq<CharState>, k: nat)
    requires k <= |states|
    ensures CorrectUpTo(states, k) <= k
  {
    if k > 0 {
      CorrectUpToBound(states, k - 1);
    }
  }

  /** Entries without a `Correct` state past index k add nothing. */
  lemma {:induction false} CorrectUpToTail(states: seq<CharState>, k: nat, m: nat)
    requires k <= m <= |states|
    requires forall j :: k <= j < |states| ==> states[j] != Correct
    ensures CorrectUpTo(states, m) == CorrectUpTo(states, k)
  {
    if m > k {
      CorrectUpToTail(states, k, m - 1);
    }
  }

  /** States that follow the judgement of the input count as many correct
      entries as the input has matches. */
  lemma {:induction false} CorrectUpToJudged(states: seq<CharState>, input: string, text: string, k: nat)
    requires k <= |input| && k <= |states|
    requires forall j :: 0 <= j < k ==> states[j] == Judge(input, text, j)
    ensures CorrectUpTo(states, k) == Matches(input, text, k)
  {
    if k > 0 {
      CorrectUpToJudged(states, input, text, k - 1);
    }
  }

  // ---------------------------------------------------------------------
  // Error log

  predicate HasErrorAt(errors: seq<ErrorRecord>, position: int)
  {
    exists k :: 0 <= k < |errors| && errors[k].position == position
  }

  predicate UniquePositions(errors: seq<ErrorRecord>)
  {
    forall k, l :: 0 <= k < l < |errors| ==> errors[k].position != errors[l].position
  }

  /** A record logged by this input: at a mistyped index, holding the
      expected character ('' past the end of the passage), the typed one,
      the time, and `corrected = false`. */
  predicate NewRecord(e: ErrorRecord, input: string, text: string, now: int)
  {
    && 0 <= e.position < |input|
    && Judge(input, text, e.position) == Incorrect
    && e.expectedCharacter == CharAt(text, e.position)
    && e.typedCharacter == [input[e.position]]
    && e.timestamp == now
    && !e.corrected
  }

  /** The error log after an input: the old log is kept as a prefix, every
      added record is a new record of this input, every mistyped index has
      a record and no position has two. */
  ghost predicate ErrorsAfterInput(text: string, input: string, now: int,
                                   before: seq<ErrorRecord>, after: seq<ErrorRecord>)
  {
    && |before| <= |after| && after[..|before|] == before
    && (forall k :: |before| <= k < |after| ==> NewRecord(after[k], input, text, now))
    && (forall j :: 0 <= j < |input| && Judge(input, text, j) == Incorrect ==> HasErrorAt(after, j))
    && UniquePositions(after)
  }

  /** The log kept by the input loop: the old log as a prefix, then only
      new records of this input, no position twice. */
  predicate LogExtends(text: string, input: string, now: int,
                       before: seq<ErrorRecord>, log: seq<ErrorRecord>)
  {
    && |before| <= |log| && log[..|before|] == before
    && (forall k :: |before| <= k < |log| ==> NewRecord(log[k], input, text, now))
    && UniquePositions(log)
  }

  /** Logging a mistyped index that has no record yet keeps the log an
      extension, records that index and loses no earlier record. */
  lemma LogMistake(text: string, input: string, now: int,
                   before: seq<ErrorRecord>, log: seq<ErrorRecord>, i: int)
    requires LogExtends(text, input, now, before, log)
    requires 0 <= i < |input| && Judge(input, text, i) == Incorrect && !HasErrorAt(log, i)
    ensures var next := log + [ErrorRecord(i, CharAt(text, i), CharAt(input, i), now, false)];
      && LogExtends(text, input, now, before, next)
      && HasErrorAt(next, i)
      && (forall j :: HasErrorAt(log, j) ==> HasErrorAt(next, j))
  {
    var next := log + [ErrorRecord(i, CharAt(text, i), CharAt(input, i), now, false)];
    assert forall k :: 0 <= k < |log| ==> next[k] == log[k];
    assert next[..|before|] == log[..|before|];
    assert next[|log|].position == i;
  }

  /** Every mistyped index below m has a record. */
  predicate LogCovers(text: string, input: string, log: seq<ErrorRecord>, m: nat)
  {
    forall j :: 0 <= j < m && j < |input| && Judge(input, text, j) == Incorrect ==> HasErrorAt(log, j)
  }

  /** A step of the loop that keeps every record and records index i when
      it is mistyped extends the coverage by one index. */
  lemma CoverStep(text: string, input: string, log: seq<ErrorRecord>, next: seq<ErrorRecord>, i: nat)
    requires LogCovers(text, input, log, i)
    requires forall j :: HasErrorAt(log, j) ==> HasErrorAt(next, j)
    requires i < |input| && Judge(input, text, i) == Incorrect ==> HasErrorAt(next, i)
    ensures LogCovers(text, input, next, i + 1)
  {
  }

  /** Index `i` adds one to the count of matches exactly when it is typed
      correctly. */
  lemma MatchesStep(input: string, text: string, i: nat)
    ensures Matches(input, text, Min(i + 1, |input|)) ==
      Matches(input, text, Min(i, |input|)) + (if i < |input| && Judge(input, text, i) == Correct then 1 else 0)
  {
  }

  /** The mistake branch of the loop of `handleInput`: logs index `i`
      unless a record for it is already there. */
  method RecordMistake(text: string, input: string, now: int,
                       errors: seq<ErrorRecord>, log: seq<ErrorRecord>, i: nat)
    returns (next: seq<ErrorRecord>)
    requires LogExtends(text, input, now, errors, log) && LogCovers(text, input, log, i)
    requires i < |input| && Judge(input, text, i) == Incorrect
    ensures LogExtends(text, input, now, errors, next) && LogCovers(text, input, next, i + 1)
    ensures HasErrorAt(log, i) ==> next == log
    ensures !HasErrorAt(log, i) ==> next == log + [ErrorRecord(i, CharAt(text, i), CharAt(input, i), now, false)]
  {
    next := log;
    if !HasErrorAt(log, i) {
      LogMistake(text, input, now, errors, log, i);
      next := log + [ErrorRecord(i, CharAt(text, i), CharAt(input, i), now, false)];
    }
    CoverStep(text, input, log, next, i);
  }

  /** The character states after an input: each typed index judged, typed
      indices past the end appended (the array grows with the input),
      deleted indices inside the passage back to untyped, the rest as they
      were. */
  ghost predicate StatesAfterInput(text: string, input: string, previousPosition: int,
                                   before: seq<CharState>, after: seq<CharState>)
  {
    && |after| == Max(|before|, |input|)
    && (forall j :: 0 <= j < |input| ==> after[j] == Judge(input, text, j))
    && (forall j :: |input| <= j < |after| ==>
          after[j] == (if j < previousPosition && j < |text| then Untyped else before[j]))
  }

  /** No `Correct` state at or after index k. */
  predicate NoCorrectFrom(states: seq<CharState>, k: int)
  {
    forall j :: 0 <= k <= j < |states| ==> states[j] != Correct
  }

  /** JavaScript array write `a[i] = v` for an index at most one past the
      end: inside it overwrites, at the end it appends. */
  function Assign(states: seq<CharState>, i: nat, v: CharState): (r: seq<CharState>)
    requires i <= |states|
    ensures |r| == Max(|states|, i + 1) && r[i] == v
    ensures forall j :: 0 <= j < |states| && j != i ==> r[j] == states[j]
  {
    if i == |states| then states + [v] else states[i := v]
  }

  /** The states kept by the input loop below index i: typed indices
      judged, deleted indices inside the passage back to untyped, the rest
      as they were. */
  predicate StatesSoFar(text: string, input: string, states: seq<CharState>, cur: seq<CharState>, i: nat)
  {
    && |cur| == Max(|states|, Min(i, |input|))
    && (forall j :: 0 <= j < Min(i, |input|) ==> cur[j] == Judge(input, text, j))
    && (forall j :: |input| <= j < i && j < |cur| ==> cur[j] == (if j < |text| then Untyped else states[j]))
    && (forall j :: i <= j < |cur| ==> cur[j] == states[j])
  }

  /** One step of the input loop: index i is judged when typed, reverted
      when deleted inside the passage and left alone otherwise. */
  lemma StatesStep(text: string, input: string, states: seq<CharState>, cur: seq<CharState>, i: nat, v: CharState)
    requires |states| >= |text| && StatesSoFar(text, input, states, cur, i)
    requires i < |input| ==> v == Judge(input, text, i)
    requires |input| <= i < |text| ==> v == Untyped
    ensures i < |input| || i < |text| ==>
      i <= |cur| && StatesSoFar(text, input, states, Assign(cur, i, v), i + 1)
    ensures !(i < |input| || i < |text|) ==> StatesSoFar(text, input, states, cur, i + 1)
  {
  }

  /** When the loop has walked past the input and the previous cursor, the
      states are those after the input, with no `Correct` entry past the
      input or the passage, and count the input's matches. */
  lemma StatesFinal(text: string, input: string, previousPosition: nat, states: seq<CharState>, cur: seq<CharState>)
    requires |states| >= |text|
    requires NoCorrectFrom(states, |text|) && NoCorrectFrom(states, previousPosition)
    requires StatesSoFar(text, input, states, cur, Max(|input|, previousPosition))
    ensures StatesAfterInput(text, input, previousPosition, states, cur)
    ensures NoCorrectFrom(cur, |text|) && NoCorrectFrom(cur, |input|)
    ensures CountCorrect(cur) == MatchCount(input, text)
  {
    var n := |input|;
    assert NoCorrectFrom(cur, n);
    CorrectUpToTail(cur, n, |cur|);
    CorrectUpToJudged(cur, input, text, n);
  }

  /** The loop of `handleInput`: walks the indices below the larger of the
      new input length and the previous cursor position, judging typed
      characters, reverting deleted ones and logging new mistakes. The
      returned count is the number of matching characters, which is also
      the number of `Correct` entries of the new states. */
  method ReclassifyInput(text: string, input: string, previousPosition: nat,
                         states: seq<CharState>, errors: seq<ErrorRecord>, now: int)
    returns (newStates: seq<CharState>, newErrors: seq<ErrorRecord>, correctCount: nat)
    requires |states| >= |text|
    requires NoCorrectFrom(states, |text|) && NoCorrectFrom(states, previousPosition)
    requires UniquePositions(errors)
    ensures StatesAfterInput(text, input, previousPosition, states, newStates)
    ensures ErrorsAfterInput(text, input, now, errors, newErrors)
    ensures correctCount == MatchCount(input, text) && correctCount <= Min(|input|, |text|)
    ensures CountCorrect(newStates) == correctCount
    ensures NoCorrectFrom(newStates, |text|) && NoCorrectFrom(newStates, |input|)
  {
    newStates := states;
    newErrors := errors;
    correctCount := 0;
    var n := |input|;
    var bound := Max(n, previousPosition);
    for i := 0 to bound
      invariant StatesSoFar(text, input, states, newStates, i)
      invariant correctCount == Matches(input, text, Min(i, n))
      invariant LogExtends(text, input, now, errors, newErrors)
      invariant LogCovers(text, input, newErrors, i)
    {
      MatchesStep(input, text, i);
      if i < n {
        var validation := ValidateCharacter(CharAt(input, i), CharAt(text, i));
        assert validation.isCorrect <==> Judge(input, text, i) == Correct;
        if validation.isCorrect {
          StatesStep(text, input, states, newStates, i, Correct);
          newStates := Assign(newStates, i, Correct);
          correctCount := correctCount + 1;
          CoverStep(text, input, newErrors, newErrors, i);
        } else {
          StatesStep(text, input, states, newStates, i, Incorrect);
          newStates := Assign(newStates, i, Incorrect);
          newErrors := RecordMistake(text, input, now, errors, newErrors, i);
        }
      } else {
        StatesStep(text, input, states, newStates, i, Untyped);
        if i < |text| {
          newStates := Assign(newStates, i, Untyped);
        }
        CoverStep(text, input, newErrors, newErrors, i);
      }
    }
    MatchesBound(input, text, n);
    StatesFinal(text, input, previousPosition, states, newStates);
  }

  // ---------------------------------------------------------------------
  // History

  /** Samples at least 1000 ms apart, the last one taken at `last`. */
  predicate HistorySpaced(history: seq<Snapshot>, last: int)
  {
    && (forall k :: 0 < k < |history| ==> history[k - 1].timestamp + 1000 <= history[k].timestamp)
    && (history != [] ==> history[|history| - 1].timestamp == last)
  }

  /** With the first sample at least a second after the start and samples
      a second apart, the k-th sample is at least k+1 seconds after the
      start: the history holds at most one sample per elapsed second. */
  lemma {:induction false} HistoryAtMostOnePerSecond(history: seq<Snapshot>, last: int, start: int, k: nat)
    requires HistorySpaced(history, last)
    requires history != [] ==> start + 1000 <= history[0].timestamp
    requires k < |history|
    ensures start + 1000 * (k + 1) <= history[k].timestamp
  {
    if k > 0 {
      HistoryAtMostOnePerSecond(history, last, start, k - 1);
    }
  }

  function ElapsedSeconds(start: int, now: int): real
  {
    (now - start) as real / 1000.0
  }

  /** The passage effect on the character states: a fresh untyped array
      for a passage with text, the old states otherwise. */
  function StatesForPassage(p: Option<Passage>, states: seq<CharState>): (r: seq<CharState>)
    ensures p.Some? && p.value.text != [] ==> r == Untouched(|p.value.text|)
    ensures !(p.Some? && p.value.text != []) ==> r == states
  {
    if p.Some? && p.value.text != [] then Untouched(|p.value.text|) else states
  }

  /** `text.split('').map(() => 'untyped')`. */
  function Untouched(length: nat): (r: seq<CharState>)
    ensures |r| == length
    ensures forall j :: 0 <= j < length ==> r[j] == Untyped
  {
    if length == 0 then [] else Untouched(length - 1) + [Untyped]
  }

  // ---------------------------------------------------------------------
  // The engine

  class TypingTestEngine {
    var passage: Option<Passage>
    var status: Status
    var userInput: string
    var currentPosition: nat
    var startTime: Option<int>
    var timeRemaining: int
    var wpm: int
    var accuracy: int
    var errors: seq<ErrorRecord>
    var wpmHistory: seq<Snapshot>
    /** Time of the last history sample (the ref starts as null, which
        subtracts as 0). */
    var lastUpdateTime: int
    var characterStates: seq<CharState>
    /** The one-second countdown interval is scheduled. */
    var timerLive: bool
    /** The 100 ms statistics interval is scheduled. */
    var statsLive: bool

    predicate HasText()
      reads this
    {
      passage.Some? && passage.value.text != []
    }

    predicate Valid()
      reads this
    {
      && 0 <= timeRemaining <= TestDuration
      && timerLive == (status == Active) && statsLive == (status == Active)
      && currentPosition == |userInput|
      && (startTime.Some? <==> status != Ready)
      && (status == Ready ==> userInput == [] && errors == [] && wpmHistory == [] && timeRemaining == TestDuration)
      && (status == Active ==> timeRemaining >= 1)
      && UniquePositions(errors)
      && HistorySpaced(wpmHistory, lastUpdateTime)
      && (status != Ready ==> startTime.value <= lastUpdateTime)
      && (status != Ready && wpmHistory != [] ==> startTime.value + 1000 <= wpmHistory[0].timestamp)
      && (HasText() ==>
            && |characterStates| >= |passage.value.text|
            && NoCorrectFrom(characterStates, |passage.value.text|)
            && NoCorrectFrom(characterStates, currentPosition))
    }

    /** The state `resetTest` leaves behind. */
    predicate IsFreshReady()
      reads this
    {
      && status == Ready && userInput == [] && currentPosition == 0 && startTime.None?
      && timeRemaining == TestDuration && wpm == 0 && accuracy == 100
      && errors == [] && wpmHistory == []
      && (HasText() ==> characterStates == Untouched(|passage.value.text|))
      && !timerLive && !statsLive
    }

    /** Initial state, followed by the passage effect. */
    constructor (p: Option<Passage>)
      ensures Valid() && IsFreshReady() && passage == p
      ensures !HasText() ==> characterStates == []
    {
      passage := p;
      status := Ready;
      userInput := [];
      currentPosition := 0;
      startTime := None;
      timeRemaining := TestDuration;
      wpm := 0;
      accuracy := 100;
      errors := [];
      wpmHistory := [];
      lastUpdateTime := 0;
      timerLive := false;
      statsLive := false;
      if p.Some? && p.value.text != [] {
        characterStates := Untouched(|p.value.text|);
      } else {
        characterStates := [];
      }
    }

    /** The passage effect: a passage with text gets a fresh array of
        untyped states of its length; nothing else is touched. */
    method SetPassage(p: Option<Passage>)
      requires Valid()
      modifies this
      ensures Valid() && passage == p
      ensures HasText() ==> characterStates == Untouched(|p.value.text|)
      ensures !HasText() ==> characterStates == old(characterStates)
      ensures status == old(status) && userInput == old(userInput) && currentPosition == old(currentPosition)
      ensures startTime == old(startTime) && timeRemaining == old(timeRemaining)
      ensures wpm == old(wpm) && accuracy == old(accuracy) && errors == old(errors)
      ensures wpmHistory == old(wpmHistory) && lastUpdateTime == old(lastUpdateTime)
      ensures timerLive == old(timerLive) && statsLive == old(statsLive)
    {
      passage := p;
      if p.Some? && p.value.text != [] {
        characterStates := Untouched(|p.value.text|);
      }
    }

    /** `completeTest`: every caller runs it while the test is active. */
    method CompleteTest()
      requires Valid() && status == Active
      modifies this
      ensures Valid() && status == Completed && !timerLive && !statsLive
      ensures passage == old(passage) && userInput == old(userInput) && currentPosition == old(currentPosition)
      ensures startTime == old(startTime) && timeRemaining == old(timeRemaining)
      ensures wpm == old(wpm) && accuracy == old(accuracy) && errors == old(errors)
      ensures wpmHistory == old(wpmHistory) && lastUpdateTime == old(lastUpdateTime)
      ensures characterStates == old(characterStates)
    {
      status := Completed;
      timerLive := false;
      statsLive := false;
    }

    /** `startTest`: acts only from ready; starts both intervals with the
        full sixty seconds on the clock. */
    method StartTest(now: int)
      requires Valid()
      modifies this
      ensures Valid()
      ensures old(status) != Ready ==> unchanged(this)
      ensures old(status) == Ready ==>
        && status == Active && startTime == Some(now) && timeRemaining == TestDuration
        && lastUpdateTime == now && timerLive && statsLive
        && passage == old(passage) && userInput == old(userInput) && currentPosition == old(currentPosition)
        && wpm == old(wpm) && accuracy == old(accuracy) && errors == old(errors)
        && wpmHistory == old(wpmHistory) && characterStates == old(characterStates)
    {
      if status != Ready {
        return;
      }
      status := Active;
      startTime := Some(now);
      timeRemaining := TestDuration;
      lastUpdateTime := now;
      timerLive := true;
      statsLive := true;
    }

    /** One firing of the one-second countdown: above one second it counts
        down, otherwise the clock shows 0 and the test completes. Nothing
        fires once the interval is cleared. */
    method Tick()
      requires Valid()
      modifies this
      ensures Valid()
      ensures !old(timerLive) ==> unchanged(this)
      ensures old(timerLive) && old(timeRemaining) <= 1 ==>
        timeRemaining == 0 && status == Completed && !timerLive && !statsLive
      ensures old(timerLive) && old(timeRemaining) > 1 ==>
        timeRemaining == old(timeRemaining) - 1 && status == Active && timerLive
      ensures passage == old(passage) && userInput == old(userInput) && startTime == old(startTime)
      ensures wpm == old(wpm) && accuracy == old(accuracy) && errors == old(errors)
      ensures wpmHistory == old(wpmHistory) && characterStates == old(characterStates)
      ensures lastUpdateTime == old(lastUpdateTime) && currentPosition == old(currentPosition)
    {
      if !timerLive {
        return;
      }
      if timeRemaining <= 1 {
        CompleteTest();
        timeRemaining := 0;
      } else {
        timeRemaining := timeRemaining - 1;
      }
    }

    /** `updateRealTimeStats`: while active, recompute WPM and accuracy
        from the given (or else counted) correct characters; append a
        history sample only when at least 1000 ms have passed since the
        last one. */
    method UpdateRealTimeStats(now: int, inputLength: int, correctChars: Option<nat>)
      requires Valid()
      modifies this
      ensures Valid()
      ensures !(old(startTime).Some? && old(status) == Active) ==> unchanged(this)
      ensures old(startTime).Some? && old(status) == Active ==>
        var correct := if correctChars.Some? then correctChars.value else CountCorrect(characterStates);
        && wpm == CalculateWPM(correct, ElapsedSeconds(old(startTime).value, now))
        && accuracy == CalculateAccuracy(correct, inputLength)
        && (if now - old(lastUpdateTime) >= 1000
            then wpmHistory == old(wpmHistory) + [Snapshot(now, wpm, accuracy, inputLength)] && lastUpdateTime == now
            else wpmHistory == old(wpmHistory) && lastUpdateTime == old(lastUpdateTime))
      ensures passage == old(passage) && status == old(status) && userInput == old(userInput)
      ensures currentPosition == old(currentPosition) && startTime == old(startTime)
      ensures timeRemaining == old(timeRemaining) && errors == old(errors)
      ensures characterStates == old(characterStates)
      ensures timerLive == old(timerLive) && statsLive == old(statsLive)
    {
      if startTime.None? || status != Active {
        return;
      }
      var timeElapsed := ElapsedSeconds(startTime.value, now);
      var correct := if correctChars.Some? then correctChars.value else CountCorrect(characterStates);
      wpm := CalculateWPM(correct, timeElapsed);
      accuracy := CalculateAccuracy(correct, inputLength);
      if now - lastUpdateTime >= 1000 {
        wpmHistory := wpmHistory + [Snapshot(now, wpm, accuracy, inputLength)];
        lastUpdateTime := now;
      }
    }

    /** One firing of the 100 ms statistics interval. */
    method RefreshStats(now: int)
      requires Valid()
      modifies this
      ensures Valid()
      ensures !old(statsLive) ==> unchanged(this)
      ensures old(statsLive) ==>
        && wpm == CalculateWPM(CountCorrect(characterStates), ElapsedSeconds(old(startTime).value, now))
        && accuracy == CalculateAccuracy(CountCorrect(characterStates), |userInput|)
        && (if now - old(lastUpdateTime) >= 1000
            then wpmHistory == old(wpmHistory) + [Snapshot(now, wpm, accuracy, |userInput|)] && lastUpdateTime == now
            else wpmHistory == old(wpmHistory) && lastUpdateTime == old(lastUpdateTime))
      ensures passage == old(passage) && status == old(status) && userInput == old(userInput)
      ensures currentPosition == old(currentPosition) && startTime == old(startTime)
      ensures timeRemaining == old(timeRemaining) && errors == old(errors)
      ensures characterStates == old(characterStates)
      ensures timerLive == old(timerLive) && statsLive == old(statsLive)
    {
      if statsLive {
        UpdateRealTimeStats(now, |userInput|, None);
      }
    }

    /** `resetTest`: back to the ready state with cleared input, metrics,
        errors and history; the character states are refreshed when the
        passage has text. */
    method ResetTest()
      modifies this
      ensures Valid() && IsFreshReady()
      ensures passage == old(passage) && lastUpdateTime == old(lastUpdateTime)
      ensures !HasText() ==> characterStates == old(characterStates)
    {
      ClearRun();
      characterStates := StatesForPassage(passage, characterStates);
    }

    /** The fields `resetTest` sets to their initial values: all but the
        passage, the character states and the time of the last update. */
    method ClearRun()
      modifies this`status, this`userInput, this`currentPosition, this`startTime, this`timeRemaining
      modifies this`wpm, this`accuracy, this`errors, this`wpmHistory, this`timerLive, this`statsLive
      ensures status == Ready && userInput == [] && currentPosition == 0 && startTime.None?
      ensures timeRemaining == TestDuration && wpm == 0 && accuracy == 100
      ensures errors == [] && wpmHistory == [] && !timerLive && !statsLive
    {
      status, userInput, currentPosition, startTime := Ready, [], 0, None;
      timeRemaining, wpm, accuracy := TestDuration, 0, 100;
      errors, wpmHistory := [], [];
      timerLive, statsLive := false, false;
    }

    /** `handleInput`: ignored unless the test is active with a passage
        that has text. Otherwise the input replaces the old one, every
        character is reclassified, new mistakes are logged, the statistics
        are refreshed from the matching-character count, and the test
        completes exactly when the whole passage has been typed correctly.
        (Its "start on first input" branch cannot run: the status is known
        to be active there.) */
    method HandleInput(newInput: string, now: int)
      requires Valid()
      modifies this
      ensures Valid()
      ensures !(old(status) == Active && old(HasText())) ==> unchanged(this)
      ensures old(status) == Active && old(HasText()) ==>
        var text := old(passage).value.text;
        var correct := MatchCount(newInput, text);
        && passage == old(passage) && startTime == old(startTime)
        && userInput == newInput && currentPosition == |newInput|
        && StatesAfterInput(text, newInput, old(currentPosition), old(characterStates), characterStates)
        && ErrorsAfterInput(text, newInput, now, old(errors), errors)
        && CountCorrect(characterStates) == correct
        && wpm == CalculateWPM(correct, ElapsedSeconds(old(startTime).value, now))
        && accuracy == CalculateAccuracy(correct, |newInput|)
        && (if now - old(lastUpdateTime) >= 1000
            then wpmHistory == old(wpmHistory) + [Snapshot(now, wpm, accuracy, |newInput|)] && lastUpdateTime == now
            else wpmHistory == old(wpmHistory) && lastUpdateTime == old(lastUpdateTime))
        && timeRemaining == old(timeRemaining)
        && (status == Completed <==> |newInput| >= |text| && newInput[..|text|] == text)
        && (status == Completed || status == Active)
    {
      if status != Active || !(passage.Some? && passage.value.text != []) {
        return;
      }
      assert status != Ready;
      var text := passage.value.text;
      userInput := newInput;
      var newStates, newErrors, correctCount :=
        ReclassifyInput(text, newInput, currentPosition, characterStates, errors, now);
      characterStates := newStates;
      currentPosition := |newInput|;
      errors := newErrors;
      UpdateRealTimeStats(now, |newInput|, Some(correctCount));
      CompletionMeansPassageTyped(newInput, text);
      if |newInput| >= |text| && correctCount == |text| {
        CompleteTest();
      }
    }

    /** `handleKeyDown`, reading the status as it was when the key was
        pressed: in ready any key but Tab or Escape starts the test; Escape
        completes an active test and resets a completed one; Ctrl or Meta
        during an active test is blocked (the returned flag). */
    method KeyDown(key: string, ctrlKey: bool, metaKey: bool, now: int) returns (preventDefault: bool)
      requires Valid()
      modifies this
      ensures Valid()
      ensures preventDefault <==> old(status) == Active && (ctrlKey || metaKey)
      ensures old(status) == Ready && key != "Tab" && key != "Escape" ==>
        && status == Active && startTime == Some(now) && timeRemaining == TestDuration
        && lastUpdateTime == now && timerLive && statsLive
        && passage == old(passage) && userInput == old(userInput) && currentPosition == old(currentPosition)
        && wpm == old(wpm) && accuracy == old(accuracy) && errors == old(errors)
        && wpmHistory == old(wpmHistory) && characterStates == old(characterStates)
      ensures old(status) == Active && key == "Escape" ==>
        && status == Completed && !timerLive && !statsLive
        && passage == old(passage) && userInput == old(userInput) && currentPosition == old(currentPosition)
        && startTime == old(startTime) && timeRemaining == old(timeRemaining)
        && wpm == old(wpm) && accuracy == old(accuracy) && errors == old(errors)
        && wpmHistory == old(wpmHistory) && lastUpdateTime == old(lastUpdateTime)
        && characterStates == old(characterStates)
      ensures old(status) == Completed && key == "Escape" ==>
        && IsFreshReady() && passage == old(passage) && lastUpdateTime == old(lastUpdateTime)
        && (!HasText() ==> characterStates == old(characterStates))
      ensures ((old(status) == Ready && (key == "Tab" || key == "Escape")) ||
               (old(status) != Ready && key != "Escape")) ==> unchanged(this)
    {
      var captured := status;
      if captured == Ready && key != "Tab" && key != "Escape" {
        StartTest(now);
      }
      if key == "Escape" {
        if captured == Active {
          CompleteTest();
        } else if captured == Completed {
          ResetTest();
        }
      }
      preventDefault := captured == Active && (ctrlKey || metaKey);
    }

    /** `progress`: share of the passage typed, 0 without passage text. */
    function Progress(): (r: real)
      reads this
      ensures 0.0 <= r <= 100.0
      ensures !HasText() ==> r == 0.0
      ensures HasText() && currentPosition >= |passage.value.text| ==> r == 100.0
      ensures HasText() && currentPosition <= |passage.value.text| ==>
        r * |passage.value.text| as real == 100.0 * currentPosition as real
    {
      if passage.Some? && passage.value.text != [] then CalculateProgress(currentPosition, |passage.value.text|)
      else 0.0
    }

    /** `timeProgress`: share of the sixty seconds used up. */
    function TimeProgress(): (r: real)
      reads this
      requires Valid()
      ensures 0.0 <= r <= 100.0
      ensures status == Ready ==> r == 0.0
      ensures timeRemaining == 0 ==> r == 100.0
      ensures r * TestDuration as real == 100.0 * (TestDuration - timeRemaining) as real
    {
      (TestDuration - timeRemaining) as real / TestDuration as real * 100.0
    }

    /** `getTestResults`: nothing without a passage or a start time;
        otherwise the counts of the character states, the words as
        `ceil(correct / 5)`, and the elapsed seconds (the used-up countdown
        once completed, the rounded wall-clock time before). */
    function Results(now: int): (r: Option<TestResult>)
      reads this
      ensures r.None? <==> passage.None? || startTime.None?
      ensures r.Some? ==>
        var p := r.value.performance;
        && r.value.passage == passage.value && r.value.timestamp == now
        && r.value.difficulty == passage.value.difficulty
        && r.value.errors == errors && r.value.wpmHistory == wpmHistory
        && p.wpm == wpm && p.accuracy == accuracy
        && p.totalCharacters == |userInput| && p.correctCharacters == CountCorrect(characterStates)
        && p.incorrectCharacters == p.totalCharacters - p.correctCharacters
        && 5 * (p.totalWords - 1) < p.correctCharacters <= 5 * p.totalWords
        && (status == Completed ==> p.timeElapsed == TestDuration - timeRemaining)
        && (status != Completed ==> p.timeElapsed == Round(ElapsedSeconds(startTime.value, now)))
      ensures r.Some? ==> |r.value.id| > 5 && r.value.id[..5] == "test-"
      ensures r.Some? && now >= 0 ==> IsDigits(r.value.id[5..]) && DigitsValue(r.value.id[5..]) == now
    {
      if passage.None? || startTime.None? then None
      else
        ResultIdOfTime(now);
        var timeElapsed :=
          if status == Completed then (TestDuration - timeRemaining) as real
          else ElapsedSeconds(startTime.value, now);
        var correct := CountCorrect(characterStates);
        var total := |userInput|;
        var performance := Performance(
          wpm, accuracy, Round(timeElapsed), total, correct, total - correct, (correct + 4) / 5);
        Some(TestResult(
          "test-" + IntToString(now), now, passage.value.difficulty, passage.value,
          performance, errors, wpmHistory))
    }

    /** The result identifier is `test-` and the decimal digits of the
        timestamp, which read back to it. */
    static lemma ResultIdOfTime(now: int)
      ensures var id := "test-" + IntToString(now);
        |id| > 5 && id[..5] == "test-" && id[5..] == IntToString(now)
      ensures now >= 0 ==> IsDigits(IntToString(now)) && DigitsValue(IntToString(now)) == now
    {
      if now >= 0 {
        NatToStringDigits(now);
      }
    }

    /** With a passage that has text, the counted correct characters never
        exceed the typed ones, so the incorrect count is never negative. */
    lemma ResultsCountsConsistent(now: int)
      requires Valid() && HasText() && startTime.Some?
      ensures Results(now).Some?
      ensures 0 <= Results(now).value.performance.incorrectCharacters
    {
      var k := Min(currentPosition, |characterStates|);
      CorrectUpToTail(characterStates, k, |characterStates|);
      CorrectUpToBound(characterStates, k);
    }

    /** The history never holds more samples than whole seconds elapsed
        since the start, up to its last sample. */
    lemma HistoryRate()
      requires Valid() && status != Ready && wpmHistory != []
      ensures startTime.value + 1000 * |wpmHistory| <= wpmHistory[|wpmHistory| - 1].timestamp
    {
      HistoryAtMostOnePerSecond(wpmHistory, lastUpdateTime, startTime.value, |wpmHistory| - 1);
    }
  }
}
