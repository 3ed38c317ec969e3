# Typing speed test — a verified model

This project models the logic of a browser typing-speed test in Dafny. A user
types a passage against a 60-second countdown. Each keystroke reclassifies
every character as correct, incorrect or untyped, and logs mistakes once per
position. The test completes when the time runs out or the passage is typed
exactly. The model then derives words per minute, accuracy, progress and a
results snapshot, and a celebration layer awards achievements and confetti.

The model has these parts:

- `util.dfy`: `Option`, `Min` and `Max`.
- `calculations.dfy` (`Calculations`): the metric arithmetic and the `MM:SS` clock text.
  - Numbers are `real`, and `Math.round` is `floor(x + 1/2)`.
  - JavaScript's `%` is written out as `JsRem`.
  - The clock text is proved to read back to the seconds it shows.
- `text_processing.dfy` (`TextProcessing`):
  - per-character validation and error analysis;
  - word splitting, whitespace normalisation and cursor slicing;
  - punctuation density.

  The JavaScript `\s` class is spelled out in full, for characters of the Basic Multilingual Plane.
- `typing_test.dfy` (`TypingTest`): the test engine, written as the class `TypingTestEngine`.
  - It is a ready / active / completed state machine with a countdown tick.
  - Time is an integer-millisecond parameter `now`.
  - The two intervals become two flags that are set exactly while the test is active.
  - The per-keystroke reclassification loop is a method proved against specification predicates.
- `timer_hook.dfy` (`TimerHook`): the two timer hooks, written as the classes `CountdownTimer` and `SimpleTimer`.
  - `CountdownTimer` has start, pause, resume, stop, reset and elapsed time across pauses.
  - `SimpleTimer` is a countdown with a completion callback. `completions` counts calls of that callback.
  - Intervals are counted: `scheduled` is the number of one-second intervals still firing, and `held` says whether the interval ref holds one.
  - Starting over a held ref leaks the old interval, as in the source.
- `timer_display.dfy` (`TimerDisplay`): the timer component.
  - It covers urgency bands, messages, icons and motivation lines.
  - It also covers the elapsed / total breakdown, which uses the same clock text as `Calculations.FormatTime`.
  - Its progress percentage is `TimerHook.ProgressPercent`: `src/components/Timer.jsx` line 31 uses the same formula as the hook.
- `text_display.dfy` (`TextDisplay`): the word under the cursor.
- `celebration.dfy` (`Celebration`): achievement detection, the confetti rules and the achievement queue, written as the class `CelebrationManager`.

Callbacks that fire from intervals or timeouts become explicit methods (`Tick`,
`RefreshStats`, `ConfettiTimeout`). A React effect that runs after a state
change is called at the end of the method that makes the change. Where a
handler reads state captured when it was created, the model reads the value
from before the call.

## Model

| member | source | states |
|---|---|---|
| Calculations.Round | src/utils/calculations.js:18 | `Math.round`: the result is within one half of the argument, and halves round up |
| Calculations.RoundMonotone | src/utils/calculations.js:18 | rounding preserves order |
| Calculations.CalculateWPM | src/utils/calculations.js:13-19 | 0 when no time has elapsed; otherwise the rounded `12 * correct / seconds` (five characters a word, per minute); non-negative for non-negative input |
| Calculations.WpmMonotone | src/utils/calculations.js:13-19 | more correct characters in the same time never lower the WPM |
| Calculations.CalculateAccuracy | src/utils/calculations.js:27-30 | 100 when nothing was typed or everything typed is correct; between 0 and 100 whenever `0 <= correct <= total`; for a non-zero total, `100 * correct / total` rounded to within one half, halves up |
| Calculations.AccuracyMonotone | src/utils/calculations.js:27-30 | more correct characters never lower the accuracy |
| Calculations.CalculateProgress | src/utils/calculations.js:38-41 | 0 for an empty passage; for a positive length, `min(100 · position / length, 100)`: exactly `100 · position / length` up to the end, 100 at or past it, never above 100 and never negative for a non-negative position; for a non-zero length the value is 100 or the exact share, and never above the exact share |
| Calculations.ProgressMonotone | src/utils/calculations.js:38-41 | progress never decreases as the position advances |
| Calculations.CalculateNetWPM | src/utils/calculations.js:50-54 | 0 when no time has elapsed; never negative; errors never raise it above the rounded gross WPM; otherwise a positive result is `gross - errors / minutes` rounded to within one half, and 0 means that difference is below one half |
| Calculations.CalculateErrorRate | src/utils/calculations.js:90-93 | 0 when no time has elapsed; otherwise errors per minute rounded to within one half; non-negative |
| Calculations.CalculateConsistency | src/utils/calculations.js:61-71 | 100 for a history of fewer than two samples; any score the model determines is 100 |
| Calculations.SteadyHistoryIsConsistent | src/utils/calculations.js:61-71 | a history of two or more equal, non-zero speeds has deviation 0 and scores 100 |
| Calculations.JsRem | src/utils/calculations.js:80 | JavaScript `%` for a positive divisor: the ordinary remainder for a non-negative dividend, a value in `(-b, 0]` for a negative one |
| Calculations.PadStart2 | src/utils/calculations.js:81 | `padStart(2, '0')` yields `max(2, length)` characters |
| Calculations.NatToStringDigits | src/utils/calculations.js:81 | `toString` of a natural number is a string of decimal digits whose value is the number, at most two digits below 100 |
| Calculations.PadStart2Digits | src/utils/calculations.js:81 | zero-padding keeps the digits' value |
| Calculations.ClockOfParts | src/utils/calculations.js:81 | clock text splits at the colon: a minutes field, `:` and a two-character seconds field read back as the two fields do |
| Calculations.PaddedClockOfDigits | src/utils/calculations.js:81 | zero-padded digit fields, with the seconds below 60, read back as `60 * minutes + seconds`; the padded seconds field has exactly two characters |
| Calculations.ClockRoundTrip | src/utils/calculations.js:81 | `MM:SS` built from minutes and seconds below 60 reads back to `60 * minutes + seconds` |
| Calculations.FormatTime | src/utils/calculations.js:78-82 | the clock text has at least five characters |
| Calculations.FormatTimeRoundTrip | src/utils/calculations.js:78-82 | for non-negative seconds: the text is the clock of the whole minutes and the remaining seconds, which are below 60, and it reads back to `seconds` |
| TextProcessing.ContainsPunctuation | src/utils/textProcessing.js:100 | `/[^\w\s]/.test`: true exactly when some character is neither a word character nor whitespace |
| TextProcessing.ContainsAlphanumeric | src/utils/textProcessing.js:101 | `/[a-zA-Z0-9]/.test`: true exactly when some character is an ASCII letter or digit |
| TextProcessing.ValidateCharacter | src/utils/textProcessing.js:94-103 | correct exactly when typed equals expected; space exactly when expected is `" "`; the punctuation and alphanumeric flags hold exactly when such a character occurs in expected |
| TextProcessing.ValidationEdgeCases | src/utils/textProcessing.js:94-103 | underscore is neither punctuation nor alphanumeric; there is no case folding; two empty strings match |
| TextProcessing.GetErrorType | src/utils/textProcessing.js:142-147 | `none` exactly when the strings are equal; omission exactly for nothing typed where something was expected; insertion exactly for the reverse |
| TextProcessing.ErrorsBeforeReport | src/utils/textProcessing.js:115-126 | every record of the scan up to `n` is a correct report of a differing position below `n` |
| TextProcessing.ErrorsBeforeOrdered | src/utils/textProcessing.js:115-126 | the scan's positions strictly increase |
| TextProcessing.ErrorsBeforeHas | src/utils/textProcessing.js:115-126 | a differing position below `n` has a record |
| TextProcessing.ErrorsBeforeComplete | src/utils/textProcessing.js:115-126 | every differing position below `n` has a record |
| TextProcessing.AnalyzeErrors | src/utils/textProcessing.js:111-134 | every record is a differing position with its typed and expected characters and its error type; positions strictly increase; every differing position below the longer of the two lengths is reported; `totalErrors` is the count; the error rate is the error count over the expected length, times 100, or 0 for an empty expected text |
| TextProcessing.Trim | src/utils/textProcessing.js:21 | `trim()`: the result is a slice of the input with only whitespace cut on either side, and it neither starts nor ends with whitespace |
| TextProcessing.SplitOnSpaceRuns | src/utils/textProcessing.js:21 | `split(/\s+/)`: at least one piece, and no piece contains whitespace |
| TextProcessing.SplitJoin | src/utils/textProcessing.js:21 | the pieces joined by single spaces are the text with each whitespace run collapsed to one space; as no piece holds whitespace, the pieces are exactly the maximal non-whitespace runs, with an empty first or last piece for whitespace at that end |
| TextProcessing.SplitOfTrimmed | src/utils/textProcessing.js:21 | a text without whitespace at either end splits into non-empty pieces only |
| TextProcessing.FilterNonEmpty | src/utils/textProcessing.js:21 | keeps only non-empty pieces, each taken from the input |
| TextProcessing.SplitIntoWords | src/utils/textProcessing.js:20-22 | every word is non-empty and free of whitespace |
| TextProcessing.NormalizeIsJoinedWords | src/utils/textProcessing.js:20-22 | the words joined by single spaces are the normalised text, so the words are exactly the maximal non-whitespace runs of the text, in order |
| TextProcessing.CountWords | src/utils/textProcessing.js:29-31 | zero exactly when the text has no character other than whitespace |
| TextProcessing.ConcatOfSplit | src/utils/textProcessing.js:21 | the pieces of a split, joined, are the text with its whitespace removed |
| TextProcessing.ConcatOfFilter | src/utils/textProcessing.js:21 | dropping empty pieces does not change the joined text |
| TextProcessing.RemoveSpacesOfTrim | src/utils/textProcessing.js:21 | trimming removes only whitespace |
| TextProcessing.WordsKeepText | src/utils/textProcessing.js:20-22 | the words, joined, are exactly the text's non-whitespace characters in order: splitting loses and invents nothing |
| TextProcessing.CountWordsBound | src/utils/textProcessing.js:29-31 | the word count is at most the number of non-whitespace characters, which is at most the length |
| TextProcessing.CollapseSpaces | src/utils/textProcessing.js:203 | `replace(/\s+/g, ' ')`: empty exactly for empty input; the first and the last character are kept, or become a blank when they are whitespace |
| TextProcessing.CollapseIsNormal | src/utils/textProcessing.js:203 | every whitespace character of the result is a blank, and no two whitespace characters are adjacent |
| TextProcessing.CollapseKeepsText | src/utils/textProcessing.js:203 | every character other than whitespace is kept, in order |
| TextProcessing.CollapseOfWordPrefix | src/utils/textProcessing.js:203 | a prefix without whitespace passes through unchanged |
| TextProcessing.CollapseOfGapPrefix | src/utils/textProcessing.js:203 | a whitespace run up to a non-whitespace character or the end becomes one blank |
| TextProcessing.CollapseAppend | src/utils/textProcessing.js:203 | after a non-whitespace character, what follows collapses independently |
| TextProcessing.NormalizeText | src/utils/textProcessing.js:201-205 | no leading or trailing whitespace, no two adjacent whitespace characters, all whitespace is the blank, and every other character is kept in order |
| TextProcessing.CollapseOfNormal | src/utils/textProcessing.js:203 | collapsing a text that is already collapsed changes nothing |
| TextProcessing.TrimOfTrimmed | src/utils/textProcessing.js:204 | trimming a trimmed text changes nothing |
| TextProcessing.NormalizeIdempotent | src/utils/textProcessing.js:201-205 | normalising twice gives the same result as normalising once |
| TextProcessing.GetCharacterPosition | src/utils/textProcessing.js:213-225 | inside the text, before, current and after reassemble the text, with before of length `position`; `isEnd` exactly at or past the end; the cases past the end and before the start; `lineBreaks` counts the newlines before the cursor |
| TextProcessing.CountPunctuation | src/utils/textProcessing.js:59 | the number of positions holding a character that is neither a word character nor whitespace; at most the length, and 0 exactly when there is none |
| TextProcessing.CalculatePunctuationDensity | src/utils/textProcessing.js:56-61 | 0 for an empty text or a text without punctuation; always between 0 and 100; otherwise the number of punctuation positions over the length, times 100, rounded to within one half |
| TypingTest.MatchesBound | src/hooks/useTypingTest.js:159-170 | the correct count over the first `k` typed characters is at most the smaller of `k` and the passage length |
| TypingTest.MatchesAll | src/hooks/useTypingTest.js:159-170 | the count reaches the smaller of `k` and the passage length exactly when every compared character matches |
| TypingTest.CompletionMeansPassageTyped | src/hooks/useTypingTest.js:200-202 | the completion rule holds exactly when the input starts with the whole passage |
| TypingTest.CorrectUpToJudged | src/hooks/useTypingTest.js:161-170 | counting the correct states reproduces the loop's `correctCount` |
| TypingTest.Assign | src/hooks/useTypingTest.js:169 | an array write at an index up to the length: the array grows by one at the end, and other entries keep their value |
| TypingTest.LogMistake | src/hooks/useTypingTest.js:174-183 | logging a mistyped index that has no record keeps the old log as a prefix and positions unique, records that index and loses no earlier record |
| TypingTest.CoverStep | src/hooks/useTypingTest.js:160-189 | a loop step that keeps every record and records a mistyped index extends the coverage of mistyped indices by one |
| TypingTest.StatesStep | src/hooks/useTypingTest.js:164-188 | one loop step: a typed index takes its judgement, a deleted index inside the passage becomes untyped, and every other index keeps its state |
| TypingTest.StatesFinal | src/hooks/useTypingTest.js:160-189 | once the loop has passed the input and the old cursor, the states are those after the input, no `Correct` state lies past the input or the passage, and the correct states number the matches |
| TypingTest.ReclassifyInput | src/hooks/useTypingTest.js:157-194 | every typed index is correct or incorrect by comparison with the passage, including indices past its end; deleted indices inside the passage revert to untyped, and all others keep their state; the error log only grows, gains one record per new incorrect position with the expected (empty past the end) and typed characters and `corrected = false`, and keeps positions unique; `correctCount` is the number of matches and at most the smaller of the input and passage lengths |
| TypingTest.HistoryAtMostOnePerSecond | src/hooks/useTypingTest.js:78-86 | with samples at least 1000 ms apart, the k-th sample is at least `1000 * (k + 1)` ms after the start |
| TypingTest.Untouched | src/hooks/useTypingTest.js:37 | a fresh state array of the passage's length, all untyped |
| TypingTest.StatesForPassage | src/hooks/useTypingTest.js:129-132 | a fresh untyped array for a non-empty passage; otherwise the states are kept |
| TypingTest.TypingTestEngine.constructor | src/hooks/useTypingTest.js:35-40 | a fresh ready engine; the states are untyped and as long as the passage |
| TypingTest.TypingTestEngine.SetPassage | src/hooks/useTypingTest.js:35-40 | a passage with text gets a fresh untyped array of its length; nothing else changes |
| TypingTest.TypingTestEngine.CompleteTest | src/hooks/useTypingTest.js:43-55 | status becomes completed and both intervals stop; nothing else changes |
| TypingTest.TypingTestEngine.UpdateRealTimeStats | src/hooks/useTypingTest.js:58-87 | nothing happens unless the test is active and started; then WPM and accuracy from the given or counted correct characters, and a history sample only when at least 1000 ms passed since the last one |
| TypingTest.TypingTestEngine.StartTest | src/hooks/useTypingTest.js:90-98 | acts only when ready: active, started now, 60 s left, both intervals live |
| TypingTest.TypingTestEngine.Tick | src/hooks/useTypingTest.js:100-108 | one countdown second: above 1 it decrements; at 1 or less it sets 0 and completes; remaining time is never negative; nothing happens without a live timer; the input, statistics, history, position and last sample time are kept |
| TypingTest.TypingTestEngine.RefreshStats | src/hooks/useTypingTest.js:111-113 | while the stats interval is live, WPM and accuracy are recomputed from the counted correct characters and a history sample is added only when at least 1000 ms passed since the last one; otherwise nothing changes; the input, position, status, start time, remaining time, errors, states and intervals are always kept |
| TypingTest.TypingTestEngine.ResetTest | src/hooks/useTypingTest.js:117-143 | back to a fresh ready state: empty input, position 0, no start time, 60 s, WPM 0, accuracy 100, no errors or history, both intervals cleared, and fresh untyped states for a passage with text |
| TypingTest.TypingTestEngine.HandleInput | src/hooks/useTypingTest.js:146-203 | a no-op unless active with a passage; otherwise the reclassification of `ReclassifyInput`, the position equals the input length, the stats are updated from the match count, a history sample is taken and the last sample time set to `now` exactly when 1000 ms have passed since the last one (otherwise both are kept), and the test completes exactly when the input starts with the whole passage |
| TypingTest.TypingTestEngine.KeyDown | src/hooks/useTypingTest.js:206-225 | when ready, any key but Tab or Escape starts the test with `startTest`'s whole new state; Escape completes an active test, with every other field kept, and resets a completed one to the fresh ready state; the default is prevented exactly for Ctrl or Meta while active; every other key changes nothing |
| TypingTest.TypingTestEngine.Progress | src/hooks/useTypingTest.js:228 | between 0 and 100; 0 without passage text; with text, exactly `100 · position / length` up to the end and 100 at or past it |
| TypingTest.TypingTestEngine.TimeProgress | src/hooks/useTypingTest.js:231 | exactly `100 · (60 - remaining) / 60`; between 0 and 100; 0 before the start; 100 when no time remains |
| TypingTest.TypingTestEngine.Results | src/hooks/useTypingTest.js:234-262 | none exactly without a passage or start time; otherwise incorrect is typed minus correct, total words is the rounded-up fifth of correct, and elapsed time is `60 - remaining` once completed; the difficulty is the passage's and the rounded wall-clock seconds before; the identifier is `test-` and the decimal digits of the timestamp, which read back to it |
| TypingTest.TypingTestEngine.ResultsCountsConsistent | src/hooks/useTypingTest.js:241-243 | in any reachable state with a passage that has text and a start time, the incorrect count is never negative |
| TypingTest.TypingTestEngine.HistoryRate | src/hooks/useTypingTest.js:78-86 | the last history sample is at least `1000 * samples` ms after the start: at most one sample a second |
| TimerHook.ProgressPercent | src/hooks/useTimer.js:107-109 | undefined exactly for an initial time of 0; otherwise exactly `100 · (initial - remaining) / initial`: 0 at the initial time, 100 at 0, and between the two for a remaining time in range; the timer component computes its progress percentage with the same formula over the total time |
| TimerHook.UrgencyOf | src/hooks/useTimer.js:124-129 | for a positive initial time: critical exactly at 10% or less remaining, warning exactly above 10% and at 25% or less, normal above 25%; for an initial time of 0, critical exactly for a negative remaining time |
| TimerHook.UrgencyMonotone | src/hooks/useTimer.js:124-129 | less time remaining is never less urgent |
| TimerHook.CountdownTimer.constructor | src/hooks/useTimer.js:9-16 | inactive, unpaused, no start time, nothing accumulated, no interval |
| TimerHook.CountdownTimer.IsRunning | src/hooks/useTimer.js:121 | a running timer is never finished |
| TimerHook.CountdownTimer.IsFinished | src/hooks/useTimer.js:118 | a finished timer shows 100% progress and, for a positive initial time, the critical urgency level |
| TimerHook.CountdownTimer.GetElapsedTime | src/hooks/useTimer.js:97-104 | the whole seconds of the elapsed milliseconds, rounded down; 0 without a start time |
| TimerHook.CountdownTimer.GetProgress | src/hooks/useTimer.js:107-109 | undefined exactly for an initial time of 0; otherwise exactly `100 · (initial - remaining) / initial` over this timer's state, 0 at the initial time and 100 at 0 |
| TimerHook.CountdownTimer.GetUrgencyLevel | src/hooks/useTimer.js:124-129 | for a positive initial time: critical exactly at 10% or less, warning exactly above 10% and at most 25%, normal exactly above 25%; for an initial time of 0, critical exactly for a negative remaining time and never warning |
| TimerHook.CountdownTimer.ClearInterval | src/hooks/useTimer.js:76-79 | a held interval stops firing and the ref is emptied; the timer state is unchanged |
| TimerHook.CountdownTimer.Stop | src/hooks/useTimer.js:72-80 | inactive and unpaused, with the held interval cleared; remaining time and timestamps unchanged |
| TimerHook.CountdownTimer.Start | src/hooks/useTimer.js:19-38 | a no-op while running; otherwise active and unpaused, the start time set only if none was set, and one more interval scheduled; at 0 s left the auto-stop follows at once |
| TimerHook.CountdownTimer.AutoStop | src/hooks/useTimer.js:141-145 | stops the timer exactly when no time remains while active |
| TimerHook.CountdownTimer.Pause | src/hooks/useTimer.js:41-51 | acts only while running: paused, interval cleared, the run's milliseconds added to the accumulated time, and the elapsed time at that moment unchanged |
| TimerHook.CountdownTimer.Resume | src/hooks/useTimer.js:54-69 | acts only when paused: running again from now, one more interval scheduled, and the elapsed time at that moment unchanged |
| TimerHook.CountdownTimer.Reset | src/hooks/useTimer.js:83-94 | the new remaining time, inactive, unpaused, no start time, nothing accumulated, interval cleared, elapsed time 0 at every instant |
| TimerHook.CountdownTimer.Tick | src/hooks/useTimer.js:29-37 | one firing: above 1 s it decrements; at 1 s or less it sets 0 and becomes inactive, so the timer is finished; nothing happens with no interval scheduled |
| TimerHook.SimpleTimer.constructor | src/hooks/useTimer.js:179-182 | inactive, the initial time, no interval, no callback calls yet |
| TimerHook.SimpleTimer.Progress | src/hooks/useTimer.js:229 | undefined exactly for an initial time of 0; otherwise exactly `100 · (initial - remaining) / initial`, 0 at the start and 100 when no time remains |
| TimerHook.SimpleTimer.Start | src/hooks/useTimer.js:184-198 | a no-op while active; otherwise active with one more interval scheduled |
| TimerHook.SimpleTimer.Stop | src/hooks/useTimer.js:200-206 | inactive, with the held interval cleared |
| TimerHook.SimpleTimer.Reset | src/hooks/useTimer.js:208-215 | the new remaining time, inactive, interval cleared |
| TimerHook.SimpleTimer.Tick | src/hooks/useTimer.js:188-197 | one firing as written: at 1 s or less it sets 0, becomes inactive and calls the callback, and the interval stays scheduled |
| TimerHook.RepeatedCompletion | src/hooks/useTimer.js:188-197 | one start of a one-second timer followed by two firings calls the callback twice |
| TimerHook.SimpleTimer.TickClearing | src/hooks/useTimer.js:188-197 | the corrected firing: it also clears the interval on completion, so the callback runs at most once per start |
| TimerHook.SingleCompletion | src/hooks/useTimer.js:188-197 | the same run with the corrected firing calls the callback once |
| TimerDisplay.UrgencyLevel | src/components/Timer.jsx:22-28 | for a positive total: critical at 10% or less remaining, warning up to 25%, caution up to 50%, normal above, each as an exact integer condition; for a total of 0, critical exactly for a negative remaining time |
| TimerDisplay.UrgencyMonotone | src/components/Timer.jsx:22-28 | less time remaining is never less urgent |
| TimerDisplay.UrgencyMessage | src/components/Timer.jsx:34-45 | each level has its own message: the level reads back off the message |
| TimerDisplay.StatusMessage | src/components/Timer.jsx:74 | the ready line while inactive, the urgency message while active; different levels never share a message |
| TimerDisplay.TimerIcon | src/components/Timer.jsx:48-53 | paused exactly while inactive; siren exactly for critical, warning sign exactly for warning, stopwatch exactly for caution and normal, all while active |
| TimerDisplay.MotivationLines | src/components/Timer.jsx:139-153 | the five bands partition the remaining time: exactly one line while active, none while inactive; great start above 45 s, doing great from 31 to 45 s, final stretch from 16 to 30 s, almost there from 6 to 15 s, the final countdown at 5 s or less |
| TimerDisplay.MotivationAdvances | src/components/Timer.jsx:139-153 | as the clock runs down, the line only moves on through the five lines in order |
| TimerDisplay.BreakdownAddsUp | src/components/Timer.jsx:113-125 | the elapsed, remaining and total clocks read back to their seconds, and elapsed plus remaining is the total |
| TextDisplay.WordAroundUnique | src/components/TextDisplay.jsx:181-188 | there is only one maximal space-free run around a position |
| TextDisplay.GetCurrentWord | src/components/TextDisplay.jsx:173-191 | empty for an empty text or a negative position; never contains a space; otherwise the maximal space-free run `text[s..e)` with `s <= position <= e`, a space or the text's edge on either side |
| Celebration.SpeedAward | src/components/CelebrationManager.jsx:28-30 | at most one speed award: typing master from 120 WPM, lightning fast from 100 below 120, speed demon from 80 below 100 |
| Celebration.AccuracyAward | src/components/CelebrationManager.jsx:33-35 | at most one accuracy award: perfectionist at exactly 100, sharpshooter from 98, accurate from 95 below 98 |
| Celebration.ComboAward | src/components/CelebrationManager.jsx:38-39 | at most one combo: unstoppable from 100 WPM and 98%, otherwise flawless victory from 80 WPM at 100% |
| Celebration.MilestoneAward | src/components/CelebrationManager.jsx:42 | the first-test award exactly for a positive speed |
| Celebration.CategoriesIncrease | src/components/CelebrationManager.jsx:27-42 | the four groups, appended in order, give strictly increasing categories |
| Celebration.DetectAchievements | src/components/CelebrationManager.jsx:23-46 | empty unless complete; each award is present exactly under its condition; categories strictly increase along the list, so there is at most one award per category, in the order speed, accuracy, combo, milestone |
| Celebration.NoDuplicateAchievements | src/components/CelebrationManager.jsx:23-46 | no award appears twice |
| Celebration.ShowsConfetti | src/components/CelebrationManager.jsx:54 | confetti from 60 WPM or 90%; the intensity, particle and palette thresholds all lie above it, so a run without confetti would get light intensity, 50 particles and the default palette |
| Celebration.ConfettiIntensity | src/components/CelebrationManager.jsx:84-88 | heavy exactly from 100 WPM or at 100%; medium exactly otherwise from 80 WPM or 95% |
| Celebration.IntensityMonotone | src/components/CelebrationManager.jsx:84-88 | more speed or more accuracy, up to 100%, never gives less intense confetti |
| Celebration.ConfettiPalette | src/components/CelebrationManager.jsx:90-94 | green exactly at 100% accuracy; blue exactly from 100 WPM below 100%: accuracy takes precedence |
| Celebration.PaletteColors | src/components/CelebrationManager.jsx:90-94 | four colours for green and blue, six for the festive default |
| Celebration.ParticleCount | src/components/CelebrationManager.jsx:104 | 80 particles exactly from 100 WPM, otherwise 50 |
| Celebration.FastRunsCelebrateFully | src/components/CelebrationManager.jsx:54-104 | from 100 WPM: confetti shows, heavy, 80 particles and a palette other than the default |
| Celebration.CelebrationManager.constructor | src/components/CelebrationManager.jsx:11-20 | no confetti, nothing showing, empty queue |
| Celebration.CelebrationManager.ProcessQueue | src/components/CelebrationManager.jsx:67-73 | when nothing is showing and the queue is non-empty, the head moves to the display and the queue shrinks by exactly one; otherwise nothing changes |
| Celebration.CelebrationManager.ShowAchievements | src/components/CelebrationManager.jsx:60-73 | a non-empty list replaces the queue and its head shows when nothing is showing; an empty list changes nothing |
| Celebration.CelebrationManager.TestCompleted | src/components/CelebrationManager.jsx:49-64 | on a completed test with results: confetti exactly for at least 60 WPM or at least 90%; detected achievements replace the queue when there are any; then the queue is processed |
| Celebration.CelebrationManager.ConfettiTimeout | src/components/CelebrationManager.jsx:56 | the timeout hides the confetti and changes nothing else |
| Celebration.CelebrationManager.AchievementComplete | src/components/CelebrationManager.jsx:75-82 | the shown achievement goes away; with an empty queue the completion callback runs once if there is one, otherwise the next achievement shows |

## Left out

- Wall-clock time (`Date.now`) is the parameter `now`. `setInterval` and `setTimeout` scheduling is replaced by explicit methods that stand for one firing.
- Floating point: every quantity is an exact rational (`real`) or an integer. NaN and the infinities are not modelled. An argument that would produce them appears as `None` or as a stated fallback case.
- Calculations.CalculateConsistency: beyond fewer than two samples, the standard deviation needs a square root that the model does not compute. The function returns `None` there, except that a steady non-zero history is proved to score 100.
- TypingTest.TypingTestEngine.RefreshStats: the model recomputes the statistics from the engine's current state. The source's 100 ms interval keeps the callback from the render before the start, whose status check fails, so that interval never changes anything.
- TypingTest.TypingTestEngine.ResultsCountsConsistent: holds only for a passage with text. A passage with empty text can follow a completed test: the passage effect and the reset skip it and keep the old character states, and a key press still starts the test. The result then counts fewer typed characters than correct states, so its incorrect count is negative. The model reproduces this, as the source does.
- A start timestamp of exactly 0 is a falsy value in the source. The model treats it as a start time like any other.
- Strings are sequences of characters, not UTF-16 code units. Characters outside the Basic Multilingual Plane and surrogate pairs are not modelled.
- `splitIntoCharacters`, `calculateAverageWordLength`, `getCommonWords` and `calculateTextDifficulty` in `src/utils/textProcessing.js` are not part of this model. They are either display helpers or floating-point scores with frequency sorting.
- The animation module, the confetti particles, the achievement badge, the keyboard-input hook and the view components (`App.jsx`, `TypingTest.jsx`, `TypingInput.jsx`, `StatsDisplay.jsx`, `ProgressBar.jsx`) are not part of this model. They are DOM work, randomness and float animation.
- The passages and their random selection are not part of this model.
- Timer intervals are counted, not identified. The model knows how many intervals still fire, but not which one a firing belongs to. The clean-up on unmount is left out.
- Celebration.CelebrationManager.TestCompleted: re-running the effect when the speed or accuracy changes after completion is modelled as another call. React's dependency comparison is not modelled.

## Findings

| source | as written | input that shows it | evidently intended | confidence | as-written member | corrected member |
|---|---|---|---|---|---|---|
| src/hooks/useTimer.js:188-197 | `useSimpleTimer`'s interval sets the time to 0 and calls `onComplete` when one second or less remains, but nothing clears the interval, so every later firing calls `onComplete` again | `useSimpleTimer(1, onComplete)`, `start()`, then two firings of the interval: `onComplete` runs twice | the interval is cleared on completion and `onComplete` runs once per start | not executed | TimerHook.SimpleTimer.Tick, TimerHook.RepeatedCompletion | TimerHook.SimpleTimer.TickClearing, TimerHook.SingleCompletion |
