/** Character validation, error analysis and the string helpers of the
    typing test. Strings are sequences of characters; the regular-expression
    classes used by the source are spelled out as predicates. */
module TextProcessing {
  import opened Util
  import Calculations

  // ---------------------------------------------------------------------
  // Character classes

  /** `\s` of a JavaScript regular expression, which is also the set of
      characters `String.prototype.trim` removes. */
  predicate IsSpace(c: char)
  {
    || c == ' ' || c == '\t' || c == '\n' || c == '\r'
    || c as int == 0x0B || c as int == 0x0C || c as int == 0xA0 || c as int == 0x1680
    || 0x2000 <= c as int <= 0x200A
    || c as int == 0x2028 || c as int == 0x2029 || c as int == 0x202F || c as int == 0x205F
    || c as int == 0x3000 || c as int == 0xFEFF
  }

  /** `[a-zA-Z0-9]`. */
  predicate IsAlphanumeric(c: char)
  {
    'a' <= c <= 'z' || 'A' <= c <= 'Z' || '0' <= c <= '9'
  }

  /** `\w`: letters, digits and the underscore. */
  predicate IsWordChar(c: char)
  {
    IsAlphanumeric(c) || c == '_'
  }

  /** `[^\w\s]`: neither a word character nor whitespace. */
  predicate IsPunctuation(c: char)
  {
    !IsWordChar(c) && !IsSpace(c)
  }

  predicate NoSpace(s: string)
  {
    forall i :: 0 <= i < |s| ==> !IsSpace(s[i])
  }

  predicate AllSpace(s: string)
  {
    forall i :: 0 <= i < |s| ==> IsSpace(s[i])
  }

  /** `s[i] || ''`: the one-character string at index i, or the empty
      string outside the text. */
  function CharAt(s: string, i: int): string
  {
    if 0 <= i < |s| then [s[i]] else ""
  }

  // ---------------------------------------------------------------------
  // validateCharacter

  datatype Validation = Validation(
    isCorrect: bool,
    typed: string,
    expected: string,
    isSpace: bool,
    isPunctuation: bool,
    isAlphanumeric: bool)

  /** `/[^\w\s]/.test(s)`. */
  function ContainsPunctuation(s: string): (b: bool)
    ensures b <==> exists i :: 0 <= i < |s| && IsPunctuation(s[i])
  {
    if s == [] then false
    else IsPunctuation(s[0]) || (assert forall i :: 0 < i < |s| ==> s[i] == s[1..][i - 1]; ContainsPunctuation(s[1..]))
  }

  /** `/[a-zA-Z0-9]/.test(s)`. */
  function ContainsAlphanumeric(s: string): (b: bool)
    ensures b <==> exists i :: 0 <= i < |s| && IsAlphanumeric(s[i])
  {
    if s == [] then false
    else IsAlphanumeric(s[0]) || (assert forall i :: 0 < i < |s| ==> s[i] == s[1..][i - 1]; ContainsAlphanumeric(s[1..]))
  }

  /** Strict comparison of the typed against the expected text (no case
      folding), plus the classification of the expected text. */
  function ValidateCharacter(typed: string, expected: string): (v: Validation)
    ensures v.isCorrect <==> typed == expected
    ensures v.isSpace <==> expected == " "
    ensures v.isPunctuation <==> exists i :: 0 <= i < |expected| && IsPunctuation(expected[i])
    ensures v.isAlphanumeric <==> exists i :: 0 <= i < |expected| && IsAlphanumeric(expected[i])
    ensures v.typed == typed && v.expected == expected
  {
    Validation(
      typed == expected,
      typed,
      expected,
      expected == " ",
      ContainsPunctuation(expected),
      ContainsAlphanumeric(expected))
  }

  /** The underscore is a word character, so it is neither punctuation nor
      alphanumeric; a letter in another case is not correct. */
  lemma ValidationEdgeCases()
    ensures !ValidateCharacter("_", "_").isPunctuation && !ValidateCharacter("_", "_").isAlphanumeric
    ensures !ValidateCharacter("a", "A").isCorrect
    ensures ValidateCharacter("", "").isCorrect
  {
    assert !IsPunctuation("_"[0]);
  }

  // ---------------------------------------------------------------------
  // analyzeErrors / getErrorType

  datatype ErrorType = Omission | Insertion | Substitution | NoError

  /** The kind of a difference between a typed and an expected character. */
  function GetErrorType(typed: string, expected: string): (t: ErrorType)
    ensures t == NoError <==> typed == expected
    ensures t == Omission <==> typed == "" && expected != ""
    ensures t == Insertion <==> typed != "" && expected == ""
  {
    if typed == "" && expected != "" then Omission
    else if typed != "" && expected == "" then Insertion
    else if typed != expected then Substitution
    else NoError
  }

  datatype TypingError = TypingError(position: int, typed: string, expected: string, kind: ErrorType)

  datatype ErrorAnalysis = ErrorAnalysis(errors: seq<TypingError>, totalErrors: int, errorRate: real)

  /** The characters at position i differ (past the end counts as ''). */
  predicate Differs(userInput: string, expectedText: string, i: int)
  {
    CharAt(userInput, i) != CharAt(expectedText, i)
  }

  /** The record the analysis must produce for a differing position: an
      omission where the input ran out, an insertion past the end of the
      expected text, a substitution otherwise. */
  predicate Reports(userInput: string, expectedText: string, e: TypingError)
  {
    && 0 <= e.position < Max(|userInput|, |expectedText|)
    && Differs(userInput, expectedText, e.position)
    && e.typed == CharAt(userInput, e.position)
    && e.expected == CharAt(expectedText, e.position)
    && e.kind == (if e.position >= |userInput| then Omission
                  else if e.position >= |expectedText| then Insertion
                  else Substitution)
  }

  /** The record for position i. */
  function ErrorAt(userInput: string, expectedText: string, i: int): TypingError
  {
    var typed := CharAt(userInput, i);
    var expected := CharAt(expectedText, i);
    TypingError(i, typed, expected, GetErrorType(typed, expected))
  }

  /** The records for the differing positions below n, in order. */
  function ErrorsBefore(userInput: string, expectedText: string, n: nat): seq<TypingError>
  {
    if n == 0 then []
    else
      ErrorsBefore(userInput, expectedText, n - 1) +
      (if Differs(userInput, expectedText, n - 1) then [ErrorAt(userInput, expectedText, n - 1)] else [])
  }

  /** Every record below the longer length is a correct report of a
      position below n. */
  lemma {:induction false} ErrorsBeforeReport(userInput: string, expectedText: string, n: nat)
    requires n <= Max(|userInput|, |expectedText|)
    ensures forall k :: 0 <= k < |ErrorsBefore(userInput, expectedText, n)| ==>
      Reports(userInput, expectedText, ErrorsBefore(userInput, expectedText, n)[k]) &&
      ErrorsBefore(userInput, expectedText, n)[k].position < n
  {
    if n > 0 {
      ErrorsBeforeReport(userInput, expectedText, n - 1);
    }
  }

  /** The records' positions strictly increase. */
  lemma {:induction false} ErrorsBeforeOrdered(userInput: string, expectedText: string, n: nat)
    requires n <= Max(|userInput|, |expectedText|)
    ensures forall k, l :: 0 <= k < l < |ErrorsBefore(userInput, expectedText, n)| ==>
      ErrorsBefore(userInput, expectedText, n)[k].position < ErrorsBefore(userInput, expectedText, n)[l].position
  {
    if n > 0 {
      ErrorsBeforeOrdered(userInput, expectedText, n - 1);
      ErrorsBeforeReport(userInput, expectedText, n - 1);
    }
  }

  /** Some record is at position i. */
  predicate Recorded(errors: seq<TypingError>, i: int)
  {
    exists k :: 0 <= k < |errors| && errors[k].position == i
  }

  /** A differing position below n has a record. */
  lemma {:induction false} ErrorsBeforeHas(userInput: string, expectedText: string, n: nat, i: int)
    requires 0 <= i < n && Differs(userInput, expectedText, i)
    ensures Recorded(ErrorsBefore(userInput, expectedText, n), i)
  {
    var prev := ErrorsBefore(userInput, expectedText, n - 1);
    var cur := ErrorsBefore(userInput, expectedText, n);
    assert |prev| <= |cur| && cur[..|prev|] == prev;
    if i < n - 1 {
      ErrorsBeforeHas(userInput, expectedText, n - 1, i);
      var k :| 0 <= k < |prev| && prev[k].position == i;
      assert cur[k] == cur[..|prev|][k];
    } else {
      assert cur[|prev|].position == i;
    }
  }

  /** Every differing position below n has a record. */
  lemma ErrorsBeforeComplete(userInput: string, expectedText: string, n: nat)
    ensures forall i :: 0 <= i < n && Differs(userInput, expectedText, i) ==>
      Recorded(ErrorsBefore(userInput, expectedText, n), i)
  {
    forall i | 0 <= i < n && Differs(userInput, expectedText, i)
      ensures Recorded(ErrorsBefore(userInput, expectedText, n), i)
    {
      ErrorsBeforeHas(userInput, expectedText, n, i);
    }
  }

  /** Every position up to the longer of the two texts where the characters
      differ is reported, once, in increasing order, and classified. */
  method AnalyzeErrors(userInput: string, expectedText: string) returns (a: ErrorAnalysis)
    ensures forall k :: 0 <= k < |a.errors| ==> Reports(userInput, expectedText, a.errors[k])
    ensures forall k, l :: 0 <= k < l < |a.errors| ==> a.errors[k].position < a.errors[l].position
    ensures forall i :: 0 <= i < Max(|userInput|, |expectedText|) && Differs(userInput, expectedText, i) ==>
      Recorded(a.errors, i)
    ensures a.totalErrors == |a.errors|
    ensures a.errorRate ==
      if |expectedText| > 0 then |a.errors| as real / |expectedText| as real * 100.0 else 0.0
  {
    var errors: seq<TypingError> := [];
    var maxLength := Max(|userInput|, |expectedText|);
    for i := 0 to maxLength
      invariant errors == ErrorsBefore(userInput, expectedText, i)
    {
      var typed := CharAt(userInput, i);
      var expected := CharAt(expectedText, i);
      if typed != expected {
        errors := errors + [TypingError(i, typed, expected, GetErrorType(typed, expected))];
      }
    }
    ErrorsBeforeReport(userInput, expectedText, maxLength);
    ErrorsBeforeOrdered(userInput, expectedText, maxLength);
    ErrorsBeforeComplete(userInput, expectedText, maxLength);
    var errorRate := if |expectedText| > 0 then |errors| as real / |expectedText| as real * 100.0 else 0.0;
    a := ErrorAnalysis(errors, |errors|, errorRate);
  }

  // ---------------------------------------------------------------------
  // trim, split(/\s+/), splitIntoWords, countWords

  function TrimStart(s: string): (r: string)
    ensures |r| <= |s| && r == s[|s| - |r|..] && AllSpace(s[..|s| - |r|])
    ensures r == [] || !IsSpace(r[0])
  {
    if s != [] && IsSpace(s[0]) then TrimStart(s[1..]) else s
  }

  function TrimEnd(s: string): (r: string)
    ensures |r| <= |s| && r == s[..|r|] && AllSpace(s[|r|..])
    ensures r == [] || !IsSpace(r[|r| - 1])
  {
    if s != [] && IsSpace(s[|s| - 1]) then TrimEnd(s[..|s| - 1]) else s
  }

  /** A prefix of a suffix, each cut off by whitespace only, is a slice
      with whitespace only on either side. */
  lemma SliceOfSuffix(s: string, t: string, r: string)
    requires |t| <= |s| && t == s[|s| - |t|..] && AllSpace(s[..|s| - |t|])
    requires |r| <= |t| && r == t[..|r|] && AllSpace(t[|r|..])
    ensures var i := |s| - |t|;
      && 0 <= i <= i + |r| <= |s| && r == s[i..i + |r|]
      && AllSpace(s[..i]) && AllSpace(s[i + |r|..])
  {
    var i := |s| - |t|;
    assert s[i + |r|..] == t[|r|..];
  }

  /** Neither starts nor ends with whitespace. */
  predicate Trimmed(s: string)
  {
    s == [] || (!IsSpace(s[0]) && !IsSpace(s[|s| - 1]))
  }

  /** `String.prototype.trim`: a slice of the text that neither starts nor
      ends with whitespace, with only whitespace cut off either side. */
  function Trim(s: string): (r: string)
    ensures Trimmed(r)
    ensures exists i, j :: 0 <= i <= j <= |s| && r == s[i..j] && AllSpace(s[..i]) && AllSpace(s[j..])
  {
    var t := TrimStart(s);
    var r := TrimEnd(t);
    SliceOfSuffix(s, t, r);
    r
  }

  /** Index of the first whitespace character from k on, or |s|. */
  function NextSpace(s: string, k: nat): (j: nat)
    requires k <= |s|
    ensures k <= j <= |s| && NoSpace(s[k..j]) && (j < |s| ==> IsSpace(s[j]))
    decreases |s| - k
  {
    if k == |s| || IsSpace(s[k]) then k
    else
      var j := NextSpace(s, k + 1);
      assert s[k..j] == [s[k]] + s[k + 1..j];
      j
  }

  /** Index just past the whitespace run that starts at k. */
  function SpaceRunEnd(s: string, k: nat): (j: nat)
    requires k <= |s|
    ensures k <= j <= |s| && AllSpace(s[k..j]) && (j < |s| ==> !IsSpace(s[j]))
    decreases |s| - k
  {
    if k == |s| || !IsSpace(s[k]) then k
    else
      var j := SpaceRunEnd(s, k + 1);
      assert s[k..j] == [s[k]] + s[k + 1..j];
      j
  }

  /** `s.split(/\s+/)`: the pieces between maximal whitespace runs (the
      empty string yields one empty piece). */
  function SplitOnSpaceRuns(s: string): (pieces: seq<string>)
    ensures |pieces| >= 1
    ensures forall i :: 0 <= i < |pieces| ==> NoSpace(pieces[i])
    decreases |s|
  {
    var k := NextSpace(s, 0);
    if k == |s| then
      assert s[0..k] == s;
      [s]
    else
      var j := SpaceRunEnd(s, k);
      [s[..k]] + SplitOnSpaceRuns(s[j..])
  }

  /** `filter(word => word.length > 0)`. */
  function FilterNonEmpty(ws: seq<string>): (r: seq<string>)
    ensures forall i :: 0 <= i < |r| ==> r[i] != [] && r[i] in ws
    ensures |r| <= |ws|
  {
    if ws == [] then []
    else if ws[0] == [] then FilterNonEmpty(ws[1..])
    else [ws[0]] + FilterNonEmpty(ws[1..])
  }

  /** `splitIntoWords`: every word is non-empty and holds no whitespace. */
  function SplitIntoWords(text: string): (words: seq<string>)
    ensures forall i :: 0 <= i < |words| ==> words[i] != [] && NoSpace(words[i])
  {
    var pieces := SplitOnSpaceRuns(Trim(text));
    var words := FilterNonEmpty(pieces);
    assert forall i :: 0 <= i < |words| ==> words[i] in pieces;
    words
  }

  /** `countWords`: zero exactly for a text with no character other than
      whitespace. */
  function CountWords(text: string): (n: nat)
    ensures n == 0 <==> RemoveSpaces(text) == []
  {
    WordsKeepText(text);
    ConcatLength(SplitIntoWords(text));
    |SplitIntoWords(text)|
  }

  /** The text with every whitespace character removed. */
  function RemoveSpaces(s: string): (r: string)
    ensures |r| <= |s|
  {
    if s == [] then []
    else if IsSpace(s[0]) then RemoveSpaces(s[1..])
    else [s[0]] + RemoveSpaces(s[1..])
  }

  /** All the words, concatenated. */
  function Concat(ws: seq<string>): string
  {
    if ws == [] then [] else ws[0] + Concat(ws[1..])
  }

  lemma {:induction false} RemoveSpacesAppend(a: string, b: string)
    ensures RemoveSpaces(a + b) == RemoveSpaces(a) + RemoveSpaces(b)
  {
    if a != [] {
      assert (a + b)[1..] == a[1..] + b;
      RemoveSpacesAppend(a[1..], b);
    } else {
      assert a + b == b;
    }
  }

  lemma {:induction false} RemoveSpacesOfSpaces(s: string)
    requires AllSpace(s)
    ensures RemoveSpaces(s) == []
  {
    if s != [] {
      RemoveSpacesOfSpaces(s[1..]);
    }
  }

  lemma {:induction false} RemoveSpacesOfWord(s: string)
    requires NoSpace(s)
    ensures RemoveSpaces(s) == s
  {
    if s != [] {
      RemoveSpacesOfWord(s[1..]);
    }
  }

  lemma RemoveSpacesOfPieces(word: string, gap: string, tail: string)
    requires NoSpace(word) && AllSpace(gap)
    ensures RemoveSpaces(word + gap + tail) == word + RemoveSpaces(tail)
  {
    calc {
      RemoveSpaces(word + gap + tail);
      { RemoveSpacesAppend(word + gap, tail); }
      RemoveSpaces(word + gap) + RemoveSpaces(tail);
      { RemoveSpacesAppend(word, gap); }
      RemoveSpaces(word) + RemoveSpaces(gap) + RemoveSpaces(tail);
      { RemoveSpacesOfWord(word); RemoveSpacesOfSpaces(gap); }
      word + [] + RemoveSpaces(tail);
      { assert word + [] == word; }
      word + RemoveSpaces(tail);
    }
  }

  lemma ConcatCons(w: string, rest: seq<string>)
    ensures Concat([w] + rest) == w + Concat(rest)
  {
    assert ([w] + rest)[1..] == rest;
  }

  /** Splitting a text that starts with a word before a whitespace run:
      the word, then the split of what follows the run. */
  lemma SplitPieces(s: string, k: nat, j: nat)
    requires k == NextSpace(s, 0) && k < |s| && j == SpaceRunEnd(s, k)
    ensures SplitOnSpaceRuns(s) == [s[..k]] + SplitOnSpaceRuns(s[j..])
    ensures NoSpace(s[..k]) && AllSpace(s[k..j]) && k < j
  {
    assert s[0..k] == s[..k];
  }

  lemma SplitStep(s: string, k: nat, j: nat)
    requires k == NextSpace(s, 0) && k < |s| && j == SpaceRunEnd(s, k)
    ensures Concat(SplitOnSpaceRuns(s)) == s[..k] + Concat(SplitOnSpaceRuns(s[j..]))
  {
    SplitPieces(s, k, j);
    ConcatCons(s[..k], SplitOnSpaceRuns(s[j..]));
  }

  lemma {:induction false} ConcatOfSplit(s: string)
    ensures Concat(SplitOnSpaceRuns(s)) == RemoveSpaces(s)
    decreases |s|
  {
    var k := NextSpace(s, 0);
    if k == |s| {
      assert s[0..k] == s;
      RemoveSpacesOfWord(s);
      ConcatCons(s, []);
    } else {
      var j := SpaceRunEnd(s, k);
      SplitStep(s, k, j);
      SplitPieces(s, k, j);
      SliceParts(s, k, j);
      ConcatOfSplit(s[j..]);
      RemoveSpacesOfPieces(s[..k], s[k..j], s[j..]);
    }
  }

  lemma {:induction false} ConcatOfFilter(ws: seq<string>)
    ensures Concat(FilterNonEmpty(ws)) == Concat(ws)
  {
    if ws != [] {
      var rest := FilterNonEmpty(ws[1..]);
      ConcatOfFilter(ws[1..]);
      if ws[0] != [] {
        assert FilterNonEmpty(ws) == [ws[0]] + rest;
        ConcatCons(ws[0], rest);
      } else {
        assert FilterNonEmpty(ws) == rest;
        assert Concat(ws) == [] + Concat(ws[1..]);
      }
    }
  }

  lemma RemoveSpacesOfTrim(s: string)
    ensures RemoveSpaces(Trim(s)) == RemoveSpaces(s)
  {
    var i, j :| 0 <= i <= j <= |s| && Trim(s) == s[i..j] && AllSpace(s[..i]) && AllSpace(s[j..]);
    assert s == s[..i] + s[i..j] + s[j..];
    RemoveSpacesAppend(s[..i] + s[i..j], s[j..]);
    RemoveSpacesAppend(s[..i], s[i..j]);
    RemoveSpacesOfSpaces(s[..i]);
    RemoveSpacesOfSpaces(s[j..]);
  }

  /** Splitting into words loses no character other than whitespace: the
      words, concatenated, are the text with its whitespace removed. */
  lemma WordsKeepText(text: string)
    ensures Concat(SplitIntoWords(text)) == RemoveSpaces(text)
  {
    var t := Trim(text);
    ConcatOfFilter(SplitOnSpaceRuns(t));
    ConcatOfSplit(t);
    RemoveSpacesOfTrim(text);
  }

  /** `Array.prototype.join`: the pieces with the separator between
      neighbours. */
  function Join(ws: seq<string>, sep: string): string
  {
    if ws == [] then []
    else if |ws| == 1 then ws[0]
    else ws[0] + sep + Join(ws[1..], sep)
  }

  /** The pieces of `split(/\s+/)`, joined by single spaces, are the text
      with every whitespace run collapsed to one space. As no piece holds
      whitespace, this fixes where each piece starts and ends: the pieces
      are exactly the maximal runs of non-whitespace characters. */
  lemma {:induction false} SplitJoin(s: string)
    ensures Join(SplitOnSpaceRuns(s), " ") == CollapseSpaces(s)
    decreases |s|
  {
    var k := NextSpace(s, 0);
    if k == |s| {
      assert s[0..k] == s;
      CollapseOfWordPrefix(s, []);
      assert s + [] == s;
    } else {
      var j := SpaceRunEnd(s, k);
      SplitPieces(s, k, j);
      SliceParts(s, k, j);
      var rest := SplitOnSpaceRuns(s[j..]);
      assert ([s[..k]] + rest)[1..] == rest;
      SplitJoin(s[j..]);
      CollapseStep(s[..k], s[k..j], s[j..]);
    }
  }

  /** A text without whitespace at either end splits into non-empty
      pieces only. */
  lemma {:induction false} SplitOfTrimmed(u: string)
    requires u != [] && !IsSpace(u[0]) && !IsSpace(u[|u| - 1])
    ensures forall i :: 0 <= i < |SplitOnSpaceRuns(u)| ==> SplitOnSpaceRuns(u)[i] != []
    decreases |u|
  {
    var k := NextSpace(u, 0);
    if k == |u| {
      assert u[0..k] == u;
    } else {
      var j := SpaceRunEnd(u, k);
      assert j < |u|;
      SplitPieces(u, k, j);
      assert u[j..][|u[j..]| - 1] == u[|u| - 1];
      SplitOfTrimmed(u[j..]);
    }
  }

  lemma {:induction false} FilterOfNonEmpty(ws: seq<string>)
    requires forall i :: 0 <= i < |ws| ==> ws[i] != []
    ensures FilterNonEmpty(ws) == ws
  {
    if ws != [] {
      FilterOfNonEmpty(ws[1..]);
      assert [ws[0]] + ws[1..] == ws;
    }
  }

  lemma {:induction false} TrimStartOfGap(g: string, rest: string)
    requires AllSpace(g)
    requires rest == [] || !IsSpace(rest[0])
    ensures TrimStart(g + rest) == rest
    decreases |g|
  {
    if g == [] {
      assert g + rest == rest;
    } else {
      assert (g + rest)[1..] == g[1..] + rest;
      TrimStartOfGap(g[1..], rest);
    }
  }

  lemma {:induction false} TrimEndOfGap(m: string, g: string)
    requires AllSpace(g)
    requires m == [] || !IsSpace(m[|m| - 1])
    ensures TrimEnd(m + g) == m
    decreases |g|
  {
    if g == [] {
      assert m + g == m;
    } else {
      var h := g[..|g| - 1];
      assert (m + g)[..|m + g| - 1] == m + h;
      TrimEndOfGap(m, h);
    }
  }

  /** Trimming a text padded by whitespace on both sides recovers it. */
  lemma TrimOfPadded(lead: string, m: string, trail: string)
    requires AllSpace(lead) && AllSpace(trail)
    requires m == [] || (!IsSpace(m[0]) && !IsSpace(m[|m| - 1]))
    ensures Trim(lead + m + trail) == m
  {
    if m == [] {
      assert lead + m + trail == lead + trail;
      assert AllSpace(lead + trail);
      TrimStartOfGap(lead + trail, []);
      assert lead + trail + [] == lead + trail;
    } else {
      assert lead + m + trail == lead + (m + trail);
      TrimStartOfGap(lead, m + trail);
      TrimEndOfGap(m, trail);
    }
  }

  /** `normalizeText` is the words of `splitIntoWords` joined by single
      spaces. */
  lemma NormalizeIsJoinedWords(text: string)
    ensures NormalizeText(text) == Join(SplitIntoWords(text), " ")
  {
    var lead, u, trail := TrimParts(text);
    NormalizeOfPadded(text, lead, u, trail);
    WordsOfTrim(text, u);
  }

  /** The text around its trimmed core: whitespace on either side. */
  lemma TrimParts(text: string) returns (lead: string, u: string, trail: string)
    ensures u == Trim(text) && text == lead + u + trail && AllSpace(lead) && AllSpace(trail)
  {
    u := Trim(text);
    var i, j :| 0 <= i <= j <= |text| && u == text[i..j] && AllSpace(text[..i]) && AllSpace(text[j..]);
    SliceParts(text, i, j);
    lead, trail := text[..i], text[j..];
  }

  lemma WordsOfTrim(text: string, u: string)
    requires u == Trim(text)
    ensures Join(SplitIntoWords(text), " ") == CollapseSpaces(u)
  {
    if u == [] {
      BlankHasNoWords(text);
    } else {
      WordsOfTrimmed(text, u);
    }
  }

  lemma SliceParts(s: string, i: nat, j: nat)
    requires i <= j <= |s|
    ensures s == s[..i] + s[i..j] + s[j..]
  {
  }

  lemma BlankHasNoWords(text: string)
    requires Trim(text) == []
    ensures SplitIntoWords(text) == []
  {
    var u := Trim(text);
    assert NextSpace(u, 0) == 0;
    assert u[0..0] == u;
    assert SplitOnSpaceRuns(u) == [[]];
    assert FilterNonEmpty([[]]) == [];
  }

  lemma WordsOfTrimmed(text: string, u: string)
    requires u == Trim(text) && u != []
    ensures Join(SplitIntoWords(text), " ") == CollapseSpaces(u)
  {
    SplitOfTrimmed(u);
    FilterOfNonEmpty(SplitOnSpaceRuns(u));
    SplitJoin(u);
  }

  /** A text is its trimmed core padded by whitespace; it normalises to
      the collapsed core. */
  lemma NormalizeOfPadded(text: string, lead: string, u: string, trail: string)
    requires text == lead + u + trail && AllSpace(lead) && AllSpace(trail)
    requires Trimmed(u)
    ensures NormalizeText(text) == CollapseSpaces(u)
  {
    var cl, ct := CollapseOfPadded(text, lead, u, trail);
    TrimOfPadded(cl, CollapseSpaces(u), ct);
  }

  /** Collapsing a padded text collapses the padding on its own. */
  lemma CollapseOfPadded(text: string, lead: string, u: string, trail: string) returns (cl: string, ct: string)
    requires text == lead + u + trail && AllSpace(lead) && AllSpace(trail)
    requires Trimmed(u)
    ensures AllSpace(cl) && AllSpace(ct)
    ensures CollapseSpaces(text) == cl + CollapseSpaces(u) + ct
  {
    if u == [] {
      PadOfEmpty(text, lead, u, trail);
      CollapseOfSpaces(text);
      cl, ct := CollapseSpaces(text), [];
      PadOfEmpty(cl + u + ct, cl, u, ct);
    } else {
      ct := CollapseSpaces(trail);
      CollapseOfSpaces(trail);
      CollapseAppend(u, trail);
      Associative(lead, u, trail);
      assert (u + trail)[0] == u[0];
      cl := CollapseOfLead(text, lead, u + trail);
      Associative(cl, CollapseSpaces(u), ct);
    }
  }

  /** Leading whitespace before a non-whitespace character collapses to at
      most one space. */
  lemma CollapseOfLead(text: string, lead: string, rest: string) returns (cl: string)
    requires text == lead + rest && AllSpace(lead)
    requires rest != [] && !IsSpace(rest[0])
    ensures AllSpace(cl) && CollapseSpaces(text) == cl + CollapseSpaces(rest)
  {
    if lead == [] {
      cl := [];
      assert text == rest;
      assert cl + CollapseSpaces(rest) == CollapseSpaces(rest);
    } else {
      CollapseOfGapPrefix(lead, rest);
      cl := [' '];
    }
  }

  /** An empty middle piece or an empty end leaves the concatenation
      unchanged, and whitespace-only pieces give a whitespace-only whole. */
  lemma PadOfEmpty(text: string, lead: string, u: string, trail: string)
    requires text == lead + u + trail
    ensures u == [] ==> text == lead + trail
    ensures lead == [] && trail == [] ==> text == u
    ensures AllSpace(lead) && AllSpace(u) && AllSpace(trail) ==> AllSpace(text)
  {
    assert forall k :: 0 <= k < |text| ==>
      text[k] == (if k < |lead| then lead[k] else if k < |lead| + |u| then u[k - |lead|] else trail[k - |lead| - |u|]);
  }

  lemma {:induction false} ConcatLength(ws: seq<string>)
    requires forall i :: 0 <= i < |ws| ==> ws[i] != []
    ensures |ws| <= |Concat(ws)|
  {
    if ws != [] {
      ConcatLength(ws[1..]);
    }
  }

  /** A text has at most as many words as non-whitespace characters. */
  lemma CountWordsBound(text: string)
    ensures CountWords(text) <= |RemoveSpaces(text)| <= |text|
  {
    WordsKeepText(text);
    ConcatLength(SplitIntoWords(text));
  }

  // ---------------------------------------------------------------------
  // normalizeText

  /** `replace(/\s+/g, ' ')`: every whitespace run becomes one space. */
  function CollapseSpaces(s: string): (r: string)
    ensures s == [] <==> r == []
    ensures s != [] ==> r[0] == (if IsSpace(s[0]) then ' ' else s[0])
    ensures s != [] ==> r[|r| - 1] == (if IsSpace(s[|s| - 1]) then ' ' else s[|s| - 1])
    decreases |s|
  {
    if s == [] then []
    else if IsSpace(s[0]) then
      var j := SpaceRunEnd(s, 0);
      assert j == |s| ==> IsSpace(s[|s| - 1]) by {
        if j == |s| {
          assert s[0..j][|s| - 1] == s[|s| - 1];
        }
      }
      assert j < |s| ==> s[j..][|s[j..]| - 1] == s[|s| - 1];
      [' '] + CollapseSpaces(s[j..])
    else
      assert |s| > 1 ==> s[1..][|s| - 2] == s[|s| - 1];
      [s[0]] + CollapseSpaces(s[1..])
  }

  /** The collapsed text has only blanks for whitespace and never two
      whitespace characters in a row. */
  lemma {:induction false} CollapseIsNormal(s: string)
    ensures NoDoubleSpace(CollapseSpaces(s)) && SpacesAreBlanks(CollapseSpaces(s))
    decreases |s|
  {
    if s != [] {
      if IsSpace(s[0]) {
        var j := SpaceRunEnd(s, 0);
        CollapseIsNormal(s[j..]);
        ConsKeepsNormal(' ', CollapseSpaces(s[j..]));
      } else {
        CollapseIsNormal(s[1..]);
        ConsKeepsNormal(s[0], CollapseSpaces(s[1..]));
      }
    }
  }

  /** A blank before a non-whitespace start, or a non-whitespace
      character before anything, keeps a text in collapsed form. */
  lemma ConsKeepsNormal(x: char, t: string)
    requires NoDoubleSpace(t) && SpacesAreBlanks(t)
    requires IsSpace(x) ==> x == ' ' && (t == [] || !IsSpace(t[0]))
    ensures NoDoubleSpace([x] + t) && SpacesAreBlanks([x] + t)
  {
    var c := [x] + t;
    forall i, j | 0 <= i < j < |c| && j == i + 1
      ensures !(IsSpace(c[i]) && IsSpace(c[j]))
    {
      if i > 0 {
        assert c[i] == t[i - 1] && c[j] == t[j - 1];
      } else if t != [] {
        assert c[j] == t[0];
      }
    }
    forall i | 0 <= i < |c| && IsSpace(c[i])
      ensures c[i] == ' '
    {
      if i > 0 {
        assert c[i] == t[i - 1];
      }
    }
  }

  /** A whitespace-free prefix passes through unchanged. */
  lemma {:induction false} CollapseOfWordPrefix(w: string, rest: string)
    requires NoSpace(w)
    ensures CollapseSpaces(w + rest) == w + CollapseSpaces(rest)
    decreases |w|
  {
    if w == [] {
      assert w + rest == rest;
    } else {
      assert (w + rest)[1..] == w[1..] + rest;
      CollapseOfWordPrefix(w[1..], rest);
    }
  }

  /** Index arithmetic of SpaceRunEnd: a whitespace prefix followed by a
      non-whitespace character ends the run exactly there. */
  lemma {:induction false} RunEndOfGap(g: string, rest: string, k: nat)
    requires AllSpace(g) && k <= |g|
    requires rest == [] || !IsSpace(rest[0])
    ensures SpaceRunEnd(g + rest, k) == |g|
    decreases |g| - k
  {
    if k < |g| {
      RunEndOfGap(g, rest, k + 1);
    }
  }

  /** A whitespace run followed by a non-whitespace character or the end
      becomes one space. */
  lemma CollapseOfGapPrefix(g: string, rest: string)
    requires AllSpace(g) && g != []
    requires rest == [] || !IsSpace(rest[0])
    ensures CollapseSpaces(g + rest) == [' '] + CollapseSpaces(rest)
  {
    RunEndOfGap(g, rest, 0);
    assert (g + rest)[|g|..] == rest;
  }

  /** One word, one whitespace run, then the rest. */
  lemma CollapseStep(w: string, g: string, rest: string)
    requires NoSpace(w) && AllSpace(g) && g != []
    requires rest == [] || !IsSpace(rest[0])
    ensures CollapseSpaces(w + g + rest) == w + [' '] + CollapseSpaces(rest)
  {
    Associative(w, g, rest);
    CollapseOfWordPrefix(w, g + rest);
    CollapseOfGapPrefix(g, rest);
  }

  /** A whitespace-only text collapses to at most one space. */
  lemma CollapseOfSpaces(s: string)
    requires AllSpace(s)
    ensures AllSpace(CollapseSpaces(s)) && |CollapseSpaces(s)| <= 1
  {
    if s != [] {
      CollapseOfGapPrefix(s, []);
      assert s + [] == s;
    }
  }

  /** Collapsing whitespace keeps every other character, in order. */
  lemma {:induction false} CollapseKeepsText(s: string)
    ensures RemoveSpaces(CollapseSpaces(s)) == RemoveSpaces(s)
    decreases |s|
  {
    if s != [] {
      if IsSpace(s[0]) {
        var j := SpaceRunEnd(s, 0);
        CollapseKeepsText(s[j..]);
        assert ([' '] + CollapseSpaces(s[j..]))[1..] == CollapseSpaces(s[j..]);
        assert s == s[..j] + s[j..];
        RemoveSpacesAppend(s[..j], s[j..]);
        assert s[..j] == s[0..j];
        RemoveSpacesOfSpaces(s[..j]);
      } else {
        CollapseKeepsText(s[1..]);
        assert ([s[0]] + CollapseSpaces(s[1..]))[1..] == CollapseSpaces(s[1..]);
      }
    }
  }

  /** A text that ends with a non-whitespace character is either one word
      or a word, a whitespace run and a shorter such text. */
  lemma FirstGap(a: string) returns (w: string, g: string, rest: string)
    requires a != [] && !IsSpace(a[|a| - 1])
    ensures NoSpace(a) || FirstGapOf(a, w, g, rest)
  {
    var k := NextSpace(a, 0);
    if k == |a| {
      assert a[0..k] == a;
      w, g, rest := a, [], [];
    } else {
      var j := SpaceRunEnd(a, k);
      SplitPieces(a, k, j);
      RunEndsBeforeWord(a, k);
      SliceParts(a, k, j);
      w, g, rest := a[..k], a[k..j], a[j..];
      assert rest[0] == a[j] && rest[|rest| - 1] == a[|a| - 1];
    }
  }

  /** In a text that ends with a non-whitespace character, every
      whitespace run ends before the end. */
  lemma {:induction false} RunEndsBeforeWord(a: string, k: nat)
    requires k < |a| && !IsSpace(a[|a| - 1])
    ensures SpaceRunEnd(a, k) < |a|
    decreases |a| - k
  {
    if k < |a| - 1 && IsSpace(a[k]) {
      RunEndsBeforeWord(a, k + 1);
    }
  }

  predicate FirstGapOf(a: string, w: string, g: string, rest: string)
  {
    && a == w + g + rest && NoSpace(w) && AllSpace(g) && g != []
    && rest != [] && !IsSpace(rest[0]) && !IsSpace(rest[|rest| - 1])
  }

  /** A text that ends with a non-whitespace character collapses
      independently of what follows it. */
  lemma {:induction false} CollapseAppend(a: string, b: string)
    requires a != [] && !IsSpace(a[|a| - 1])
    ensures CollapseSpaces(a + b) == CollapseSpaces(a) + CollapseSpaces(b)
    decreases |a|
  {
    var w, g, rest := FirstGap(a);
    if NoSpace(a) {
      CollapseOfWord(a, b);
    } else {
      assert |rest| < |a|;
      CollapseAppend(rest, b);
      CollapseAppendStep(a, b, w, g, rest);
    }
  }

  lemma CollapseOfWord(a: string, b: string)
    requires NoSpace(a)
    ensures CollapseSpaces(a + b) == CollapseSpaces(a) + CollapseSpaces(b)
  {
    CollapseOfWordPrefix(a, b);
    CollapseOfWordPrefix(a, []);
    assert a + [] == a;
  }

  lemma CollapseAppendStep(a: string, b: string, w: string, g: string, rest: string)
    requires FirstGapOf(a, w, g, rest)
    requires CollapseSpaces(rest + b) == CollapseSpaces(rest) + CollapseSpaces(b)
    ensures CollapseSpaces(a + b) == CollapseSpaces(a) + CollapseSpaces(b)
  {
    Associative(w + g, rest, b);
    assert (rest + b)[0] == rest[0];
    CollapseStep(w, g, rest + b);
    CollapseStep(w, g, rest);
    Associative(w + [' '], CollapseSpaces(rest), CollapseSpaces(b));
  }

  lemma Associative(x: string, y: string, z: string)
    ensures x + y + z == x + (y + z)
  {
  }

  ghost predicate NoDoubleSpace(s: string)
  {
    forall i, j :: 0 <= i < j < |s| && j == i + 1 ==> !(IsSpace(s[i]) && IsSpace(s[j]))
  }

  predicate SpacesAreBlanks(s: string)
  {
    forall i :: 0 <= i < |s| && IsSpace(s[i]) ==> s[i] == ' '
  }

  lemma TrimKeepsNormal(c: string)
    requires NoDoubleSpace(c) && SpacesAreBlanks(c)
    ensures NoDoubleSpace(Trim(c)) && SpacesAreBlanks(Trim(c))
  {
    var i, j :| 0 <= i <= j <= |c| && Trim(c) == c[i..j] && AllSpace(c[..i]) && AllSpace(c[j..]);
    SliceKeepsNormal(c, i, j);
  }

  lemma SliceKeepsNormal(c: string, i: nat, j: nat)
    requires i <= j <= |c|
    requires NoDoubleSpace(c) && SpacesAreBlanks(c)
    ensures NoDoubleSpace(c[i..j]) && SpacesAreBlanks(c[i..j])
  {
    var r := c[i..j];
    forall k, m | 0 <= k < m < |r| && m == k + 1
      ensures !(IsSpace(r[k]) && IsSpace(r[m]))
    {
      assert r[k] == c[i + k] && r[m] == c[i + m];
    }
    forall k | 0 <= k < |r| && IsSpace(r[k])
      ensures r[k] == ' '
    {
      assert r[k] == c[i + k];
    }
  }

  /** `normalizeText`: no leading or trailing whitespace, no two
      whitespace characters in a row, the only whitespace is ' ', and every
      other character is kept in order. */
  function NormalizeText(text: string): (r: string)
    ensures Trimmed(r)
    ensures NoDoubleSpace(r) && SpacesAreBlanks(r)
    ensures RemoveSpaces(r) == RemoveSpaces(text)
  {
    var c := CollapseSpaces(text);
    var r := Trim(c);
    NormalFormOf(text, c, r);
    r
  }

  lemma NormalFormOf(text: string, c: string, r: string)
    requires c == CollapseSpaces(text) && r == Trim(c)
    ensures NoDoubleSpace(r) && SpacesAreBlanks(r)
    ensures RemoveSpaces(r) == RemoveSpaces(text)
  {
    CollapseIsNormal(text);
    TrimKeepsNormal(c);
    NormalizeKeepsText(text, c);
  }

  lemma NormalizeKeepsText(text: string, c: string)
    requires c == CollapseSpaces(text)
    ensures RemoveSpaces(Trim(c)) == RemoveSpaces(text)
  {
    CollapseKeepsText(text);
    RemoveSpacesOfTrim(c);
  }

  lemma {:induction false} CollapseOfNormal(s: string)
    requires NoDoubleSpace(s) && SpacesAreBlanks(s)
    ensures CollapseSpaces(s) == s
    decreases |s|
  {
    if s != [] {
      assert NoDoubleSpace(s[1..]) && SpacesAreBlanks(s[1..]);
      CollapseOfNormal(s[1..]);
      if IsSpace(s[0]) {
        assert SpaceRunEnd(s, 0) == 1 by {
          assert SpaceRunEnd(s, 1) == 1;
        }
      }
    }
  }

  lemma TrimOfTrimmed(s: string)
    requires s == [] || (!IsSpace(s[0]) && !IsSpace(s[|s| - 1]))
    ensures Trim(s) == s
  {
    assert TrimStart(s) == s;
  }

  /** Normalising a normalised text changes nothing. */
  lemma NormalizeIdempotent(text: string)
    ensures NormalizeText(NormalizeText(text)) == NormalizeText(text)
  {
    var t := NormalizeText(text);
    CollapseOfNormal(t);
    TrimOfTrimmed(t);
  }

  // ---------------------------------------------------------------------
  // getCharacterPosition, calculatePunctuationDensity

  /** `String.prototype.substring`: both ends clamped into [0, |s|] and
      swapped when the start lies after the end. */
  function Substring(s: string, start: int, end: int): (r: string)
  {
    var a := if start < 0 then 0 else if start > |s| then |s| else start;
    var b := if end < 0 then 0 else if end > |s| then |s| else end;
    if a <= b then s[a..b] else s[b..a]
  }

  function CountChar(s: string, c: char): (n: nat)
    ensures n <= |s|
  {
    if s == [] then 0 else (if s[0] == c then 1 else 0) + CountChar(s[1..], c)
  }

  datatype CharacterPosition = CharacterPosition(
    before: string,
    current: string,
    after: string,
    isEnd: bool,
    lineBreaks: nat)

  /** The text split around a cursor position. Inside the text, the three
      parts put back together are the text and `before` is as long as the
      position; at or past the end everything is `before`; before the start
      everything is `after`. */
  function GetCharacterPosition(text: string, position: int): (p: CharacterPosition)
    ensures 0 <= position < |text| ==>
      p.before + p.current + p.after == text && |p.before| == position && p.current == [text[position]]
    ensures p.isEnd <==> position >= |text|
    ensures position >= |text| ==> p.before == text && p.current == "" && p.after == ""
    ensures position < 0 ==> p.before == "" && p.current == "" && p.after == text
    ensures p.lineBreaks == CountChar(p.before, '\n') && p.lineBreaks <= |p.before|
  {
    var beforeText := Substring(text, 0, position);
    var currentChar := CharAt(text, position);
    var afterText := Substring(text, position + 1, |text|);
    assert 0 <= position < |text| ==> text == text[..position] + [text[position]] + text[position + 1..];
    CharacterPosition(beforeText, currentChar, afterText, position >= |text|, CountChar(beforeText, '\n'))
  }

  /** Positions of the punctuation characters of s. */
  function PunctuationIndices(s: string): set<int>
  {
    set i | 0 <= i < |s| && IsPunctuation(s[i])
  }

  /** `(text.match(/[^\w\s]/g) || []).length`: how many characters of s
      are punctuation, counted from the end. */
  function CountPunctuation(s: string): (n: nat)
    ensures n == |PunctuationIndices(s)|
    ensures n <= |s|
    ensures n == 0 <==> forall i :: 0 <= i < |s| ==> !IsPunctuation(s[i])
  {
    if s == [] then
      assert PunctuationIndices(s) == {};
      0
    else
      var t := s[..|s| - 1];
      var last := |s| - 1;
      assert forall i :: 0 <= i < last ==> s[i] == t[i];
      assert PunctuationIndices(s) ==
        PunctuationIndices(t) + (if IsPunctuation(s[last]) then {last} else {});
      CountPunctuation(t) + (if IsPunctuation(s[last]) then 1 else 0)
  }

  /** Percentage of punctuation characters, rounded; 0 for the empty text. */
  function CalculatePunctuationDensity(text: string): (r: int)
    ensures text == [] ==> r == 0
    ensures 0 <= r <= 100
    ensures (forall i :: 0 <= i < |text| ==> !IsPunctuation(text[i])) ==> r == 0
    ensures text != [] ==>
      r as real - 0.5 <= |PunctuationIndices(text)| as real / |text| as real * 100.0 < r as real + 0.5
  {
    if |text| == 0 then 0
    else
      var count := CountPunctuation(text);
      Calculations.QuotientBounds(count as real, |text| as real);
      Calculations.Round(count as real / |text| as real * 100.0)
  }
}
