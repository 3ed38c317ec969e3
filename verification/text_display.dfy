/** The word under the cursor in the passage display. Words are separated
    by the space character only; an index outside the text reads as a
    non-space character, as `text[i] !== ' '` does for `undefined`. */
module TextDisplay {
  import opened Util
  import TextProcessing

  predicate IsBlankAt(text: string, i: int)
  {
    0 <= i < |text| && text[i] == ' '
  }

  /** text[s..e] is the maximal run of non-space characters that reaches
      the cursor (clamped to the end of the text). */
  predicate WordAround(text: string, position: int, s: int, e: int)
  {
    && 0 <= s <= Min(position, |text|) <= e <= |text|
    && (s == 0 || text[s - 1] == ' ')
    && (e == |text| || text[e] == ' ')
    && (forall k :: s <= k < e ==> text[k] != ' ')
  }

  /** There is only one such run. */
  lemma WordAroundUnique(text: string, position: int, s1: int, e1: int, s2: int, e2: int)
    requires WordAround(text, position, s1, e1) && WordAround(text, position, s2, e2)
    ensures s1 == s2 && e1 == e2
  {
  }

  /** `getCurrentWord`: '' for an empty text or a negative position;
      otherwise the word around the cursor, found by scanning back to the
      previous space and forward to the next one. */
  method GetCurrentWord(text: string, position: int) returns (word: string)
    ensures text == [] || position < 0 ==> word == ""
    ensures forall i :: 0 <= i < |word| ==> word[i] != ' '
    ensures text != [] && position >= 0 ==>
      exists s, e :: WordAround(text, position, s, e) && word == text[s..e]
  {
    if text == [] || position < 0 {
      return "";
    }
    var start := position;
    var end := position;
    while start > 0 && !IsBlankAt(text, start - 1)
      invariant 0 <= start <= position
      invariant forall k :: start <= k < position ==> !IsBlankAt(text, k)
      decreases start
    {
      start := start - 1;
    }
    while end < |text| && !IsBlankAt(text, end)
      invariant position <= end <= Max(|text|, position)
      invariant forall k :: position <= k < end ==> !IsBlankAt(text, k)
      decreases |text| - end
    {
      end := end + 1;
    }
    word := TextProcessing.Substring(text, start, end);
    var e := Min(end, |text|);
    assert word == text[start..e];
    forall k | start <= k < e
      ensures text[k] != ' '
    {
      assert !IsBlankAt(text, k);
    }
    assert WordAround(text, position, start, e);
  }
}
