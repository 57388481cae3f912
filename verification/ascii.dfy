/**
  ASCII case mapping. Python's `str.lower()` folds the whole of Unicode; the
  model folds only the letters `A`..`Z`, which is all the presence vocabulary uses.
*/
module Ascii {

  predicate IsUpper(c: char) { 'A' <= c <= 'Z' }

  predicate IsLower(c: char) { 'a' <= c <= 'z' }

  function LowerChar(c: char): char {
    if IsUpper(c) then (c as int + 32) as char else c
  }

  function UpperChar(c: char): char {
    if IsLower(c) then (c as int - 32) as char else c
  }

  /** `s.lower()`, restricted to ASCII letters. */
  function Lower(s: string): (r: string)
    ensures |r| == |s|
    ensures forall i :: 0 <= i < |s| ==> r[i] == LowerChar(s[i])
    ensures forall i :: 0 <= i < |r| ==> !IsUpper(r[i])
  {
    seq(|s|, i requires 0 <= i < |s| => LowerChar(s[i]))
  }

  /** Every character of `w` is a lower-case ASCII letter. */
  predicate AllLowerLetters(w: string) {
    forall i :: 0 <= i < |w| ==> IsLower(w[i])
  }

  /**
    Case-insensitive equality against a lower-case word, stated without
    lower-casing `s`: each character is either the letter itself or its capital.
  */
  predicate MatchesIgnoringCase(s: string, w: string) {
    && |s| == |w|
    && forall i :: 0 <= i < |s| ==> s[i] == w[i] || s[i] == UpperChar(w[i])
  }

  /** Lower-casing a string yields a lower-case word exactly when the string spells it in any case. */
  lemma LowerEqualsIffMatches(s: string, w: string)
    requires AllLowerLetters(w)
    ensures Lower(s) == w <==> MatchesIgnoringCase(s, w)
  {
  }
}
