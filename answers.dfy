/** The answer evaluator: a submitted answer is right when it equals the stored
    answer after both are lower-cased (`toLowerCase()` on each side). Nothing is
    trimmed, so surrounding spaces make an otherwise right answer wrong. */
module Answers {

  predicate IsAsciiUpper(c: char) {
    'A' <= c <= 'Z'
  }

  /** Lower-casing of one character, restricted to ASCII letters. */
  function Lower(c: char): (d: char)
    ensures !IsAsciiUpper(d)
    ensures IsAsciiUpper(c) ==> d as int == c as int + 32
    ensures !IsAsciiUpper(c) ==> d == c
  {
    if IsAsciiUpper(c) then (c as int + 32) as char else c
  }

  /** `s.toLowerCase()`: lower-cases every character and keeps the length. */
  function LowerStr(s: string): (r: string)
    ensures |r| == |s|
    ensures forall i :: 0 <= i < |s| ==> r[i] == Lower(s[i])
  {
    if s == [] then [] else [Lower(s[0])] + LowerStr(s[1..])
  }

  /** The comparison made by the submit handler. Lower-casing keeps lengths,
      so answers of different lengths never match. */
  predicate SameAnswer(stored: string, given: string)
    ensures SameAnswer(stored, given) ==> |stored| == |given|
  {
    LowerStr(stored) == LowerStr(given)
  }

  /** Two answers match exactly when they have the same length and agree
      character by character once each character is lower-cased. */
  lemma SameAnswerPointwise(stored: string, given: string)
    ensures SameAnswer(stored, given) <==>
            |stored| == |given| && forall i :: 0 <= i < |stored| ==> Lower(stored[i]) == Lower(given[i])
  {
    if |stored| == |given| && forall i :: 0 <= i < |stored| ==> Lower(stored[i]) == Lower(given[i]) {
      var a, b := LowerStr(stored), LowerStr(given);
      assert forall i :: 0 <= i < |a| ==> a[i] == b[i];
    }
  }

  /** Lower-casing twice is lower-casing once, so a lower-cased answer matches
      the answer it came from. */
  lemma {:induction false} LowerStrIdempotent(s: string)
    ensures LowerStr(LowerStr(s)) == LowerStr(s)
    ensures SameAnswer(LowerStr(s), s)
  {
    if s != [] {
      LowerStrIdempotent(s[1..]);
      assert LowerStr(s) == [Lower(s[0])] + LowerStr(s[1..]);
    }
  }

  /** No trimming: a match needs equal lengths, so an answer with an extra
      leading or trailing character never matches. */
  lemma PaddedAnswerNeverMatches(stored: string, given: string, pad: char)
    ensures !SameAnswer(stored, given + [pad]) || |stored| == |given| + 1
    ensures !SameAnswer(stored, [pad] + given) || |stored| == |given| + 1
    ensures SameAnswer(stored, given) ==> !SameAnswer(stored, given + [pad]) && !SameAnswer(stored, [pad] + given)
  {
    SameAnswerPointwise(stored, given);
    SameAnswerPointwise(stored, given + [pad]);
    SameAnswerPointwise(stored, [pad] + given);
  }

  /** "Paris" matches "paris" and "PARIS"; "paris " does not match "paris". */
  lemma ParisExamples()
    ensures SameAnswer("paris", "Paris")
    ensures SameAnswer("paris", "PARIS")
    ensures !SameAnswer("paris", "paris ")
  {
    SameAnswerPointwise("paris", "Paris");
    SameAnswerPointwise("paris", "PARIS");
    PaddedAnswerNeverMatches("paris", "paris", ' ');
  }
}
