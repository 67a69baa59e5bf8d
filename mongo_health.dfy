/**
 * `mongo_query_error`: the guard that refuses search phrases holding a
 * character from `SPECIAL_CHARS` before they are spliced into a regular
 * expression sent to the database.
 */
module MongoHealth {

  /** `SPECIAL_CHARS`. */
  const SpecialChars: string := "*/!-,`["

  predicate IsSpecialChar(c: char) {
    c in SpecialChars
  }

  /** The input holds at least one special character. */
  predicate HasSpecialChar(input: string) {
    exists j :: 0 <= j < |input| && IsSpecialChar(input[j])
  }

  /**
   * `mongo_query_error`: scans `SPECIAL_CHARS` in order and stops at the first
   * one that occurs in the input.
   */
  method MongoQueryError(input: string) returns (toReturn: bool)
    ensures toReturn <==> HasSpecialChar(input)
  {
    toReturn := false;
    var i := 0;
    while i < |SpecialChars|
      invariant 0 <= i <= |SpecialChars|
      invariant toReturn <==> exists k :: 0 <= k < i && SpecialChars[k] in input
    {
      if SpecialChars[i] in input {
        toReturn := true;
        break;
      }
      i := i + 1;
    }
  }

  /** Flagging a concatenation is flagging either part. */
  lemma {:induction false} HasSpecialCharConcat(a: string, b: string)
    ensures HasSpecialChar(a + b) <==> HasSpecialChar(a) || HasSpecialChar(b)
  {
    if HasSpecialChar(a + b) {
      var j :| 0 <= j < |a + b| && IsSpecialChar((a + b)[j]);
      if j >= |a| {
        assert b[j - |a|] == (a + b)[j];
      }
    }
    if HasSpecialChar(b) {
      var j :| 0 <= j < |b| && IsSpecialChar(b[j]);
      assert (a + b)[|a| + j] == b[j];
    }
    if HasSpecialChar(a) {
      var j :| 0 <= j < |a| && IsSpecialChar(a[j]);
      assert (a + b)[j] == a[j];
    }
  }

  /**
   * Inserting a character outside `SPECIAL_CHARS` (a letter, a digit, `.`,
   * `?`, `(`, ...) anywhere never changes the verdict.
   */
  lemma OrdinaryCharNeverFlags(a: string, c: char, b: string)
    requires !IsSpecialChar(c)
    ensures HasSpecialChar(a + [c] + b) <==> HasSpecialChar(a + b)
  {
    HasSpecialCharConcat(a + [c], b);
    HasSpecialCharConcat(a, [c]);
    HasSpecialCharConcat(a, b);
  }

  /** Worked cases: the empty string passes, punctuation outside the set passes, each special character is caught. */
  lemma MongoQueryErrorExamples()
    ensures !HasSpecialChar("")
    ensures !HasSpecialChar("a.b?c(1)")
    ensures forall k :: 0 <= k < |SpecialChars| ==> HasSpecialChar("note" + [SpecialChars[k]])
  {
    var s := "a.b?c(1)";
    assert forall j :: 0 <= j < |s| ==> !IsSpecialChar(s[j]);
    forall k | 0 <= k < |SpecialChars|
      ensures HasSpecialChar("note" + [SpecialChars[k]])
    {
      assert ("note" + [SpecialChars[k]])[4] == SpecialChars[k];
    }
  }
}
