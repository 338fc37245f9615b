/** The input rules shared by registration and profile updates: the minimum
    password length and the e-mail pattern `^[^\s@]+@[^\s@]+\.[^\s@]+$`. */
module Validation {
  import opened Text

  const MinPasswordLength := 6

  /** `password.length < 6` is the rejected case. */
  predicate LongEnough(password: string) {
    |password| >= MinPasswordLength
  }

  /** `[^\s@]`: neither whitespace nor an at-sign. */
  predicate Plain(c: char) {
    !IsSpace(c) && c != '@'
  }

  predicate AllPlain(s: string, lo: int, hi: int)
    requires 0 <= lo <= hi <= |s|
  {
    forall k | lo <= k < hi :: Plain(s[k])
  }

  /** `/^[^\s@]+@[^\s@]+\.[^\s@]+$/.test(s)`: `s` splits at an '@' (position `i`)
      and a later '.' (position `j`) into three non-empty runs of plain characters. */
  predicate MatchesEmailPattern(s: string) {
    exists i, j | 0 < i && i + 1 < j && j + 1 < |s| ::
      s[i] == '@' && s[j] == '.' && AllPlain(s, 0, i) && AllPlain(s, i + 1, j) && AllPlain(s, j + 1, |s|)
  }

  /** The same pattern described character by character. */
  predicate EmailShape(s: string) {
    && NoSpace(s)
    && exists i | 0 < i < |s| ::
         && s[i] == '@'
         && (forall k | 0 <= k < |s| && s[k] == '@' :: k == i)
         && exists j | i + 1 < j < |s| - 1 :: s[j] == '.'
  }

  /** An address matches the pattern exactly when it has no whitespace, exactly
      one '@' with a non-empty part before it, and after the '@' a '.' that has
      at least one character on each side. */
  lemma EmailPatternShape(s: string)
    ensures MatchesEmailPattern(s) <==> EmailShape(s)
  {
    if MatchesEmailPattern(s) {
      PatternHasShape(s);
    }
    if EmailShape(s) {
      ShapeMatchesPattern(s);
    }
  }

  lemma PatternHasShape(s: string)
    requires MatchesEmailPattern(s)
    ensures EmailShape(s)
  {
    var i, j :| 0 < i && i + 1 < j && j + 1 < |s| &&
      s[i] == '@' && s[j] == '.' && AllPlain(s, 0, i) && AllPlain(s, i + 1, j) && AllPlain(s, j + 1, |s|);
    assert forall k | 0 <= k < |s| && k != i :: Plain(s[k]);
  }

  lemma ShapeMatchesPattern(s: string)
    requires EmailShape(s)
    ensures MatchesEmailPattern(s)
  {
    var i :| 0 < i < |s| && s[i] == '@' && (forall k | 0 <= k < |s| && s[k] == '@' :: k == i)
      && exists j | i + 1 < j < |s| - 1 :: s[j] == '.';
    var j :| i + 1 < j < |s| - 1 && s[j] == '.';
    assert AllPlain(s, 0, i) && AllPlain(s, i + 1, j) && AllPlain(s, j + 1, |s|);
  }

  /** An address that matches the pattern is unchanged by trimming. */
  lemma EmailPatternIsTrimmed(s: string)
    requires MatchesEmailPattern(s)
    ensures Trim(s) == s
  {
    EmailPatternShape(s);
    TrimOfNoSpace(s);
  }
}
