/** Identifier rules shared by variable and function names (common.rs). */
module Common {

  predicate IsAsciiLetter(c: char) { 'a' <= c <= 'z' || 'A' <= c <= 'Z' }

  /** `\w` on ASCII text: letters, digits and the underscore. */
  predicate IsWordChar(c: char) { IsAsciiLetter(c) || '0' <= c <= '9' || c == '_' }

  /** The regular expression `^[a-zA-Z]+\w*$`, read literally: a non-empty
      run of letters, then any number of word characters, covering the
      whole name. */
  predicate MatchesVarnamePattern(name: string) {
    exists k :: 1 <= k <= |name| && LettersBefore(name, k) && WordCharsFrom(name, k)
  }

  predicate LettersBefore(name: string, k: nat)
    requires k <= |name|
  {
    forall i :: 0 <= i < k ==> IsAsciiLetter(name[i])
  }

  predicate WordCharsFrom(name: string, k: nat)
    requires k <= |name|
  {
    forall i :: k <= i < |name| ==> IsWordChar(name[i])
  }

  /** `is_varname_valid`: the name starts with a letter and every character
      is a word character. */
  predicate IsVarnameValid(name: string) {
    |name| > 0 && IsAsciiLetter(name[0]) && forall i :: 0 <= i < |name| ==> IsWordChar(name[i])
  }

  /** The scan agrees with the pattern on every name. */
  lemma VarnameMatchesPattern(name: string)
    ensures IsVarnameValid(name) <==> MatchesVarnamePattern(name)
  {
    if IsVarnameValid(name) {
      assert LettersBefore(name, 1) && WordCharsFrom(name, 1);
    }
    if MatchesVarnamePattern(name) {
      var k :| 1 <= k <= |name| && LettersBefore(name, k) && WordCharsFrom(name, k);
      assert IsAsciiLetter(name[0]);
      assert forall i :: 0 <= i < |name| ==> IsWordChar(name[i]) by {
        forall i | 0 <= i < |name|
          ensures IsWordChar(name[i])
        {
          if i < k {
            assert IsAsciiLetter(name[i]);
          }
        }
      }
    }
  }

  /** The empty name, a name starting with a digit or an underscore, and a
      name holding any non-word character (such as `-` or a space) are all
      refused. */
  lemma VarnameRejections(name: string)
    ensures name == [] ==> !IsVarnameValid(name)
    ensures |name| > 0 && ('0' <= name[0] <= '9' || name[0] == '_') ==> !IsVarnameValid(name)
    ensures (exists i :: 0 <= i < |name| && !IsWordChar(name[i])) ==> !IsVarnameValid(name)
  {
  }

  /** A few names checked against the pattern. */
  lemma VarnameExamples()
    ensures IsVarnameValid("x") && IsVarnameValid("count_2") && IsVarnameValid("Ab9")
    ensures !IsVarnameValid("2x") && !IsVarnameValid("_x") && !IsVarnameValid("a-b") && !IsVarnameValid("a b")
  {
    assert !IsWordChar("a-b"[1]);
    assert !IsWordChar("a b"[1]);
  }
}
