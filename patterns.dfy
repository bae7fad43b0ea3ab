/**
 * The regular expressions of the form, each written as the predicate its
 * `test` decides. A `test` without anchors succeeds when SOME substring of
 * the input matches, so each predicate is an existential over positions.
 */
module Patterns {
  import opened Text

  /** `s[lo..hi]` is a non-empty run of non-space characters, i.e. a match
      of `\S+`. */
  predicate NonSpaceRun(s: string, lo: int, hi: int) {
    0 <= lo < hi <= |s| && forall i | lo <= i < hi :: !IsSpace(s[i])
  }

  /** `s[a..e]` matches `\S+@\S+\.\S+`, with the `@` at `p` and the `.` at `q`. */
  predicate EmailMatchAt(s: string, a: int, p: int, q: int, e: int) {
    && NonSpaceRun(s, a, p)
    && p < |s| && s[p] == '@'
    && NonSpaceRun(s, p + 1, q)
    && q < |s| && s[q] == '.'
    && NonSpaceRun(s, q + 1, e)
  }

  /** `/\S+@\S+\.\S+/.test(s)`: some substring of `s` has the shape
      non-space+ '@' non-space+ '.' non-space+. */
  predicate EmailPattern(s: string) {
    exists a, p, q, e | 0 <= a <= p <= q <= e <= |s| :: EmailMatchAt(s, a, p, q, e)
  }

  /** The characters `[!@#$%^&*]` of the special-character rule. */
  const SpecialChars: set<char> := {'!', '@', '#', '$', '%', '^', '&', '*'}

  /** `/(?=.*[!@#$%^&*])/.test(s)`: the look-ahead succeeds at the position
      just before any special character, so the test holds exactly when `s`
      contains one. */
  predicate HasSpecial(s: string) {
    exists i | 0 <= i < |s| :: s[i] in SpecialChars
  }

  /** `/(?=.*[a-z])/.test(s)`: `s` contains an ASCII lower-case letter. */
  predicate HasLower(s: string) {
    exists i | 0 <= i < |s| :: 'a' <= s[i] <= 'z'
  }

  /** `/(?=.*[A-Z])/.test(s)`: `s` contains an ASCII upper-case letter. */
  predicate HasUpper(s: string) {
    exists i | 0 <= i < |s| :: 'A' <= s[i] <= 'Z'
  }

  /** `/(?=.*\d)/.test(s)`: `s` contains an ASCII digit (`\d` is `[0-9]`). */
  predicate HasDigit(s: string) {
    exists i | 0 <= i < |s| :: '0' <= s[i] <= '9'
  }

  /** An ASCII letter or digit. */
  predicate IsAsciiAlphanumeric(c: char) {
    ('a' <= c <= 'z') || ('A' <= c <= 'Z') || ('0' <= c <= '9')
  }

  /** Text made of ASCII letters and digits fails the special-character test. */
  lemma AlphanumericHasNoSpecial(s: string)
    requires forall i | 0 <= i < |s| :: IsAsciiAlphanumeric(s[i])
    ensures !HasSpecial(s)
  {
  }

  /** The email pattern cannot match text made only of white space: a match
      holds an '@', which is not white space. */
  lemma BlankIsNoEmail(s: string)
    requires AllSpace(s)
    ensures !EmailPattern(s)
  {
  }

  /** Nor can the special-character rule be met by white space alone. */
  lemma SpecialIsNotBlank(s: string)
    requires HasSpecial(s)
    ensures !AllSpace(s)
  {
    var i :| 0 <= i < |s| && s[i] in SpecialChars;
  }

  /** The email pattern holds exactly when there is an '@' at `p` and a '.'
      at `q` with a non-space character just before the '@', only non-space
      characters strictly between them, and a non-space character right
      after the '.': the outer runs of a match may shrink to one character. */
  lemma {:induction false} EmailPatternShortest(s: string)
    ensures EmailPattern(s) <==>
      exists p, q | 0 < p && p + 1 < q && q + 1 < |s| ::
        s[p] == '@' && s[q] == '.' && NonSpaceRun(s, p - 1, p) &&
        NonSpaceRun(s, p + 1, q) && NonSpaceRun(s, q + 1, q + 2)
  {
    if EmailPattern(s) {
      var a, p, q, e :| 0 <= a <= p <= q <= e <= |s| && EmailMatchAt(s, a, p, q, e);
      assert NonSpaceRun(s, p - 1, p) && NonSpaceRun(s, q + 1, q + 2);
    }
    if exists p, q | 0 < p && p + 1 < q && q + 1 < |s| ::
        s[p] == '@' && s[q] == '.' && NonSpaceRun(s, p - 1, p) &&
        NonSpaceRun(s, p + 1, q) && NonSpaceRun(s, q + 1, q + 2)
    {
      var p, q :| 0 < p && p + 1 < q && q + 1 < |s| &&
        s[p] == '@' && s[q] == '.' && NonSpaceRun(s, p - 1, p) &&
        NonSpaceRun(s, p + 1, q) && NonSpaceRun(s, q + 1, q + 2);
      assert EmailMatchAt(s, p - 1, p, q, q + 2);
    }
  }

  /** Because the pattern is unanchored, surrounding text never undoes a
      match: whatever precedes or follows an address-shaped substring, the
      email test still passes. */
  lemma {:induction false} EmailPatternUnanchored(pre: string, s: string, post: string)
    requires EmailPattern(s)
    ensures EmailPattern(pre + s + post)
  {
    var a, p, q, e :| 0 <= a <= p <= q <= e <= |s| && EmailMatchAt(s, a, p, q, e);
    var t, k := pre + s + post, |pre|;
    forall i | 0 <= i < |s| ensures t[k + i] == s[i] { }
    EmailMatchShifts(s, t, k, a, p, q, e);
  }

  /** A match inside `s` is a match at the same place of any `t` that holds
      `s` from position `k` on. */
  lemma EmailMatchShifts(s: string, t: string, k: nat, a: int, p: int, q: int, e: int)
    requires k + |s| <= |t| && forall i | 0 <= i < |s| :: t[k + i] == s[i]
    requires EmailMatchAt(s, a, p, q, e)
    ensures EmailMatchAt(t, k + a, k + p, k + q, k + e)
  {
    RunShifts(s, t, k, a, p);
    RunShifts(s, t, k, p + 1, q);
    RunShifts(s, t, k, q + 1, e);
    assert t[k + p] == s[p] && t[k + q] == s[q];
  }

  /** A run of non-space characters of `s` stays one in `t`, shifted by `k`. */
  lemma RunShifts(s: string, t: string, k: nat, lo: int, hi: int)
    requires k + |s| <= |t| && forall i | 0 <= i < |s| :: t[k + i] == s[i]
    requires NonSpaceRun(s, lo, hi)
    ensures NonSpaceRun(t, k + lo, k + hi)
  {
    forall i | k + lo <= i < k + hi ensures !IsSpace(t[i]) {
      assert t[k + (i - k)] == s[i - k];
    }
  }

  /** Inserting text anywhere keeps every "contains a ..." test true: the
      character that met the test is still there, shifted past the inserted
      text if it came after the insertion point. */
  lemma ContainsIsPreservedByInsertion(before: string, typed: string, after: string)
    ensures HasSpecial(before + after) ==> HasSpecial(before + typed + after)
    ensures HasLower(before + after) ==> HasLower(before + typed + after)
    ensures HasUpper(before + after) ==> HasUpper(before + typed + after)
    ensures HasDigit(before + after) ==> HasDigit(before + typed + after)
  {
    var s, t := before + after, before + typed + after;
    forall i | 0 <= i < |s|
      ensures t[if i < |before| then i else i + |typed|] == s[i]
    {
      if i >= |before| {
        assert s[i] == after[i - |before|];
        assert t[i + |typed|] == after[i - |before|];
      }
    }
    if HasSpecial(s) {
      var i :| 0 <= i < |s| && s[i] in SpecialChars;
      assert t[if i < |before| then i else i + |typed|] in SpecialChars;
    }
    if HasLower(s) {
      var i :| 0 <= i < |s| && 'a' <= s[i] <= 'z';
      assert 'a' <= t[if i < |before| then i else i + |typed|] <= 'z';
    }
    if HasUpper(s) {
      var i :| 0 <= i < |s| && 'A' <= s[i] <= 'Z';
      assert 'A' <= t[if i < |before| then i else i + |typed|] <= 'Z';
    }
    if HasDigit(s) {
      var i :| 0 <= i < |s| && '0' <= s[i] <= '9';
      assert '0' <= t[if i < |before| then i else i + |typed|] <= '9';
    }
  }
}
