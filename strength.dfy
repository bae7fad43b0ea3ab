/**
 * The password-strength indicator shown under the password field. It is a
 * pure classifier, recomputed from the password alone, and it is looser than
 * the validation rules: it never asks for a special character.
 */
module Strength {
  import opened Text
  import opened Patterns

  datatype Strength = Weak | Medium | Strong

  /** `getPasswordStrength`: the three labels are three exclusive cases.
      Weak exactly when the password is shorter than six (UTF-16) characters;
      Strong exactly when it is long enough and holds a lower-case letter, an
      upper-case letter and a digit; Medium exactly when it is long enough
      but lacks one of the three. */
  function StrengthOf(password: string): (r: Strength)
    ensures r == Weak <==> Utf16Length(password) < 6
    ensures r == Strong <==>
      Utf16Length(password) >= 6 && HasLower(password) && HasUpper(password) && HasDigit(password)
    ensures r == Medium <==>
      Utf16Length(password) >= 6 && !(HasLower(password) && HasUpper(password) && HasDigit(password))
  {
    if Utf16Length(password) < 6 then Weak
    else if !HasLower(password) || !HasUpper(password) || !HasDigit(password) then Medium
    else Strong
  }

  /** The order of the three labels, weakest first. */
  function Rank(s: Strength): (n: nat)
    ensures n <= 2
    ensures s == Weak <==> n == 0
    ensures s == Strong <==> n == 2
  {
    match s
    case Weak => 0
    case Medium => 1
    case Strong => 2
  }

  /** Typing more characters, anywhere in the password, never lowers the
      indicator. */
  lemma {:induction false} StrengthMonotone(before: string, typed: string, after: string)
    ensures Rank(StrengthOf(before + after)) <= Rank(StrengthOf(before + typed + after))
  {
    Utf16LengthAppend(before, after);
    Utf16LengthAppend(before, typed);
    Utf16LengthAppend(before + typed, after);
    ContainsIsPreservedByInsertion(before, typed, after);
  }

  /** The indicator of the examples "ab", "abcdef" and "Abcdef1". */
  lemma StrengthExamples()
    ensures StrengthOf("ab") == Weak
    ensures StrengthOf("abcdef") == Medium
    ensures StrengthOf("Abcdef1") == Strong
  {
    Utf16LengthOfBmp("ab");
    Utf16LengthOfBmp("abcdef");
    Utf16LengthOfBmp("Abcdef1");
    var t := "Abcdef1";
    assert 'A' <= t[0] <= 'Z' && 'a' <= t[1] <= 'z' && '0' <= t[6] <= '9';
  }
}
