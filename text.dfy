/**
 * The string primitives the form's rules rely on: JavaScript's notion of
 * white space (shared by `String.prototype.trim` and the regular-expression
 * class `\S`), `trim` itself, and the `length` of a string, which JavaScript
 * counts in UTF-16 code units.
 */
module Text {

  /** A character `trim` removes and `\S` refuses: the ECMAScript WhiteSpace
      and LineTerminator characters (TAB, VT, FF, BOM, every Unicode `Zs`
      space, LF, CR, LINE SEPARATOR, PARAGRAPH SEPARATOR). */
  predicate IsSpace(c: char) {
    var n := c as int;
    || n == 0x09 || n == 0x0A || n == 0x0B || n == 0x0C || n == 0x0D
    || n == 0x20 || n == 0xA0 || n == 0x1680
    || (0x2000 <= n <= 0x200A)
    || n == 0x2028 || n == 0x2029 || n == 0x202F || n == 0x205F
    || n == 0x3000 || n == 0xFEFF
  }

  /** Every character of `s` is white space (vacuously true of ""). */
  predicate AllSpace(s: string) {
    forall i | 0 <= i < |s| :: IsSpace(s[i])
  }

  /** `s.trim()`: `s` without its leading and trailing white space. Which
      end is stripped first makes no difference to the result. */
  function Trim(s: string): (r: string)
    ensures |r| <= |s|
    ensures r == [] <==> AllSpace(s)
    ensures r != [] ==> !IsSpace(r[0]) && !IsSpace(r[|r| - 1])
    decreases |s|
  {
    if s == [] then []
    else if IsSpace(s[0]) then Trim(s[1..])
    else if IsSpace(s[|s| - 1]) then Trim(s[..|s| - 1])
    else s
  }

  /** `r` is `s[k..k + |r|]`, and every character of `s` outside that infix
      is white space. */
  predicate TrimmedAt(s: string, r: string, k: int) {
    && 0 <= k && k + |r| <= |s| && r == s[k..k + |r|]
    && (forall i | 0 <= i < k :: IsSpace(s[i]))
    && (forall i | k + |r| <= i < |s| :: IsSpace(s[i]))
  }

  /** Trimming keeps a contiguous part of the text and drops only white
      space around it. */
  lemma {:induction false} TrimDropsOnlySpace(s: string)
    ensures exists k :: TrimmedAt(s, Trim(s), k)
    decreases |s|
  {
    var r := Trim(s);
    if s == [] {
      assert TrimmedAt(s, r, 0);
    } else if IsSpace(s[0]) {
      TrimDropsOnlySpace(s[1..]);
      var k :| TrimmedAt(s[1..], r, k);
      LeadingSpaceKept(s, r, k);
    } else if IsSpace(s[|s| - 1]) {
      TrimDropsOnlySpace(s[..|s| - 1]);
      var k :| TrimmedAt(s[..|s| - 1], r, k);
      TrailingSpaceKept(s, r, k);
    } else {
      assert TrimmedAt(s, r, 0);
    }
  }

  lemma LeadingSpaceKept(s: string, r: string, k: int)
    requires s != [] && IsSpace(s[0]) && TrimmedAt(s[1..], r, k)
    ensures TrimmedAt(s, r, k + 1)
  {
    assert s[k + 1..k + 1 + |r|] == s[1..][k..k + |r|];
    forall i | 1 <= i < k + 1 ensures IsSpace(s[i]) {
      assert s[i] == s[1..][i - 1];
    }
    forall i | k + 1 + |r| <= i < |s| ensures IsSpace(s[i]) {
      assert s[i] == s[1..][i - 1];
    }
  }

  lemma TrailingSpaceKept(s: string, r: string, k: int)
    requires s != [] && IsSpace(s[|s| - 1]) && TrimmedAt(s[..|s| - 1], r, k)
    ensures TrimmedAt(s, r, k)
  {
    assert s[k..k + |r|] == s[..|s| - 1][k..k + |r|];
    forall i | 0 <= i < |s| - 1 ensures s[i] == s[..|s| - 1][i] { }
  }

  /** The `length` JavaScript reports: a character outside the Basic
      Multilingual Plane takes two UTF-16 code units. */
  function Utf16Length(s: string): (n: nat)
    ensures |s| <= n <= 2 * |s|
  {
    if s == [] then 0
    else (if s[0] as int > 0xFFFF then 2 else 1) + Utf16Length(s[1..])
  }

  /** The length of a concatenation is the sum of the lengths. */
  lemma {:induction false} Utf16LengthAppend(s: string, t: string)
    ensures Utf16Length(s + t) == Utf16Length(s) + Utf16Length(t)
  {
    if s != [] {
      assert (s + t)[0] == s[0] && (s + t)[1..] == s[1..] + t;
      Utf16LengthAppend(s[1..], t);
    } else {
      assert s + t == t;
    }
  }

  /** On text within the Basic Multilingual Plane (all the text of the form's
      own messages and examples), the JavaScript length is the sequence length. */
  lemma {:induction false} Utf16LengthOfBmp(s: string)
    requires forall i | 0 <= i < |s| :: s[i] as int <= 0xFFFF
    ensures Utf16Length(s) == |s|
  {
    if s != [] {
      Utf16LengthOfBmp(s[1..]);
    }
  }
}
