/**
 * Character classes and string helpers shared by the document parser and the
 * NLP scoring rules: ASCII lower-casing (`str.lower`), the digit and
 * whitespace classes of Python's `re` module, and substring containment
 * (Python's `p in s`).
 */
module TextUtil {

  /** The `\d` class of the experience pattern, restricted to ASCII digits. */
  predicate IsDigit(c: char) {
    '0' <= c <= '9'
  }

  function DigitValue(c: char): (v: nat)
    requires IsDigit(c)
    ensures v < 10
  {
    (c as int) - ('0' as int)
  }

  /**
   * The `\s` class of a `str` pattern in Python's `re` module: every
   * character for which `str.isspace()` holds.
   */
  predicate IsSpace(c: char) {
    || ('\t' <= c <= '\r')
    || ('\U{1C}' <= c <= '\U{1F}')
    || c == ' '
    || c == '\U{85}'
    || c == '\U{A0}'
    || c == '\U{1680}'
    || ('\U{2000}' <= c <= '\U{200A}')
    || c == '\U{2028}'
    || c == '\U{2029}'
    || c == '\U{202F}'
    || c == '\U{205F}'
    || c == '\U{3000}'
  }

  predicate IsUpper(c: char) {
    'A' <= c <= 'Z'
  }

  /** `str.lower()` on one character, for the ASCII letters. */
  function LowerChar(c: char): (r: char)
    ensures IsUpper(c) ==> r as int == c as int + 32
    ensures !IsUpper(c) ==> r == c
    ensures !IsUpper(r)
  {
    if IsUpper(c) then (c as int + 32) as char else c
  }

  /** `str.lower()`: lower-cases every character, keeping the length. */
  function Lower(s: string): (r: string)
    ensures |r| == |s|
  {
    seq(|s|, i requires 0 <= i < |s| => LowerChar(s[i]))
  }

  /** Lower-casing twice is lower-casing once. */
  lemma LowerIdempotent(s: string)
    ensures Lower(Lower(s)) == Lower(s)
  {
  }

  /** Digits and whitespace are left alone by lower-casing. */
  lemma LowerKeepsDigitsAndSpaces(c: char)
    ensures IsDigit(c) ==> LowerChar(c) == c
    ensures IsSpace(c) ==> LowerChar(c) == c
  {
  }

  /** `p in s` for strings: does `p` occur in `s` as a contiguous substring? */
  predicate Contains(s: string, p: string)
    decreases |s|
  {
    |p| <= |s| && (s[..|p|] == p || Contains(s[1..], p))
  }

  /** The scanning definition of `Contains` agrees with "`p` occurs at some position of `s`". */
  lemma {:induction false} ContainsIff(s: string, p: string)
    ensures Contains(s, p) <==> exists k: nat :: StartsAt(s, k, p)
    decreases |s|
  {
    if |p| <= |s| && s[..|p|] != p {
      ContainsIff(s[1..], p);
      if Contains(s[1..], p) {
        var k: nat :| StartsAt(s[1..], k, p);
        assert s[k + 1..k + 1 + |p|] == s[1..][k..k + |p|];
        assert StartsAt(s, k + 1, p);
      } else {
        forall k: nat | StartsAt(s, k, p)
          ensures false
        {
          if k > 0 {
            var t := s[1..];
            assert t[k - 1..k - 1 + |p|] == s[k..k + |p|];
            assert StartsAt(t, k - 1, p);
          }
        }
      }
    } else if |p| <= |s| {
      assert StartsAt(s, 0, p);
    } else {
      forall k: nat | StartsAt(s, k, p)
        ensures false
      {
      }
    }
  }

  /** `w` occurs at position `k` of `t`. */
  predicate StartsAt(t: string, k: nat, w: string) {
    k + |w| <= |t| && t[k..k + |w|] == w
  }
}
