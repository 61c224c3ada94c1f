/**
 * Character classes, slicing, parsing and joining, as the Python code uses
 * them; digits are the ASCII digits (see README).
 */
module Text {

  /** A decimal digit, `\d` and `str.isdigit` on ASCII. */
  predicate IsDigit(c: char) { '0' <= c <= '9' }

  predicate IsAsciiLetter(c: char) { 'a' <= c <= 'z' || 'A' <= c <= 'Z' }

  /** The CJK Unified Ideographs and their Extension A: letters to Python's `\w`. */
  predicate IsCjkIdeograph(c: char) { '\U{3400}' <= c <= '\U{4DBF}' || '\U{4E00}' <= c <= '\U{9FFF}' }

  /**
   * A word character of the regular-expression `\b`: ASCII letters, digits
   * and '_', and the CJK ideographs; other non-ASCII characters count as
   * separators (see README).
   */
  predicate IsWordChar(c: char) { IsDigit(c) || IsAsciiLetter(c) || c == '_' || IsCjkIdeograph(c) }

  /** Every character at positions lo .. hi-1 is a digit. */
  predicate DigitsIn(s: string, lo: nat, hi: nat)
    requires lo <= hi <= |s|
  {
    forall i :: lo <= i < hi ==> IsDigit(s[i])
  }

  predicate AllDigits(s: string) { DigitsIn(s, 0, |s|) }

  /** Python's `str.isdigit`: non-empty and made of digits only. */
  predicate IsDigitString(s: string) { |s| > 0 && AllDigits(s) }

  lemma DigitStringOfSlice(s: string, lo: nat, hi: nat)
    requires lo <= hi <= |s|
    ensures IsDigitString(s[lo..hi]) <==> lo < hi && DigitsIn(s, lo, hi)
  {
    if DigitsIn(s, lo, hi) {
      assert forall i :: 0 <= i < hi - lo ==> s[lo..hi][i] == s[lo + i];
    } else if AllDigits(s[lo..hi]) {
      forall i | lo <= i < hi ensures IsDigit(s[i]) {
        assert s[lo..hi][i - lo] == s[i];
      }
    }
  }

  function DigitValue(c: char): (d: nat)
    requires IsDigit(c)
    ensures d <= 9
  {
    (c as int) - ('0' as int)
  }

  /**
   * Python's `int(s)` on a string of ASCII digits. `int('')` raises; the empty
   * string maps to 0 here only to end the recursion, and callers test for it.
   */
  function ParseDecimal(s: string): nat
    requires AllDigits(s)
  {
    if s == [] then 0
    else
      assert AllDigits(s[..|s| - 1]) by {
        assert forall i :: 0 <= i < |s| - 1 ==> s[..|s| - 1][i] == s[i];
      }
      ParseDecimal(s[..|s| - 1]) * 10 + DigitValue(s[|s| - 1])
  }

  /** Python's `s[lo:hi]` for non-negative bounds: both are clamped to the length. */
  function Slice(s: string, lo: nat, hi: nat): (t: string)
    ensures lo <= hi <= |s| ==> t == s[lo..hi]
    ensures hi <= lo ==> t == []
    ensures |s| <= lo ==> t == []
    ensures lo <= |s| <= hi ==> t == s[lo..]
  {
    var h := if hi < |s| then hi else |s|;
    var l := if lo < h then lo else h;
    s[l..h]
  }

  /** Python's `str.upper` on ASCII: lower-case letters become upper case. */
  function UpperChar(c: char): (u: char)
    ensures 'a' <= c <= 'z' ==> u as int == c as int - 32
    ensures !('a' <= c <= 'z') ==> u == c
  {
    if 'a' <= c <= 'z' then (c as int - 32) as char else c
  }

  function Upper(s: string): (u: string)
    ensures |u| == |s|
    ensures forall i :: 0 <= i < |s| ==> u[i] == UpperChar(s[i])
  {
    seq(|s|, i requires 0 <= i < |s| => UpperChar(s[i]))
  }

  lemma UpperKeepsUpperCase(s: string)
    requires forall i :: 0 <= i < |s| ==> !('a' <= s[i] <= 'z')
    ensures Upper(s) == s
  {
  }

  /** `int()` of two and of four digits. */
  lemma ParseTwoAndFourDigits(s: string)
    requires AllDigits(s)
    ensures |s| == 2 ==> ParseDecimal(s) == 10 * DigitValue(s[0]) + DigitValue(s[1])
    ensures |s| == 4 ==> (ParseDecimal(s) ==
      1000 * DigitValue(s[0]) + 100 * DigitValue(s[1]) + 10 * DigitValue(s[2]) + DigitValue(s[3]))
  {
    if |s| == 2 {
      assert s[..1][..0] == [];
      assert ParseDecimal(s[..1]) == DigitValue(s[0]);
    } else if |s| == 4 {
      assert s[..3][..2][..1][..0] == [];
      assert s[..3][..2][..1] == s[..1];
      assert s[..3][..2] == s[..2];
    }
  }

  /** Python's `sep.join(parts)`. */
  function Join(parts: seq<string>, sep: string): string
  {
    if parts == [] then ""
    else if |parts| == 1 then parts[0]
    else parts[0] + sep + Join(parts[1..], sep)
  }

  /** Joining non-empty parts gives the empty string exactly when there are no parts. */
  lemma {:induction false} JoinEmpty(parts: seq<string>, sep: string)
    requires forall i :: 0 <= i < |parts| ==> parts[i] != ""
    ensures Join(parts, sep) == "" <==> parts == []
  {
    if |parts| == 1 {
      assert parts[0] != "";
    } else if |parts| > 1 {
      assert |Join(parts, sep)| >= |parts[0]| > 0;
    }
  }
}
