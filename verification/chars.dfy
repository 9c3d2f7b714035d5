/**
  Character classes shared by the field validator: the white space that
  `String.prototype.trim` strips and that the regular-expression class `\s`
  matches (the two use the same set in ECMAScript), the ASCII digits of the
  class `[0-9]`, and trimming itself.
 */
module Chars {

  /** ECMAScript white space: the WhiteSpace code points (TAB, VT, FF, SP,
      NBSP, ZWNBSP and the Unicode space separators) and the LineTerminator
      code points (LF, CR, LS, PS). */
  predicate IsWhitespace(c: char) {
    || c == '\t' || c == '\n' || c == '\U{000B}' || c == '\U{000C}' || c == '\r'
    || c == ' ' || c == '\U{00A0}' || c == '\U{1680}'
    || ('\U{2000}' <= c <= '\U{200A}')
    || c == '\U{2028}' || c == '\U{2029}' || c == '\U{202F}' || c == '\U{205F}'
    || c == '\U{3000}' || c == '\U{FEFF}'
  }

  /** Every character of `s` is white space (vacuously true of ""). */
  predicate Blank(s: string) {
    forall i :: 0 <= i < |s| ==> IsWhitespace(s[i])
  }

  /** No character of `s` is white space. */
  predicate NoWhitespace(s: string) {
    forall i :: 0 <= i < |s| ==> !IsWhitespace(s[i])
  }

  /** The regular-expression class `[0-9]`: ASCII decimal digits only. */
  predicate IsDigit(c: char) {
    '0' <= c <= '9'
  }

  predicate AllDigits(s: string) {
    forall i :: 0 <= i < |s| ==> IsDigit(s[i])
  }

  /** Number of white-space characters at the front of `s`. */
  function LeadingBlanks(s: string): (k: nat)
    ensures k <= |s|
    ensures forall i :: 0 <= i < k ==> IsWhitespace(s[i])
    ensures k < |s| ==> !IsWhitespace(s[k])
  {
    if s == [] || !IsWhitespace(s[0]) then 0 else 1 + LeadingBlanks(s[1..])
  }

  /** Number of white-space characters at the back of `s`. */
  function TrailingBlanks(s: string): (k: nat)
    ensures k <= |s|
    ensures forall i :: |s| - k <= i < |s| ==> IsWhitespace(s[i])
    ensures k < |s| ==> !IsWhitespace(s[|s| - k - 1])
  {
    if s == [] || !IsWhitespace(s[|s| - 1]) then 0 else 1 + TrailingBlanks(s[..|s| - 1])
  }

  /** `String.prototype.trim`: `s` without its leading and trailing white space.
      The result is empty exactly when `s` is blank, and otherwise neither
      starts nor ends with white space. */
  function Trim(s: string): (r: string)
    ensures |r| <= |s|
    ensures r == [] <==> Blank(s)
    ensures r != [] ==> !IsWhitespace(r[0]) && !IsWhitespace(r[|r| - 1])
  {
    var rest := s[LeadingBlanks(s)..];
    var r := rest[..|rest| - TrailingBlanks(rest)];
    assert r != [] ==> r[0] == rest[0];
    assert LeadingBlanks(s) < |s| ==> rest[0] == s[LeadingBlanks(s)];
    r
  }

  /** Trimming removes exactly a blank prefix and a blank suffix: the result
      is a contiguous slice of the value with only white space around it. */
  lemma TrimStripsEnds(s: string)
    ensures exists a, b :: 0 <= a <= b <= |s| && Trim(s) == s[a..b] && Blank(s[..a]) && Blank(s[b..])
  {
    var a := LeadingBlanks(s);
    var rest := s[a..];
    var b := a + |rest| - TrailingBlanks(rest);
    assert Trim(s) == s[a..b];
    assert Blank(s[..a]);
    assert s[b..] == rest[|rest| - TrailingBlanks(rest)..];
    assert Blank(s[b..]);
  }

  /** Trimming is idempotent: a trimmed string has nothing left to strip. */
  lemma {:induction false} TrimIdempotent(s: string)
    ensures Trim(Trim(s)) == Trim(s)
  {
    var r := Trim(s);
    if r != [] {
      assert LeadingBlanks(r) == 0;
      assert TrailingBlanks(r) == 0;
    }
  }
}
