/**
  Decimal rendering and reading of natural numbers: the `${index + 1}` in an
  entry's title, the `${completedCount}` in the completion status, and the
  `data-index` attribute that is written as a number and read back with
  `parseInt`.
 */
module Decimal {
  import opened Chars

  /** The ASCII digit for `d`. */
  function DigitChar(d: nat): (c: char)
    requires d < 10
    ensures IsDigit(c)
  {
    ('0' as int + d) as char
  }

  /** The value of an ASCII digit. */
  function DigitValue(c: char): (d: nat)
    requires IsDigit(c)
    ensures d < 10
  {
    c as int - '0' as int
  }

  /** The number a string of digits denotes, as `parseInt(s, 10)` reads it. */
  function DigitsValue(s: string): nat
    requires AllDigits(s)
  {
    if s == [] then 0 else DigitsValue(s[..|s| - 1]) * 10 + DigitValue(s[|s| - 1])
  }

  /** Template-literal rendering of a natural number: a non-empty string of
      digits without a leading zero that reads back as the same number. */
  function NatToString(n: nat): (s: string)
    ensures s != [] && AllDigits(s)
    ensures |s| > 1 ==> s[0] != '0'
    ensures DigitsValue(s) == n
  {
    if n < 10 then [DigitChar(n)]
    else
      var prefix := NatToString(n / 10);
      var s := prefix + [DigitChar(n % 10)];
      assert s[..|s| - 1] == prefix;
      s
  }

  /** Distinct numbers render as distinct strings. */
  lemma NatToStringInjective(m: nat, n: nat)
    requires NatToString(m) == NatToString(n)
    ensures m == n
  {
    assert DigitsValue(NatToString(m)) == DigitsValue(NatToString(n));
  }
}
