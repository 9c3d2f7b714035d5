/**
  The e-mail format of the field validator, `^[^\s@]+@[^\s@]+\.[^\s@]+$`,
  given twice: once as the regular expression reads (three non-empty runs of
  plain characters joined by '@' and '.'), and once as an explicit check
  (no white space, exactly one '@', a non-empty local part, a domain with a
  '.' that is neither its first nor its last character). The two agree on
  every string.
 */
module EmailFormat {
  import opened Chars

  /** A character of the class `[^\s@]`. */
  predicate Plain(c: char) {
    !IsWhitespace(c) && c != '@'
  }

  predicate AllPlain(s: string) {
    forall i :: 0 <= i < |s| ==> Plain(s[i])
  }

  /** Reference reading of the pattern: `s` splits as local '@' label '.' suffix,
      each part a non-empty run of `[^\s@]`. The '.' is any one that leaves a
      non-empty run on both sides, as the regex engine's backtracking allows. */
  ghost predicate MatchesEmailPattern(s: string) {
    exists i, j ::
      && 0 < i && i + 1 < j && j + 1 < |s|
      && s[i] == '@' && s[j] == '.'
      && AllPlain(s[..i]) && AllPlain(s[i + 1..j]) && AllPlain(s[j + 1..])
  }

  /** Position of the first `c` in `s`, or `|s|` when there is none. */
  function IndexOf(s: string, c: char): (k: nat)
    ensures k <= |s|
    ensures c !in s[..k]
    ensures k < |s| ==> s[k] == c
  {
    if s == [] then 0
    else if s[0] == c then 0
    else
      var k := 1 + IndexOf(s[1..], c);
      assert s[..k] == [s[0]] + s[1..][..k - 1];
      k
  }

  /** The domain part has a '.' that is neither its first nor its last character. */
  predicate HasInnerDot(domain: string) {
    |domain| >= 2 && '.' in domain[1..|domain| - 1]
  }

  /** The explicit e-mail check used by the validator. */
  predicate IsEmail(s: string) {
    && NoWhitespace(s)
    && var at := IndexOf(s, '@');
    && 0 < at < |s|
    && '@' !in s[at + 1..]
    && HasInnerDot(s[at + 1..])
  }

  /** The first occurrence is the position before which `c` does not occur. */
  lemma IndexOfIsFirst(s: string, c: char, i: nat)
    requires i < |s| && s[i] == c && c !in s[..i]
    ensures IndexOf(s, c) == i
  {
  }

  /** Every character of `s` from `lo` up to `hi` is plain. */
  predicate PlainBetween(s: string, lo: nat, hi: nat)
    requires lo <= hi <= |s|
  {
    forall k :: lo <= k < hi ==> Plain(s[k])
  }

  lemma AllPlainSlice(s: string, lo: nat, hi: nat)
    requires lo <= hi <= |s|
    ensures AllPlain(s[lo..hi]) <==> PlainBetween(s, lo, hi)
  {
    if AllPlain(s[lo..hi]) {
      forall k | lo <= k < hi
        ensures Plain(s[k])
      {
        assert s[k] == s[lo..hi][k - lo];
      }
    }
  }

  /** A split at '@' and '.' into plain runs passes the explicit check. */
  lemma PatternPassesCheck(s: string, i: nat, j: nat)
    requires 0 < i && i + 1 < j && j + 1 < |s|
    requires s[i] == '@' && s[j] == '.'
    requires AllPlain(s[..i]) && AllPlain(s[i + 1..j]) && AllPlain(s[j + 1..])
    ensures IsEmail(s)
  {
    AllPlainSlice(s, 0, i);
    AllPlainSlice(s, i + 1, j);
    AllPlainSlice(s, j + 1, |s|);
    assert s[..i] == s[0..i] && s[j + 1..] == s[j + 1..|s|];
    assert NoWhitespace(s) by {
      forall k | 0 <= k < |s|
        ensures !IsWhitespace(s[k])
      {
        if k != i && k != j {
          assert Plain(s[k]);
        }
      }
    }
    assert '@' !in s[..i] by {
      forall k | 0 <= k < i
        ensures s[..i][k] != '@'
      {
        assert Plain(s[k]);
      }
    }
    IndexOfIsFirst(s, '@', i);
    var domain := s[i + 1..];
    assert '@' !in domain by {
      forall k | 0 <= k < |domain|
        ensures domain[k] != '@'
      {
        assert domain[k] == s[i + 1 + k];
        if i + 1 + k != j {
          assert Plain(s[i + 1 + k]);
        }
      }
    }
    assert domain[1..|domain| - 1][j - i - 2] == '.';
  }

  /** A string that passes the explicit check splits as the pattern demands. */
  lemma CheckMatchesPattern(s: string)
    requires IsEmail(s)
    ensures MatchesEmailPattern(s)
  {
    var i := IndexOf(s, '@');
    var domain := s[i + 1..];
    var inner := domain[1..|domain| - 1];
    var m :| 0 <= m < |inner| && inner[m] == '.';
    var j := i + 2 + m;
    assert s[j] == '.';
    assert PlainBetween(s, 0, i) by {
      forall k | 0 <= k < i
        ensures Plain(s[k])
      {
        assert s[k] == s[..i][k];
      }
    }
    assert PlainBetween(s, i + 1, |s|) by {
      forall k | i + 1 <= k < |s|
        ensures Plain(s[k])
      {
        assert s[k] == domain[k - i - 1];
      }
    }
    AllPlainSlice(s, 0, i);
    AllPlainSlice(s, i + 1, j);
    AllPlainSlice(s, j + 1, |s|);
    assert s[..i] == s[0..i] && s[j + 1..] == s[j + 1..|s|];
  }

  /** The explicit check accepts exactly the strings the pattern matches. */
  lemma EmailCheckMatchesPattern(s: string)
    ensures IsEmail(s) <==> MatchesEmailPattern(s)
  {
    if MatchesEmailPattern(s) {
      var i, j :|
        && 0 < i && i + 1 < j && j + 1 < |s|
        && s[i] == '@' && s[j] == '.'
        && AllPlain(s[..i]) && AllPlain(s[i + 1..j]) && AllPlain(s[j + 1..]);
      PatternPassesCheck(s, i, j);
    }
    if IsEmail(s) {
      CheckMatchesPattern(s);
    }
  }
}
