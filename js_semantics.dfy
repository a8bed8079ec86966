/**
  The two pieces of JavaScript string semantics the crawler relies on:
  `String.prototype.trim` and the truthiness of the numeric coercion `+value`.
 */
module JsSemantics {

  /** ECMAScript WhiteSpace and LineTerminator code points: what `trim` removes. */
  const WhiteSpace: set<char> := {
    '\t', '\n', '\U{000B}', '\U{000C}', '\r', ' ', '\U{00A0}', '\U{1680}',
    '\U{2000}', '\U{2001}', '\U{2002}', '\U{2003}', '\U{2004}', '\U{2005}',
    '\U{2006}', '\U{2007}', '\U{2008}', '\U{2009}', '\U{200A}',
    '\U{2028}', '\U{2029}', '\U{202F}', '\U{205F}', '\U{3000}', '\U{FEFF}'
  }

  predicate IsWhitespace(c: char) {
    c in WhiteSpace
  }

  /** `r` is `s` with every leading and trailing whitespace character removed, and only those. */
  ghost predicate IsTrimOf(r: string, s: string) {
    exists lo, hi | 0 <= lo <= hi <= |s| :: TrimBounds(r, s, lo, hi)
  }

  ghost predicate TrimBounds(r: string, s: string, lo: int, hi: int)
    requires 0 <= lo <= hi <= |s|
  {
    && r == s[lo..hi]
    && (forall i :: 0 <= i < lo ==> IsWhitespace(s[i]))
    && (forall i :: hi <= i < |s| ==> IsWhitespace(s[i]))
    && (r == [] || (!IsWhitespace(r[0]) && !IsWhitespace(r[|r| - 1])))
  }

  function TrimStart(s: string): string {
    if |s| > 0 && IsWhitespace(s[0]) then TrimStart(s[1..]) else s
  }

  function TrimEnd(s: string): string {
    if |s| > 0 && IsWhitespace(s[|s| - 1]) then TrimEnd(s[..|s| - 1]) else s
  }

  /** `s.trim()` */
  function Trim(s: string): string {
    TrimEnd(TrimStart(s))
  }

  /** `TrimStart` drops the leading whitespace, and only that: what is left is a suffix. */
  lemma {:induction false} TrimStartSpec(s: string)
    ensures |TrimStart(s)| <= |s| && TrimStart(s) == s[|s| - |TrimStart(s)|..]
    ensures forall i :: 0 <= i < |s| - |TrimStart(s)| ==> IsWhitespace(s[i])
    ensures TrimStart(s) == [] || !IsWhitespace(TrimStart(s)[0])
  {
    if |s| > 0 && IsWhitespace(s[0]) {
      TrimStartSpec(s[1..]);
    }
  }

  /** `TrimEnd` drops the trailing whitespace, and only that: what is left is a prefix. */
  lemma {:induction false} TrimEndSpec(s: string)
    ensures |TrimEnd(s)| <= |s| && TrimEnd(s) == s[..|TrimEnd(s)|]
    ensures forall i :: |TrimEnd(s)| <= i < |s| ==> IsWhitespace(s[i])
    ensures TrimEnd(s) == [] || !IsWhitespace(TrimEnd(s)[|TrimEnd(s)| - 1])
  {
    if |s| > 0 && IsWhitespace(s[|s| - 1]) {
      TrimEndSpec(s[..|s| - 1]);
    }
  }

  /** `Trim` removes exactly the whitespace at both ends. */
  lemma TrimSpec(s: string)
    ensures IsTrimOf(Trim(s), s)
  {
    var t := TrimStart(s);
    TrimStartSpec(s);
    TrimEndSpec(t);
    var lo := |s| - |t|;
    assert TrimBounds(Trim(s), s, lo, lo + |Trim(s)|);
  }

  /** No whitespace at either end. */
  predicate IsTrimmed(s: string) {
    s == [] || (!IsWhitespace(s[0]) && !IsWhitespace(s[|s| - 1]))
  }

  /** Joining two trimmed texts gives a trimmed text. */
  lemma TrimmedConcat(a: string, b: string)
    requires IsTrimmed(a) && IsTrimmed(b)
    ensures IsTrimmed(a + b)
  {
    if a != [] && b != [] {
      assert (a + b)[0] == a[0] && (a + b)[|a + b| - 1] == b[|b| - 1];
    } else if a == [] {
      assert a + b == b;
    } else {
      assert a + b == a;
    }
  }

  /** The trim relation is a function: `Trim` is its only implementation. */
  lemma TrimUnique(r1: string, r2: string, s: string)
    requires IsTrimOf(r1, s) && IsTrimOf(r2, s)
    ensures r1 == r2
  {
    var lo1, hi1 :| 0 <= lo1 <= hi1 <= |s| && TrimBounds(r1, s, lo1, hi1);
    var lo2, hi2 :| 0 <= lo2 <= hi2 <= |s| && TrimBounds(r2, s, lo2, hi2);
    if r1 == [] {
      EmptyTrimOnlyOfBlank(r1, r2, s, lo1, hi1, lo2, hi2);
    } else if r2 == [] {
      EmptyTrimOnlyOfBlank(r2, r1, s, lo2, hi2, lo1, hi1);
    } else {
      SameBounds(r1, r2, s, lo1, hi1, lo2, hi2);
    }
  }

  lemma EmptyTrimOnlyOfBlank(r1: string, r2: string, s: string, lo1: int, hi1: int, lo2: int, hi2: int)
    requires 0 <= lo1 <= hi1 <= |s| && TrimBounds(r1, s, lo1, hi1) && r1 == []
    requires 0 <= lo2 <= hi2 <= |s| && TrimBounds(r2, s, lo2, hi2)
    ensures r2 == []
  {
    assert forall i :: 0 <= i < |s| ==> IsWhitespace(s[i]) by {
      assert lo1 == hi1;
    }
  }

  lemma SameBounds(r1: string, r2: string, s: string, lo1: int, hi1: int, lo2: int, hi2: int)
    requires 0 <= lo1 <= hi1 <= |s| && TrimBounds(r1, s, lo1, hi1) && r1 != []
    requires 0 <= lo2 <= hi2 <= |s| && TrimBounds(r2, s, lo2, hi2) && r2 != []
    ensures lo1 == lo2 && hi1 == hi2
  {
    assert s[lo1] == r1[0] && s[lo2] == r2[0];
    assert s[hi1 - 1] == r1[|r1| - 1] && s[hi2 - 1] == r2[|r2| - 1];
  }

  lemma TrimmedIsOwnTrim(s: string)
    requires IsTrimmed(s)
    ensures Trim(s) == s
  {
    assert TrimBounds(s, s, 0, |s|);
    TrimSpec(s);
    TrimUnique(Trim(s), s, s);
  }

  lemma TrimResultIsTrimmed(s: string)
    ensures IsTrimmed(Trim(s))
  {
    TrimSpec(s);
    var lo, hi :| 0 <= lo <= hi <= |s| && TrimBounds(Trim(s), s, lo, hi);
  }

  /** Trimming twice is trimming once. */
  lemma TrimIdempotent(s: string)
    ensures Trim(Trim(s)) == Trim(s)
  {
    TrimResultIsTrimmed(s);
    TrimmedIsOwnTrim(Trim(s));
  }

  predicate IsDigit(c: char) {
    '0' <= c <= '9'
  }

  /**
    Whether `+value` is truthy, i.e. `Number(value)` is neither 0 nor NaN.
    Decimal integer literals (optionally signed, surrounded by whitespace) and
    `Infinity` are covered; fractions, exponents and hex/octal/binary literals
    are read as falsy.
   */
  predicate IsTruthyNumber(value: string) {
    var u := Unsigned(Trim(value));
    u == "Infinity" || IsNonZeroDecimal(u)
  }

  /** Drops one leading sign character, if there is one. */
  function Unsigned(t: string): (u: string)
    ensures u == t || (t != [] && (t[0] == '+' || t[0] == '-') && u == t[1..])
  {
    if |t| > 0 && (t[0] == '+' || t[0] == '-') then t[1..] else t
  }

  /** A non-empty run of decimal digits, not all of them zero. */
  predicate IsNonZeroDecimal(u: string) {
    && |u| > 0
    && (forall i :: 0 <= i < |u| ==> IsDigit(u[i]))
    && (exists i :: 0 <= i < |u| && u[i] != '0')
  }

  function Digit(d: nat): (c: char)
    requires d < 10
    ensures IsDigit(c) && (c == '0' <==> d == 0)
  {
    "0123456789"[d]
  }

  /** The decimal numeral of `n`, as the listing writes page numbers. */
  function DecimalString(n: nat): (s: string)
    ensures |s| > 0 && forall i :: 0 <= i < |s| ==> IsDigit(s[i])
    ensures n > 0 ==> s[0] != '0'
  {
    if n < 10 then [Digit(n)] else DecimalString(n / 10) + [Digit(n % 10)]
  }

  /** Every positive page number survives the coercion filter. */
  lemma PositiveNumeralIsTruthy(n: nat)
    requires n > 0
    ensures IsTruthyNumber(DecimalString(n))
  {
    NonZeroDigitsAreTruthy(DecimalString(n));
  }

  lemma NonZeroDigitsAreTruthy(s: string)
    requires |s| > 0 && s[0] != '0'
    requires forall i :: 0 <= i < |s| ==> IsDigit(s[i])
    ensures IsTruthyNumber(s)
  {
    DigitsAreTrimmed(s);
    TrimmedIsOwnTrim(s);
    assert Unsigned(s) == s by { assert IsDigit(s[0]); }
    assert IsNonZeroDecimal(s) by { assert 0 <= 0 < |s| && s[0] != '0'; }
  }

  lemma DigitsAreTrimmed(s: string)
    requires forall i :: 0 <= i < |s| ==> IsDigit(s[i])
    ensures IsTrimmed(s)
  {
    if s != [] {
      assert IsDigit(s[0]) && IsDigit(s[|s| - 1]);
    }
  }

  /** Zero, in any number of digits, is dropped. */
  lemma ZerosAreFalsy(s: string)
    requires |s| > 0 && forall i :: 0 <= i < |s| ==> s[i] == '0'
    ensures !IsTruthyNumber(s)
  {
    assert IsTrimmed(s);
    TrimmedIsOwnTrim(s);
    assert Unsigned(s) == s;
    assert s != "Infinity" by { assert s[0] == '0'; }
  }

  lemma BlankTrimsToEmpty(s: string)
    requires forall i :: 0 <= i < |s| ==> IsWhitespace(s[i])
    ensures Trim(s) == ""
  {
    TrimSpec(s);
    var lo, hi :| 0 <= lo <= hi <= |s| && TrimBounds(Trim(s), s, lo, hi);
  }

  /** A blank value, the listing's "no page" sentinel, is dropped. */
  lemma BlankIsFalsy(s: string)
    requires forall i :: 0 <= i < |s| ==> IsWhitespace(s[i])
    ensures !IsTruthyNumber(s)
  {
    BlankTrimsToEmpty(s);
  }
}
