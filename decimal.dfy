/**
 * Decimal rendering of a count, as Rust's `format!("{i}")` writes a `usize`:
 * no sign, no leading zeros, "0" for zero. Batch file names, column names and
 * the cardinality error message all embed numbers this way.
 */
module Decimal {

  predicate IsDigit(c: char) {
    '0' <= c <= '9'
  }

  predicate AllDigits(s: string) {
    forall k :: 0 <= k < |s| ==> IsDigit(s[k])
  }

  function DigitChar(d: nat): (c: char)
    requires d < 10
    ensures IsDigit(c)
  {
    ('0' as int + d) as char
  }

  function DigitValue(c: char): (d: nat)
    requires IsDigit(c)
    ensures d < 10 && DigitChar(d) == c
  {
    (c as int - '0' as int) as nat
  }

  /** The decimal digits of `n`, most significant first. */
  function Dec(n: nat): (s: string)
    ensures |s| > 0 && AllDigits(s)
    ensures |s| > 1 ==> s[0] != '0'
  {
    if n < 10 then [DigitChar(n)] else Dec(n / 10) + [DigitChar(n % 10)]
  }

  /** The number a string of digits denotes. */
  function ParseDec(s: string): nat
    requires AllDigits(s)
  {
    if s == [] then 0 else 10 * ParseDec(s[..|s| - 1]) + DigitValue(s[|s| - 1])
  }

  /** Reading back a rendered number gives the number. */
  lemma {:induction false} ParseDecOfDec(n: nat)
    ensures ParseDec(Dec(n)) == n
  {
    if n >= 10 {
      var s := Dec(n);
      assert s[..|s| - 1] == Dec(n / 10);
      ParseDecOfDec(n / 10);
    }
  }

  /** Distinct numbers are rendered as distinct strings. */
  lemma DecInjective(a: nat, b: nat)
    requires Dec(a) == Dec(b)
    ensures a == b
  {
    ParseDecOfDec(a);
    ParseDecOfDec(b);
  }

  /** The number of digits a string starts with. */
  function LeadingDigits(s: string): (n: nat)
    ensures n <= |s|
  {
    if s == [] || !IsDigit(s[0]) then 0 else 1 + LeadingDigits(s[1..])
  }

  /** The number of digits a string ends with. */
  function TrailingDigits(s: string): (n: nat)
    ensures n <= |s|
  {
    if s == [] || !IsDigit(s[|s| - 1]) then 0 else 1 + TrailingDigits(s[..|s| - 1])
  }

  lemma {:induction false} LeadingDigitsOf(d: string, x: string)
    requires AllDigits(d) && |x| > 0 && !IsDigit(x[0])
    ensures LeadingDigits(d + x) == |d|
  {
    if d != [] {
      assert (d + x)[1..] == d[1..] + x;
      LeadingDigitsOf(d[1..], x);
    } else {
      assert d + x == x;
    }
  }

  lemma {:induction false} TrailingDigitsOf(x: string, d: string)
    requires AllDigits(d) && |x| > 0 && !IsDigit(x[|x| - 1])
    ensures TrailingDigits(x + d) == |d|
  {
    if d != [] {
      assert (x + d)[..|x + d| - 1] == x + d[..|d| - 1];
      TrailingDigitsOf(x, d[..|d| - 1]);
    } else {
      assert x + d == x;
    }
  }

  /**
   * A rendered number followed by text that starts with a non-digit can be
   * split back uniquely: the number and the text that follows are recovered.
   */
  lemma DecPrefixUnique(a: nat, x: string, b: nat, y: string)
    requires |x| > 0 && !IsDigit(x[0]) && |y| > 0 && !IsDigit(y[0])
    requires Dec(a) + x == Dec(b) + y
    ensures a == b && x == y
  {
    var da, db := Dec(a), Dec(b);
    LeadingDigitsOf(da, x);
    LeadingDigitsOf(db, y);
    assert da == (da + x)[..|da|] == (db + y)[..|db|] == db;
    DecInjective(a, b);
    assert x == (da + x)[|da|..] == (db + y)[|db|..] == y;
  }

  /**
   * Text ending in a non-digit followed by a rendered number can be split back
   * uniquely: the text and the number are recovered.
   */
  lemma DecSuffixUnique(x: string, a: nat, y: string, b: nat)
    requires |x| > 0 && !IsDigit(x[|x| - 1]) && |y| > 0 && !IsDigit(y[|y| - 1])
    requires x + Dec(a) == y + Dec(b)
    ensures x == y && a == b
  {
    var da, db := Dec(a), Dec(b);
    TrailingDigitsOf(x, da);
    TrailingDigitsOf(y, db);
    var s := x + da;
    assert x == s[..|x|] == (y + db)[..|y|] == y;
    assert da == s[|x|..] == (y + db)[|y|..] == db;
    DecInjective(a, b);
  }
}
