/** Decimal text: `String(n)` for integers and the digit patterns the source tests with regular expressions. */
module Decimal {

  predicate IsDigit(c: char) {
    '0' <= c <= '9'
  }

  function DigitValue(c: char): (d: nat)
    requires IsDigit(c)
  {
    c as int - '0' as int
  }

  function DigitChar(d: nat): (c: char)
    requires d < 10
    ensures IsDigit(c) && DigitValue(c) == d
  {
    ('0' as int + d) as char
  }

  predicate AllDigits(s: string) {
    forall i :: 0 <= i < |s| ==> IsDigit(s[i])
  }

  /** The language of `^(0|[1-9]\d*)$`. */
  predicate IsCanonical(s: string) {
    s != "" && AllDigits(s) && (|s| > 1 ==> s[0] != '0')
  }

  /** The number a run of digits denotes. */
  function Value(s: string): nat
    requires AllDigits(s)
  {
    if s == "" then 0 else Value(s[..|s| - 1]) * 10 + DigitValue(s[|s| - 1])
  }

  /** `String(n)` of a natural number. */
  function FromNat(n: nat): (s: string)
    ensures IsCanonical(s)
    ensures Value(s) == n
    ensures n > 0 ==> s[0] != '0'
  {
    if n < 10 then
      var s := [DigitChar(n)];
      assert s[..0] == "";
      s
    else
      var high := FromNat(n / 10);
      var s := high + [DigitChar(n % 10)];
      assert s[..|s| - 1] == high;
      s
  }

  lemma {:induction false} LeadingDigitPositive(s: string)
    requires s != "" && AllDigits(s) && s[0] != '0'
    ensures Value(s) > 0
  {
    if |s| > 1 {
      LeadingDigitPositive(s[..|s| - 1]);
    } else {
      assert s[..0] == "";
    }
  }

  /** Printing inverts reading: a canonical numeral is the only canonical text of its value. */
  lemma {:induction false} PrintsBack(s: string)
    requires IsCanonical(s)
    ensures FromNat(Value(s)) == s
  {
    var high := s[..|s| - 1];
    var d := DigitValue(s[|s| - 1]);
    assert s == high + [DigitChar(d)];
    if high == "" {
    } else {
      LeadingDigitPositive(high);
      PrintsBack(high);
      assert Value(s) / 10 == Value(high);
    }
  }

  lemma CanonicalInjective(s: string, t: string)
    requires IsCanonical(s) && IsCanonical(t) && Value(s) == Value(t)
    ensures s == t
  {
    PrintsBack(s);
    PrintsBack(t);
  }
}
