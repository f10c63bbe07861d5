/** The two number/string conversions the app relies on: `Number(text)` on
    the digits typed into the duration field, and `Date.now().toPrecision()`,
    which prints a clock value as a timer id. */
module Decimal {

  predicate IsDigit(ch: char) {
    '0' <= ch <= '9'
  }

  predicate IsDigits(s: string) {
    forall i :: 0 <= i < |s| ==> IsDigit(s[i])
  }

  function DigitValue(ch: char): (d: nat)
    requires IsDigit(ch)
    ensures d < 10
  {
    ch as int - '0' as int
  }

  function DigitChar(d: nat): (ch: char)
    requires d < 10
    ensures IsDigit(ch) && DigitValue(ch) == d
  {
    ('0' as int + d) as char
  }

  function Pow10(n: nat): (p: nat)
    ensures p >= 1
  {
    if n == 0 then 1 else 10 * Pow10(n - 1)
  }

  /** `Number(s)` for a string of decimal digits (leading zeros allowed):
      an n-digit string reads as a number below 10^n. */
  function DecimalValue(s: string): (v: nat)
    requires IsDigits(s)
    ensures v < Pow10(|s|)
  {
    if s == [] then 0
    else
      var front := DecimalValue(s[..|s| - 1]);
      assert front * 10 <= (Pow10(|s| - 1) - 1) * 10;
      front * 10 + DigitValue(s[|s| - 1])
  }

  /** The canonical decimal form of `n`, as JavaScript prints an integer-valued number. */
  function DecimalString(n: nat): (s: string)
    ensures IsDigits(s) && |s| > 0
    ensures s[0] == '0' ==> n == 0 && s == "0"
  {
    if n < 10 then [DigitChar(n)] else DecimalString(n / 10) + [DigitChar(n % 10)]
  }

  /** Reading back a printed number gives the number. */
  lemma {:induction false} DecimalRoundTrip(n: nat)
    ensures DecimalValue(DecimalString(n)) == n
  {
    if n >= 10 {
      DecimalRoundTrip(n / 10);
      var s := DecimalString(n);
      assert s[..|s| - 1] == DecimalString(n / 10);
    }
  }

  /** Printing is injective: two different clock values never print the same. */
  lemma DecimalStringInjective(a: nat, b: nat)
    requires DecimalString(a) == DecimalString(b)
    ensures a == b
  {
    DecimalRoundTrip(a);
    DecimalRoundTrip(b);
  }
}
