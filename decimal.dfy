/** Base-10 text of unbounded naturals: the rendering that BigUint's
    `to_string` produces for the values of the Fibonacci computation. */
module Decimal {

  predicate IsDigit(c: char) {
    '0' <= c <= '9'
  }

  function DigitValue(c: char): (d: nat)
    requires IsDigit(c)
    ensures d < 10
  {
    c as int - '0' as int
  }

  function DigitChar(d: nat): (c: char)
    requires d < 10
    ensures IsDigit(c) && DigitValue(c) == d
  {
    ('0' as int + d) as char
  }

  predicate AllDigits(s: string) {
    forall i :: 0 <= i < |s| ==> IsDigit(s[i])
  }

  /** Canonical base-10 text: at least one digit, nothing but digits, and no
      leading zero unless the whole text is "0". */
  predicate IsCanonicalDecimal(s: string) {
    |s| > 0 && AllDigits(s) && (s[0] == '0' ==> |s| == 1)
  }

  /** The number a digit string denotes, most significant digit first. */
  function DecimalValue(s: string): nat
    requires AllDigits(s)
  {
    if s == [] then 0 else 10 * DecimalValue(s[..|s| - 1]) + DigitValue(s[|s| - 1])
  }

  /** Renders `v` in base 10; the result is canonical and denotes `v`. */
  function NatToDecimal(v: nat): (s: string)
    ensures IsCanonicalDecimal(s)
    ensures DecimalValue(s) == v
  {
    if v < 10 then [DigitChar(v)]
    else
      var front := NatToDecimal(v / 10);
      var s := front + [DigitChar(v % 10)];
      assert s[..|s| - 1] == front;
      s
  }

  /** A digit string with a non-zero leading digit denotes a positive number. */
  lemma {:induction false} LeadingDigitPositive(s: string)
    requires AllDigits(s) && |s| > 0 && s[0] != '0'
    ensures DecimalValue(s) > 0
  {
    if |s| > 1 {
      var front := s[..|s| - 1];
      assert front[0] == s[0];
      LeadingDigitPositive(front);
    }
  }

  /** Every canonical text is the rendering of the number it denotes, so the
      rendering is the only canonical text for its value. */
  lemma {:induction false} CanonicalRoundTrip(s: string)
    requires IsCanonicalDecimal(s)
    ensures NatToDecimal(DecimalValue(s)) == s
  {
    if |s| > 1 {
      var front := s[..|s| - 1];
      assert front[0] == s[0];
      assert IsCanonicalDecimal(front);
      LeadingDigitPositive(front);
      var v := DecimalValue(s);
      assert v / 10 == DecimalValue(front) && v % 10 == DigitValue(s[|s| - 1]);
      CanonicalRoundTrip(front);
      assert s == front + [s[|s| - 1]];
    }
  }

  /** Appending a digit to a positive number's text gives the text of ten
      times the number plus that digit. */
  lemma AppendDigit(v: nat, d: nat)
    requires v > 0 && d < 10
    ensures NatToDecimal(10 * v + d) == NatToDecimal(v) + [DigitChar(d)]
  {
  }
}
