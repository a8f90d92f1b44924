/**
 * Decimal text for player counts: `QString::toInt(&ok, 10)` when reading
 * `save/players` and `QString::number` when writing it after `-host`.
 */
module Decimal {
  import opened Strings

  /** Range of the C++ `int` that receives the parsed value. */
  const IntMin: int := -0x8000_0000
  const IntMax: int := 0x7FFF_FFFF

  function DigitValue(c: char): (d: nat)
    requires IsDigit(c)
    ensures d < 10
  {
    c as int - '0' as int
  }

  function DigitChar(d: nat): (c: char)
    requires d < 10
    ensures IsDigit(c) && DigitValue(c) == d
  {
    ('0' as int + d) as char
  }

  /** The number a run of decimal digits denotes (leading zeros allowed). */
  function DigitsValue(s: string): nat
    requires AllDigits(s)
    decreases |s|
  {
    if |s| == 0 then 0 else 10 * DigitsValue(s[..|s| - 1]) + DigitValue(s[|s| - 1])
  }

  /** `QString::number(n)` for a non-negative `n`: shortest decimal form. */
  function NatToDecimal(n: nat): (s: string)
    ensures |s| >= 1 && AllDigits(s)
    ensures s[0] == '0' ==> n == 0
    decreases n
  {
    if n < 10 then [DigitChar(n)] else NatToDecimal(n / 10) + [DigitChar(n % 10)]
  }

  lemma {:induction false} DecimalRoundTrip(n: nat)
    ensures DigitsValue(NatToDecimal(n)) == n
    decreases n
  {
    if n >= 10 {
      var front := NatToDecimal(n / 10);
      DecimalRoundTrip(n / 10);
      var s := front + [DigitChar(n % 10)];
      assert s[..|s| - 1] == front;
    }
  }

  /** The digits after an optional leading sign. */
  function Unsigned(s: string): string {
    if |s| > 0 && (s[0] == '-' || s[0] == '+') then s[1..] else s
  }

  /** An optional sign followed by at least one decimal digit. */
  predicate IsIntegerLiteral(s: string) {
    |Unsigned(s)| > 0 && AllDigits(Unsigned(s))
  }

  /** The mathematical value of an integer literal, before any range check. */
  function LiteralValue(s: string): int
    requires IsIntegerLiteral(s)
  {
    var magnitude: int := DigitsValue(Unsigned(s));
    if s[0] == '-' then -magnitude else magnitude
  }

  /** `toInt(&ok, 10)`: 0 whenever the text is not an integer literal or its
      value does not fit in an `int`. */
  function ParseInt(s: string): (r: int)
    ensures IntMin <= r <= IntMax
    ensures !IsIntegerLiteral(s) ==> r == 0
  {
    if !IsIntegerLiteral(s) then 0
    else
      var v := LiteralValue(s);
      if IntMin <= v <= IntMax then v else 0
  }

  /** Formatting a non-negative `int` and parsing it back gives the value. */
  lemma ParseIntOfDecimal(n: nat)
    requires n <= IntMax
    ensures ParseInt(NatToDecimal(n)) == n
  {
    var s := NatToDecimal(n);
    assert Unsigned(s) == s;
    DecimalRoundTrip(n);
  }

  /** A minus sign in front of a formatted magnitude parses to its negation. */
  lemma ParseIntOfNegative(n: nat)
    requires n <= -IntMin
    ensures ParseInt("-" + NatToDecimal(n)) == -(n as int)
  {
    var s := "-" + NatToDecimal(n);
    assert Unsigned(s) == NatToDecimal(n);
    DecimalRoundTrip(n);
  }
}
