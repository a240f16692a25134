/** Unsigned decimal text: the digit strings that the extension converts with
    JavaScript's `Number(...)` / unary `+`, and the `${n}` rendering of a
    non-negative integer. */
module Decimal {

  predicate IsDigit(c: char) {
    '0' <= c <= '9'
  }

  /** A non-empty run of ASCII digits (the regular-expression class `\d+`). */
  predicate IsDigits(s: string) {
    |s| > 0 && forall k :: 0 <= k < |s| ==> IsDigit(s[k])
  }

  function DigitValue(c: char): nat
    requires IsDigit(c)
  {
    (c as int - '0' as int) as nat
  }

  /** The value of a digit string read most-significant digit first
      (leading zeros allowed, as `Number("007") == 7`). */
  function Value(s: string): nat
    requires forall k :: 0 <= k < |s| ==> IsDigit(s[k])
    decreases |s|
  {
    if s == [] then 0 else 10 * Value(s[..|s| - 1]) + DigitValue(s[|s| - 1])
  }

  function DigitChar(d: nat): (c: char)
    requires d < 10
    ensures IsDigit(c) && DigitValue(c) == d
  {
    ('0' as int + d) as char
  }

  /** `${n}` for a non-negative integer: no sign, no leading zeros. */
  function Text(n: nat): (s: string)
    decreases n
  {
    if n < 10 then [DigitChar(n)] else Text(n / 10) + [DigitChar(n % 10)]
  }

  /** Reading back what `Text` writes gives the number again, and the text is
      a well-formed digit string without a superfluous leading zero. */
  lemma {:induction false} TextRoundTrip(n: nat)
    ensures IsDigits(Text(n))
    ensures Value(Text(n)) == n
    ensures |Text(n)| > 1 ==> Text(n)[0] != '0'
    decreases n
  {
    if n >= 10 {
      TextRoundTrip(n / 10);
      var s := Text(n);
      assert s[..|s| - 1] == Text(n / 10);
    }
  }

  function Pow10(n: nat): (p: nat)
    ensures p >= 1
  {
    if n == 0 then 1 else 10 * Pow10(n - 1)
  }
}
