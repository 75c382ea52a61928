/** Decimal text and the integers it denotes: Python's `int(text)` on a run of
    ASCII digits and `str(n)` on an integer, the two directions an Integer
    literal node converts between (src/nodetypes.py, class Integer). */
module Numerals {
  import opened Chars

  predicate AllDigits(t: string) {
    forall k :: 0 <= k < |t| ==> IsDigit(t[k])
  }

  /** A non-empty run of digits, the only text a NUMBER token carries. */
  predicate IsNumeral(t: string) {
    |t| > 0 && AllDigits(t)
  }

  /** The spelling `str` gives a non-negative integer: no leading zero unless
      the number is zero itself. */
  predicate IsCanonical(t: string) {
    IsNumeral(t) && (t[0] != '0' || |t| == 1)
  }

  function DigitValue(c: char): nat
    requires IsDigit(c)
  {
    c as int - '0' as int
  }

  function DigitChar(d: nat): (c: char)
    requires d < 10
    ensures IsDigit(c) && DigitValue(c) == d
  {
    (d + '0' as int) as char
  }

  /** The value `int` reads from a digit run; leading zeros are allowed, so
      "007" reads as 7. */
  function DecimalValue(t: string): nat
    requires AllDigits(t)
  {
    if |t| == 0 then 0 else DecimalValue(t[..|t| - 1]) * 10 + DigitValue(t[|t| - 1])
  }

  /** `str(n)` for a non-negative integer. */
  function NatText(n: nat): (t: string)
    ensures IsCanonical(t)
    ensures DecimalValue(t) == n
  {
    if n < 10 then [DigitChar(n)]
    else
      var t := NatText(n / 10) + [DigitChar(n % 10)];
      assert t[..|t| - 1] == NatText(n / 10);
      t
  }

  /** Text `int` accepts among the spellings this model produces: a digit run,
      optionally preceded by one minus sign. */
  predicate IsIntText(t: string) {
    IsNumeral(t) || (|t| >= 2 && t[0] == '-' && IsNumeral(t[1..]))
  }

  function IntTextValue(t: string): int
    requires IsIntText(t)
  {
    if t[0] == '-' then 0 - DecimalValue(t[1..]) else DecimalValue(t)
  }

  /** `str(v)` for any integer. */
  function IntText(v: int): (t: string)
    ensures IsIntText(t) && IntTextValue(t) == v
    ensures v >= 0 ==> IsCanonical(t)
    ensures v < 0 ==> t[0] == '-' && IsCanonical(t[1..])
  {
    if v < 0 then
      var t := "-" + NatText(-v);
      assert t[1..] == NatText(-v);
      t
    else NatText(v)
  }

  lemma {:induction false} LeadingDigitBound(t: string)
    requires IsNumeral(t)
    ensures DecimalValue(t) >= DigitValue(t[0])
  {
    if |t| > 1 {
      LeadingDigitBound(t[..|t| - 1]);
    }
  }

  /** Reading back what `str` wrote is the identity on canonical text, so
      `int` and `str` are inverse on the spellings `str` produces. */
  lemma {:induction false} CanonicalRoundTrip(t: string)
    requires IsCanonical(t)
    ensures NatText(DecimalValue(t)) == t
  {
    var n := DecimalValue(t);
    var last := t[|t| - 1];
    if |t| == 1 {
      assert DigitChar(DigitValue(last)) == last;
    } else {
      var init := t[..|t| - 1];
      assert init[0] == t[0];
      LeadingDigitBound(init);
      CanonicalRoundTrip(init);
      assert n / 10 == DecimalValue(init) && n % 10 == DigitValue(last);
      assert DigitChar(DigitValue(last)) == last;
      assert t == init + [last];
    }
  }
}
