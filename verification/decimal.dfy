/**
 The decimal rendering of a Java `long` (`String.valueOf(long)`, and `%s`
 applied to a `long`), which puts the request timestamp both into the `ts=`
 query field and into the signing pre-image.
 */
module Decimal {
  import opened Common

  function DigitChar(d: int): (c: char)
    requires 0 <= d < 10
  {
    ('0' as int + d) as char
  }

  /** Decimal digits of a natural number, most significant first, no
      leading zeros. */
  function Digits(n: nat): (s: string)
    ensures |s| >= 1
    ensures forall i :: 0 <= i < |s| ==> IsDigit(s[i])
    ensures |s| > 1 ==> s[0] != '0'
    ensures n > 0 ==> s[0] != '0'
  {
    if n < 10 then [DigitChar(n)] else Digits(n / 10) + [DigitChar(n % 10)]
  }

  /** Value of a string of decimal digits. */
  function Value(s: string): int
    requires forall i :: 0 <= i < |s| ==> IsDigit(s[i])
  {
    if |s| == 0 then 0 else 10 * Value(s[..|s| - 1]) + (s[|s| - 1] as int - '0' as int)
  }

  /** `Long.toString`: a minus sign for negative values, then the digits of
      the magnitude, with no leading zeros ("42", "-42", "0"). */
  function Render(n: Int64): (s: string)
    ensures |s| >= 1
    ensures n < 0 <==> s[0] == '-'
    ensures forall i :: 0 <= i < |s| ==> IsDigit(s[i]) || (i == 0 && s[i] == '-')
    ensures n >= 0 && |s| > 1 ==> s[0] != '0'
    ensures n < 0 ==> |s| >= 2 && s[1] != '0'
  {
    if n < 0 then "-" + Digits(-(n as int)) else Digits(n)
  }

  lemma {:induction false} DigitsRoundTrip(n: nat)
    ensures Value(Digits(n)) == n
  {
    if n >= 10 {
      var s := Digits(n);
      assert s[..|s| - 1] == Digits(n / 10);
      DigitsRoundTrip(n / 10);
    }
  }

  /** Reading the rendered digits back gives the number that was rendered. */
  lemma RenderRoundTrip(n: Int64)
    ensures var s := Render(n);
      if n < 0 then s[0] == '-' && -Value(s[1..]) == n else Value(s) == n
  {
    DigitsRoundTrip(if n < 0 then -(n as int) else n);
    if n < 0 {
      assert Render(n)[1..] == Digits(-(n as int));
    }
  }

  /** Distinct timestamps render to distinct strings. */
  lemma RenderInjective(a: Int64, b: Int64)
    requires Render(a) == Render(b)
    ensures a == b
  {
    RenderRoundTrip(a);
    RenderRoundTrip(b);
  }
}
