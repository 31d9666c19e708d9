/** Decimal rendering of integers: the `fmtInt` helper behind the CORS
    max-age header, and Go's `%d` used to name numbered log backups. */
module Decimal {
  import opened Common

  predicate IsDigit(c: char) { '0' <= c <= '9' }

  predicate AllDigits(s: string) {
    forall i :: 0 <= i < |s| ==> IsDigit(s[i])
  }

  function DigitChar(d: int): (c: char)
    requires 0 <= d < 10
    ensures IsDigit(c)
  {
    ('0' as int + d) as char
  }

  /** Decimal digits of a natural number, most significant first, without
      leading zeros. */
  function Digits(n: nat): (r: string)
    ensures |r| >= 1 && AllDigits(r)
    ensures r[0] == '0' <==> n == 0
    ensures n == 0 ==> r == "0"
  {
    if n < 10 then [DigitChar(n)] else Digits(n / 10) + [DigitChar(n % 10)]
  }

  /** The number a string of digits denotes. */
  function ValueOf(s: string): nat
    requires AllDigits(s)
  {
    if |s| == 0 then 0 else ValueOf(s[..|s| - 1]) * 10 + (s[|s| - 1] as int - '0' as int)
  }

  /** Reading the digits back gives the number. */
  lemma {:induction false} DigitsRoundTrip(n: nat)
    ensures ValueOf(Digits(n)) == n
  {
    if n >= 10 {
      DigitsRoundTrip(n / 10);
      var s := Digits(n);
      assert s[..|s| - 1] == Digits(n / 10);
    }
  }

  /** Go's `%d`: an optional minus sign followed by the digits of the
      magnitude. */
  function Format(n: int): (r: string)
    ensures |r| >= 1
    ensures r[0] == '-' <==> n < 0
    ensures n < 0 ==> |r| >= 2 && AllDigits(r[1..]) && r[1] != '0'
    ensures n >= 0 ==> AllDigits(r)
    ensures r[0] == '0' <==> n == 0
  {
    if n < 0 then "-" + Digits(-n) else Digits(n)
  }

  /** The inverse of `Format` on well-formed input. */
  function Parse(s: string): int
    requires (|s| >= 1 && s[0] == '-' && AllDigits(s[1..])) || AllDigits(s)
  {
    if |s| >= 1 && s[0] == '-' then 0 - ValueOf(s[1..]) else ValueOf(s)
  }

  lemma FormatRoundTrip(n: int)
    ensures Parse(Format(n)) == n
  {
    if n < 0 {
      DigitsRoundTrip(-n);
      assert Format(n)[1..] == Digits(-n);
    } else {
      DigitsRoundTrip(n);
    }
  }

  /** Distinct integers have distinct renderings. */
  lemma FormatInjective(a: int, b: int)
    ensures Format(a) == Format(b) ==> a == b
  {
    FormatRoundTrip(a);
    FormatRoundTrip(b);
  }

  /** Rendering never produces a dot, so it cannot be confused with a
      dotted suffix. */
  lemma FormatHasNoDot(n: int)
    ensures '.' !in Format(n)
  {
  }

  /** `fmtInt` as written: zero is "0"; otherwise the magnitude is taken by
      a 64-bit negation, which wraps for the most negative value. */
  function FmtInt(n: int): (r: string)
    requires IsInt64(n)
    ensures n == 0 <==> r == "0"
    ensures n < 0 <==> |r| >= 1 && r[0] == '-'
  {
    if n == 0 then "0"
    else
      var neg := n < 0;
      var m := if neg then Wrap64(-n) else n;
      var digits := if m > 0 then Digits(m) else "";
      if neg then
        var r := "-" + digits;
        assert r[0] == '-';
        r
      else digits
  }

  /** Away from the most negative int64, `fmtInt` agrees with `%d`. */
  lemma FmtIntMatchesFormat(n: int)
    requires IsInt64(n) && n != MinInt64
    ensures FmtInt(n) == Format(n)
  {
  }

  /** At the most negative int64 the negation wraps back to itself, no digit
      is emitted and the rendering is a lone minus sign. */
  lemma FmtIntMinInt64()
    ensures FmtInt(MinInt64) == "-"
    ensures FmtInt(MinInt64) != Format(MinInt64)
  {
    assert Wrap64(-MinInt64) == MinInt64;
  }
}
