/** Decimal rendering of integers as Python's `str(int)` and JavaScript's number-to-string
    produce it for integral values, with the parser that inverts it. */
module Decimal {
  import opened Common

  predicate IsDigit(c: char) {
    '0' <= c <= '9'
  }

  predicate AllDigits(s: string) {
    forall k | 0 <= k < |s| :: IsDigit(s[k])
  }

  function DigitChar(d: int): (c: char)
    requires 0 <= d < 10
    ensures IsDigit(c)
  {
    ('0' as int + d) as char
  }

  function DigitValue(c: char): (d: int)
    requires IsDigit(c)
    ensures 0 <= d < 10 && DigitChar(d) == c
  {
    c as int - '0' as int
  }

  /** The shortest decimal numeral of `n`: digits only, no leading zero unless `n` is 0. */
  function NatToDigits(n: nat): (r: string)
    ensures |r| >= 1 && AllDigits(r)
    ensures r[0] == '0' ==> n == 0
    ensures n < 10 <==> |r| == 1
  {
    if n < 10 then [DigitChar(n)] else NatToDigits(n / 10) + [DigitChar(n % 10)]
  }

  /** The value of a numeral of digits, read most significant digit first. */
  function DigitsValue(s: string): (n: nat)
    requires AllDigits(s)
  {
    if s == [] then 0 else 10 * DigitsValue(s[..|s| - 1]) + DigitValue(s[|s| - 1])
  }

  lemma {:induction false} DigitsRoundTrip(n: nat)
    ensures DigitsValue(NatToDigits(n)) == n
  {
    if n >= 10 {
      var s := NatToDigits(n / 10);
      var r := s + [DigitChar(n % 10)];
      assert r[..|r| - 1] == s;
      DigitsRoundTrip(n / 10);
    }
  }

  /** Three-digit numbers, such as HTTP status codes, have three-character numerals. */
  lemma ThreeDigitNumeral(n: nat)
    requires 100 <= n <= 999
    ensures |NatToDigits(n)| == 3
  {
    assert NatToDigits(n) == NatToDigits(n / 10) + [DigitChar(n % 10)];
    assert NatToDigits(n / 10) == NatToDigits(n / 100) + [DigitChar((n / 10) % 10)];
  }

  /** `str(n)`: a minus sign before the magnitude for negative numbers. */
  function IntToString(n: int): (r: string)
    ensures |r| >= 1 && (r[0] == '-' <==> n < 0)
    ensures '_' !in r
  {
    if n < 0 then "-" + NatToDigits(-n) else NatToDigits(n)
  }

  /** The inverse of `IntToString`: an optional minus sign followed by at least one digit. */
  function ParseInt(s: string): (r: Option<int>)
    ensures r.Some? ==> s != [] && (r.value < 0 ==> s[0] == '-')
  {
    if |s| >= 2 && s[0] == '-' && AllDigits(s[1..]) then Some(0 - DigitsValue(s[1..]))
    else if |s| >= 1 && AllDigits(s) then Some(DigitsValue(s))
    else None
  }

  /** Every integer's numeral parses back to that integer. */
  lemma {:induction false} IntToStringRoundTrip(n: int)
    ensures ParseInt(IntToString(n)) == Some(n)
  {
    if n < 0 {
      NegativeRoundTrip(-n);
    } else {
      NonNegativeRoundTrip(n);
    }
  }

  lemma NegativeRoundTrip(m: nat)
    requires m > 0
    ensures ParseInt("-" + NatToDigits(m)) == Some(-(m as int))
  {
    var digits := NatToDigits(m);
    var r := "-" + digits;
    assert r[1..] == digits;
    DigitsRoundTrip(m);
  }

  lemma NonNegativeRoundTrip(n: nat)
    ensures ParseInt(NatToDigits(n)) == Some(n)
  {
    var digits := NatToDigits(n);
    assert IsDigit(digits[0]);
    DigitsRoundTrip(n);
  }

  /** Distinct integers have distinct numerals. */
  lemma IntToStringInjective(m: int, n: int)
    requires IntToString(m) == IntToString(n)
    ensures m == n
  {
    IntToStringRoundTrip(m);
    IntToStringRoundTrip(n);
  }
}
