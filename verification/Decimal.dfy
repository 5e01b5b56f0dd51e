/** Decimal printing of integers, as `Display` prints them, and reading it back. */
module Decimal {
  import opened Base

  predicate IsDigit(c: char) { '0' <= c <= '9' }

  function DigitChar(d: nat): char
    requires d < 10
  {
    '0' + (d as char)
  }

  function DigitValue(c: char): nat
    requires IsDigit(c)
  {
    c as nat - '0' as nat
  }

  predicate AllDigits(s: string) {
    forall i :: 0 <= i < |s| ==> IsDigit(s[i])
  }

  /** Decimal digits without leading zeros. */
  function NatText(n: nat): (s: string)
    ensures s != "" && AllDigits(s)
  {
    if n < 10 then [DigitChar(n)] else NatText(n / 10) + [DigitChar(n % 10)]
  }

  function IntText(n: int): string {
    if n < 0 then "-" + NatText(-n) else NatText(n)
  }

  function NatValue(s: string): nat
    requires AllDigits(s)
  {
    if s == "" then 0 else 10 * NatValue(s[..|s| - 1]) + DigitValue(s[|s| - 1])
  }

  /** A non-empty run of digits as a number. */
  function ParseNat(s: string): Option<nat> {
    if s != "" && AllDigits(s) then Some(NatValue(s)) else None
  }

  /** A number, negative after a minus sign. */
  function ParseInt(s: string): Option<int> {
    if s != "" && s[0] == '-'
    then match ParseNat(s[1..]) case Some(n) => Some(-(n as int)) case None => None
    else match ParseNat(s) case Some(n) => Some(n) case None => None
  }

  lemma IntRoundTrip(n: int)
    ensures ParseInt(IntText(n)) == Some(n)
  {
    NatRoundTrip(if n < 0 then -n else n);
    if n < 0 {
      assert IntText(n)[1..] == NatText(-n);
    } else {
      assert IsDigit(NatText(n)[0]);
    }
  }

  lemma {:induction false} NatRoundTrip(n: nat)
    ensures ParseNat(NatText(n)) == Some(n)
  {
    if n < 10 {
      assert NatText(n)[..0] == "";
      assert NatValue(NatText(n)) == DigitValue(NatText(n)[0]);
    } else {
      NatRoundTrip(n / 10);
      assert NatText(n)[..|NatText(n)| - 1] == NatText(n / 10);
    }
  }
}
