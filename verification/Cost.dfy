/** Micro-dollar amounts as dollars. */
module Cost {
  import opened Base
  import opened Strings
  import opened Decimal

  const U64_MAX: nat := U64_END - 1

  function SaturatingAdd(a: nat, b: nat): nat { if a + b <= U64_MAX then a + b else U64_MAX }

  function Cents(micros: nat): nat { SaturatingAdd(micros, 5_000) / 10_000 }

  /** At least two digits. */
  function TwoDigits(n: nat): string { if n < 10 then "0" + NatText(n) else NatText(n) }

  /** `format_cost_dollars` */
  function CostText(micros: nat): string { "$" + (NatText(Cents(micros) / 100) + "." + TwoDigits(Cents(micros) % 100)) }

  /** Half-up rounding on every u64: where the addition saturates, it changes nothing. */
  lemma RoundsHalfUp(micros: nat)
    requires micros <= U64_MAX
    ensures 10_000 * Cents(micros) <= micros + 5_000 < 10_000 * Cents(micros) + 10_000
  {
  }

  /** A dollar amount with cents, read back. */
  function ReadCents(text: string): Option<nat> {
    if text == "" || text[0] != '$' then None
    else match Cut(text[1..], '.')
      case None => None
      case Some((dollars, cents)) =>
        if ParseNat(dollars).Some? && ParseNat(cents).Some? && |cents| == 2
        then Some(100 * ParseNat(dollars).value + ParseNat(cents).value) else None
  }

  lemma TwoDigitsRead(n: nat)
    requires n < 100
    ensures |TwoDigits(n)| == 2 && ParseNat(TwoDigits(n)) == Some(n)
  {
    NatRoundTrip(n);
    if n < 10 {
      assert NatText(n) == [DigitChar(n)];
      assert TwoDigits(n)[..1] == "0" && TwoDigits(n)[1] == DigitChar(n);
      assert NatValue("0") == 0 by { assert "0"[..0] == ""; }
      assert NatValue(TwoDigits(n)) == n;
    } else {
      assert NatText(n) == NatText(n / 10) + [DigitChar(n % 10)];
    }
  }

  /** The text reads back to the rounded cents, so two amounts printed alike are within a cent. */
  lemma CostReadsBack(micros: nat)
    ensures ReadCents(CostText(micros)) == Some(Cents(micros))
  {
    var dollars, cents := NatText(Cents(micros) / 100), TwoDigits(Cents(micros) % 100);
    assert CostText(micros)[1..] == dollars + "." + cents;
    CutPair(dollars, cents, '.');
    NatRoundTrip(Cents(micros) / 100);
    TwoDigitsRead(Cents(micros) % 100);
  }

  lemma PrintedAlike(a: nat, b: nat)
    requires a <= b <= U64_MAX && CostText(a) == CostText(b)
    ensures b - a < 10_000
  {
    CostReadsBack(a);
    CostReadsBack(b);
    RoundsHalfUp(a);
    RoundsHalfUp(b);
  }
}
