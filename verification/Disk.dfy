/** Free-disk classification and byte sizes, in the integer arithmetic the program uses. */
module Disk {
  import opened Base
  import opened Strings
  import opened Decimal

  const GIB: nat := 1024 * 1024 * 1024
  const DISK_WARN_BYTES: nat := 20 * GIB
  const DISK_FAIL_BYTES: nat := 5 * GIB

  datatype Level = Fine | Warn | Fail

  predicate BelowPct(free: nat, total: nat, n: nat) { total != 0 && free * 100 < total * n }

  function LevelOf(free: nat, total: nat): Level {
    if BelowPct(free, total, 3) || free < DISK_FAIL_BYTES then Fail
    else if BelowPct(free, total, 10) || free < DISK_WARN_BYTES then Warn
    else Fine
  }

  /** Rounded down; 100 when the quotient does not fit a u64. */
  function FreePct(free: nat, total: nat): nat {
    if total == 0 then 0
    else
      var pct := free * 100 / total;
      if pct < U64_END then pct else 100
  }

  function Severity(l: Level): nat { match l case Fine => 0 case Warn => 1 case Fail => 2 }

  /** More free space never makes the level worse. */
  lemma LevelMonotone(free: nat, more: nat, total: nat)
    requires free <= more
    ensures Severity(LevelOf(more, total)) <= Severity(LevelOf(free, total))
  {
    assert free * 100 <= more * 100;
  }

  /** The percent tests agree with the percentage shown. */
  lemma PctAgrees(free: nat, total: nat, n: nat)
    requires total > 0 && n <= 100
    ensures BelowPct(free, total, n) <==> FreePct(free, total) < n
  {
    var pct := free * 100 / total;
    DivisionBounds(free * 100, total);
    if pct < n { Scale(total, pct + 1, n); } else { Scale(total, n, pct); }
  }

  lemma DivisionBounds(a: nat, d: nat)
    requires d > 0
    ensures d * (a / d) <= a < d * (a / d + 1)
  {
    assert a == d * (a / d) + a % d;
  }

  lemma Scale(k: nat, a: nat, b: nat)
    requires a <= b
    ensures k * a <= k * b
  {
  }

  /** The percentage is at most 100 exactly when it should be, or it does not fit a u64. */
  lemma PctRange(free: nat, total: nat)
    requires total > 0
    ensures FreePct(free, total) <= 100 <==> free * 100 < total * 101 || free * 100 >= total * U64_END
  {
    var pct := free * 100 / total;
    DivisionBounds(free * 100, total);
    if pct <= 100 { Scale(total, pct + 1, 101); } else { Scale(total, 101, pct); }
    if pct < U64_END { Scale(total, pct + 1, U64_END); } else { Scale(total, U64_END, pct); }
  }

  /** More free than there is shows more than 100 percent. */
  lemma PctAbove()
    ensures FreePct(200, 100) == 200
  {
  }

  /**
   The alarm is raised exactly below 5 GiB or below 3 percent as shown, and all is well exactly from
   20 GiB and 10 percent as shown; a disk of unknown size is judged by its bytes alone.
   */
  lemma LevelExactly(free: nat, total: nat)
    ensures LevelOf(free, total) == Fail <==> free < 5_368_709_120 || (total > 0 && FreePct(free, total) < 3)
    ensures LevelOf(free, total) == Fine <==> free >= 21_474_836_480 && (total > 0 ==> FreePct(free, total) >= 10)
  {
    if total > 0 {
      PctAgrees(free, total, 3);
      PctAgrees(free, total, 10);
    }
  }

  const UNITS: seq<string> := ["B", "KiB", "MiB", "GiB", "TiB"]

  function Pow1024(u: nat): (p: nat)
    ensures p > 0
  {
    if u == 0 then 1 else 1024 * Pow1024(u - 1)
  }

  /** The largest unit not above `n`, TiB at most. */
  predicate IsUnit(n: nat, u: nat) {
    u <= 4 && (u > 0 ==> Pow1024(u) <= n) && (u < 4 ==> n < Pow1024(u + 1))
  }

  /** `n` in tenths of the unit, rounded to the nearest. */
  function Tenths(n: nat, u: nat): nat { (n * 10 + Pow1024(u) / 2) / Pow1024(u) }

  function SizeText(n: nat, u: nat): string
    requires u <= 4
  {
    if u == 0 then NatText(n) + " " + UNITS[0]
    else NatText(Tenths(n, u) / 10) + "." + NatText(Tenths(n, u) % 10) + " " + UNITS[u]
  }

  function UnitOf(n: nat): (u: nat)
    ensures IsUnit(n, u)
  {
    ScaleFits(0);
    ScaleFits(1);
    ScaleFits(2);
    ScaleFits(3);
    if n < Pow1024(1) then 0 else if n < Pow1024(2) then 1
        else if n < Pow1024(3) then 2 else if n < Pow1024(4) then 3 else 4
  }

  /** `human_bytes`; the multiplication stays within a u64. */
  method HumanBytes(n: nat) returns (text: string)
    requires n < U64_END
    ensures text == SizeText(n, UnitOf(n))
  {
    var unit, scale := 0, 1;
    while unit < |UNITS| - 1 && n / scale >= 1024
      invariant unit <= 4 && scale == Pow1024(unit) < U64_END
      invariant unit > 0 ==> scale <= n
    {
      DivisionBounds(n, scale);
      Scale(scale, 1024, n / scale);
      ScaleFits(unit);
      scale := scale * 1024;
      unit := unit + 1;
    }
    DivisionBounds(n, scale);
    if n / scale < 1024 { Scale(scale, n / scale + 1, 1024); }
    if unit == 0 { return NatText(n) + " B"; }
    var tenths := (n * 10 + scale / 2) / scale;
    text := NatText(tenths / 10) + "." + NatText(tenths % 10) + " " + UNITS[unit];
  }

  lemma ScaleFits(u: nat)
    requires u < 4
    ensures Pow1024(u) * 1024 == Pow1024(u + 1) < U64_END
  {
    assert Pow1024(1) == 1024 && Pow1024(2) == 1048576 && Pow1024(3) == 1073741824 && Pow1024(4) == 1099511627776;
  }

  /** The tenths shown are within half a tenth of the size, and at most 1024.0 below TiB. */
  lemma TenthsNear(n: nat, u: nat)
    requires IsUnit(n, u) && u > 0
    ensures var shown := Tenths(n, u) * Pow1024(u);
            2 * (n * 10 - shown) <= Pow1024(u) && 2 * (shown - n * 10) <= Pow1024(u)
    ensures u < 4 ==> 10 <= Tenths(n, u) <= 10240
  {
    assert Pow1024(u) % 2 == 0;
    HalfAway(n * 10, Pow1024(u));
    TenthsRange(n, u);
  }

  /** Rounding to the nearest multiple of `d` moves a number by at most half of `d`. */
  lemma HalfAway(a: nat, d: nat)
    requires d > 0 && d % 2 == 0
    ensures var shown := (a + d / 2) / d * d; 2 * (a - shown) <= d && 2 * (shown - a) <= d
  {
    DivisionBounds(a + d / 2, d);
  }

  lemma TenthsRange(n: nat, u: nat)
    requires IsUnit(n, u) && u > 0
    ensures u < 4 ==> 10 <= Tenths(n, u) <= 10240
  {
    if u < 4 {
      var scale := Pow1024(u);
      DivisionBounds(n * 10 + scale / 2, scale);
      assert n < 1024 * scale;
      if Tenths(n, u) > 10240 { Scale(scale, 10241, Tenths(n, u)); }
      if Tenths(n, u) < 10 { Scale(scale, Tenths(n, u) + 1, 10); }
    }
  }

  /** A larger size never shows a smaller unit, nor fewer tenths of the same one. */
  lemma SizesOrdered(n: nat, u: nat, m: nat, v: nat)
    requires n <= m && IsUnit(n, u) && IsUnit(m, v)
    ensures u <= v && (u == v ==> Tenths(n, u) <= Tenths(m, v))
  {
    ScaleFits(0);
    ScaleFits(1);
    ScaleFits(2);
    ScaleFits(3);
    if u == v {
      var scale := Pow1024(u);
      DivisionBounds(n * 10 + scale / 2, scale);
      DivisionBounds(m * 10 + scale / 2, scale);
      if Tenths(n, u) > Tenths(m, u) { Scale(scale, Tenths(m, u) + 1, Tenths(n, u)); }
    }
  }

  /** The bytes of a unit. */
  function UnitNamed(name: string): Option<nat> {
    if name == "B" then Some(1)
    else if name == "KiB" then Some(1_024)
    else if name == "MiB" then Some(1_048_576)
    else if name == "GiB" then Some(1_073_741_824)
    else if name == "TiB" then Some(1_099_511_627_776)
    else None
  }

  /** A printed size: how many tenths of a unit, and the bytes of the unit. */
  function ReadSize(text: string): Option<(nat, nat)> {
    match Cut(text, ' ')
    case None => None
    case Some((number, unit)) =>
      if UnitNamed(unit).None? then None
      else if unit == "B" then match ParseNat(number) case Some(n) => Some((10 * n, 1)) case None => None
      else match Cut(number, '.')
        case None => None
        case Some((whole, part)) =>
          if ParseNat(whole).Some? && ParseNat(part).Some? && ParseNat(part).value < 10
          then Some((10 * ParseNat(whole).value + ParseNat(part).value, UnitNamed(unit).value)) else None
  }

  lemma UnitReads(u: nat)
    requires u <= 4
    ensures UnitNamed(UNITS[u]) == Some(Pow1024(u)) && (UNITS[u] == "B" <==> u == 0)
  {
    ScaleFits(0);
    ScaleFits(1);
    ScaleFits(2);
    ScaleFits(3);
    assert UNITS[u][0] == ['B', 'K', 'M', 'G', 'T'][u];
  }

  /** A printed size reads back to its tenths of the unit it names, or to its bytes. */
  lemma SizeReadsBack(n: nat, u: nat)
    requires u <= 4
    ensures ReadSize(SizeText(n, u)) == Some((if u == 0 then 10 * n else Tenths(n, u), Pow1024(u)))
  {
    UnitReads(u);
    if u == 0 {
      CutPair(NatText(n), "B", ' ');
      NatRoundTrip(n);
    } else {
      TenthsRead(Tenths(n, u), UNITS[u], Pow1024(u));
    }
  }

  lemma TenthsRead(t: nat, unit: string, bytes: nat)
    requires UnitNamed(unit) == Some(bytes) && unit != "B"
    ensures ReadSize(NatText(t / 10) + "." + NatText(t % 10) + " " + unit) == Some((t, bytes))
  {
    NatRoundTrip(t / 10);
    NatRoundTrip(t % 10);
    DecimalRead(NatText(t / 10), NatText(t % 10), t / 10, t % 10, unit, bytes);
  }

  lemma DecimalRead(whole: string, part: string, a: nat, b: nat, unit: string, bytes: nat)
    requires UnitNamed(unit) == Some(bytes) && unit != "B"
    requires ParseNat(whole) == Some(a) && ParseNat(part) == Some(b) && b < 10
    ensures ReadSize(whole + "." + part + " " + unit) == Some((10 * a + b, bytes))
  {
    CutPair(whole, part, '.');
    CutPair(whole + "." + part, unit, ' ');
  }

  /** Two sizes printed alike are the same number of bytes, or within a tenth of their common unit. */
  lemma AlikeNear(n: nat, u: nat, m: nat, v: nat)
    requires IsUnit(n, u) && IsUnit(m, v) && SizeText(n, u) == SizeText(m, v)
    ensures u == v && (u == 0 ==> n == m)
    ensures u > 0 ==> 10 * (n - m) <= Pow1024(u) && 10 * (m - n) <= Pow1024(u)
  {
    SizeReadsBack(n, u);
    SizeReadsBack(m, v);
    UnitReads(u);
    UnitReads(v);
    UnitsDiffer(u, v);
    if u > 0 {
      TenthsNear(n, u);
      TenthsNear(m, u);
    }
  }

  lemma UnitsDiffer(u: nat, v: nat)
    requires u <= 4 && v <= 4 && Pow1024(u) == Pow1024(v)
    ensures u == v
  {
    ScaleFits(0);
    ScaleFits(1);
    ScaleFits(2);
    ScaleFits(3);
  }
}
