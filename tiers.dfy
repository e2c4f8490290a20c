/**
 * The pure helpers of the rating engine: division codes to tiers, tiers to
 * base ratings, dates to season keys, and the score and goal-difference
 * inputs of the per-match update.
 */
module Tiers {

  import opened Wrappers

  /** Base rating of each tier: the top tier starts highest. */
  const TierBase: map<int, real> := map[1 := 1600.0, 2 := 1500.0, 3 := 1400.0, 4 := 1300.0, 5 := 1200.0]

  /** Known division codes (England, Spain, Italy, Germany, France) and their tiers. */
  const DivTierMap: map<string, int> := map[
    "E0" := 1, "E1" := 2, "E2" := 3, "E3" := 4, "E4" := 5,
    "SP1" := 1, "SP2" := 2,
    "I1" := 1, "I2" := 2,
    "D1" := 1, "D2" := 2,
    "F1" := 1, "F2" := 2]

  /** Rating assigned when a tier has no entry in TierBase. */
  const FallbackBase: real := 1500.0

  predicate IsDigit(c: char) { '0' <= c <= '9' }

  /** The digit characters of a code, in order. */
  function Digits(s: string): (ds: string)
    ensures forall c :: c in ds <==> c in s && IsDigit(c)
    ensures |ds| <= |s|
  {
    if s == [] then []
    else if IsDigit(s[0]) then [s[0]] + Digits(s[1..])
    else Digits(s[1..])
  }

  /** Digits are collected in order: the digits of a concatenation are the concatenated digits. */
  lemma {:induction false} DigitsAppend(a: string, b: string)
    ensures Digits(a + b) == Digits(a) + Digits(b)
    decreases |a|
  {
    if a != [] {
      assert (a + b)[0] == a[0] && (a + b)[1..] == a[1..] + b;
      DigitsAppend(a[1..], b);
    } else {
      assert a + b == b;
    }
  }

  /** A single character contributes itself when it is a digit and nothing otherwise. */
  lemma DigitsOfChar(c: char)
    ensures Digits([c]) == if IsDigit(c) then [c] else []
  {
    assert [c][1..] == [];
  }

  /** The decimal value of a string of digits, leading zeros allowed. */
  function DigitsValue(ds: string): (v: nat)
    requires forall c :: c in ds ==> IsDigit(c)
    ensures |ds| == 1 ==> v == ds[0] as int - '0' as int
    ensures (forall k :: 0 <= k < |ds| ==> ds[k] == '0') ==> v == 0
    decreases |ds|
  {
    if ds == [] then 0
    else
      var last := ds[|ds| - 1];
      assert last in ds && IsDigit(last);
      var digit: nat := last as int - '0' as int;
      assert forall c :: c in ds[..|ds| - 1] ==> c in ds;
      assert |ds| == 1 ==> ds[..|ds| - 1] == [];
      DigitsValue(ds[..|ds| - 1]) * 10 + digit
  }

  /** Ten to the power n. */
  function Pow10(n: nat): (p: nat)
    ensures p >= 1
  {
    if n == 0 then 1 else 10 * Pow10(n - 1)
  }

  /** The last digit is the units digit. */
  lemma DigitsValueLast(ds: string)
    requires forall c :: c in ds ==> IsDigit(c)
    requires |ds| >= 1
    ensures forall c :: c in ds[..|ds| - 1] ==> IsDigit(c)
    ensures DigitsValue(ds) == DigitsValue(ds[..|ds| - 1]) * 10 + (ds[|ds| - 1] as int - '0' as int)
  {
    assert forall c :: c in ds[..|ds| - 1] ==> c in ds;
  }

  /** (x * p + y) * 10 + d regrouped as x * (10 * p) + (y * 10 + d). */
  lemma Regroup(x: int, p: int, y: int, d: int)
    ensures (x * p + y) * 10 + d == x * (10 * p) + (y * 10 + d)
  {
  }

  /**
   * Decimal place value: the digits of a followed by those of b read as
   * the number of a shifted left by |b| places plus the number of b.
   */
  lemma {:induction false} DigitsValueAppend(a: string, b: string)
    requires forall c :: c in a ==> IsDigit(c)
    requires forall c :: c in b ==> IsDigit(c)
    ensures forall c :: c in a + b ==> IsDigit(c)
    ensures DigitsValue(a + b) == DigitsValue(a) * Pow10(|b|) + DigitsValue(b)
    decreases |b|
  {
    if b == [] {
      assert a + b == a;
    } else {
      var init := b[..|b| - 1];
      var d := b[|b| - 1] as int - '0' as int;
      DigitsValueLast(b);
      DigitsValueLast(a + b);
      assert (a + b)[..|a + b| - 1] == a + init;
      assert (a + b)[|a + b| - 1] == b[|b| - 1];
      DigitsValueAppend(a, init);
      Regroup(DigitsValue(a), Pow10(|init|), DigitsValue(init), d);
    }
  }

  /**
   * A digit string that does not start with 0 reads as at least 10^(n-1):
   * one such digit gives at least 1 and two or more give at least 10.
   */
  lemma {:induction false} LeadingNonZero(ds: string)
    requires forall c :: c in ds ==> IsDigit(c)
    requires |ds| >= 1 && ds[0] != '0'
    ensures DigitsValue(ds) >= Pow10(|ds| - 1)
    ensures DigitsValue(ds) >= 1 && (|ds| >= 2 ==> DigitsValue(ds) >= 10)
    decreases |ds|
  {
    if |ds| == 1 {
      assert ds[0] in ds;
    } else {
      var init := ds[..|ds| - 1];
      DigitsValueLast(ds);
      assert init[0] == ds[0];
      LeadingNonZero(init);
      assert ds[|ds| - 1] in ds;
      assert Pow10(|ds| - 1) == 10 * Pow10(|init| - 1);
      assert Pow10(0) == 1;
    }
  }

  /** Leading zeros do not change the number, as with Python's int(). */
  lemma {:induction false} LeadingZero(ds: string)
    requires forall c :: c in ds ==> IsDigit(c)
    ensures DigitsValue("0" + ds) == DigitsValue(ds)
    decreases |ds|
  {
    if ds != [] {
      var init := ds[..|ds| - 1];
      assert ("0" + ds)[..|ds|] == "0" + init;
      assert ("0" + ds)[|ds|] == ds[|ds| - 1];
      LeadingZero(init);
    }
  }

  /** The number of a code with digits, limited to the tiers 1 to 5. */
  function ClampTier(n: int): (tier: int)
    ensures 1 <= tier <= 5
    ensures 1 <= n <= 5 ==> tier == n
    ensures n < 1 ==> tier == 1
    ensures n > 5 ==> tier == 5
  {
    var atLeastOne := if n >= 1 then n else 1;
    if atLeastOne < 5 then atLeastOne else 5
  }

  /**
   * The tier of a division code: the table's tier when the code is known,
   * else the number formed by its digits limited to 1..5, else 1.
   */
  function GetTierFromDiv(div: string): (tier: int)
    ensures 1 <= tier <= 5
    ensures div in DivTierMap ==> tier == DivTierMap[div]
    ensures div !in DivTierMap && (forall c :: c in div ==> !IsDigit(c)) ==> tier == 1
  {
    if div in DivTierMap then DivTierMap[div]
    else
      var digits := Digits(div);
      assert digits != [] ==> digits[0] in digits;
      if digits != [] then ClampTier(DigitsValue(digits))
      else 1
  }

  /** The base rating of a division: the base of its tier. */
  function BaseForDiv(div: string): (base: real)
    ensures base == 1700.0 - 100.0 * GetTierFromDiv(div) as real
    ensures 1200.0 <= base <= 1600.0
  {
    var tier := GetTierFromDiv(div);
    if tier in TierBase then TierBase[tier] else FallbackBase
  }

  /** The digit fallback: an unknown code's tier is its number, pulled into 1..5. */
  lemma FallbackTier(div: string)
    requires div !in DivTierMap && Digits(div) != []
    ensures var n := DigitsValue(Digits(div));
      GetTierFromDiv(div) == (if n <= 1 then 1 else if n >= 5 then 5 else n)
  {
  }

  /**
   * Every tier has a base, so the fallback rating is never used.
   */
  lemma BaseOfTier(div: string)
    ensures GetTierFromDiv(div) in TierBase
    ensures BaseForDiv(div) == TierBase[GetTierFromDiv(div)]
  {
  }

  /** A division with a smaller tier number (a higher division) has a higher base. */
  lemma HigherDivisionHigherBase(d1: string, d2: string)
    ensures GetTierFromDiv(d1) < GetTierFromDiv(d2) <==> BaseForDiv(d1) > BaseForDiv(d2)
  {
    BaseOfTier(d1);
    BaseOfTier(d2);
  }

  // ---------------------------------------------------------------------
  // Seasons
  // ---------------------------------------------------------------------

  /** A calendar date as the date parser delivers it. */
  datatype Date = Date(year: int, month: int, day: int)

  predicate ValidDate(d: Date) { 1 <= d.month <= 12 && 1 <= d.day <= 31 }

  /** Chronological order on dates. */
  predicate NotAfter(d1: Date, d2: Date)
  {
    d1.year < d2.year ||
    (d1.year == d2.year && (d1.month < d2.month || (d1.month == d2.month && d1.day <= d2.day)))
  }

  /** The position of a date on a line of 31-day months, for ordering. */
  function DayNumber(d: Date): int
  {
    d.year * 372 + (d.month - 1) * 31 + (d.day - 1)
  }

  /** On valid dates, the day number orders dates chronologically. */
  lemma DayNumberOrder(d1: Date, d2: Date)
    requires ValidDate(d1) && ValidDate(d2)
    ensures DayNumber(d1) <= DayNumber(d2) <==> NotAfter(d1, d2)
  {
    var r1 := (d1.month - 1) * 31 + (d1.day - 1);
    var r2 := (d2.month - 1) * 31 + (d2.day - 1);
    assert 0 <= r1 < 372 && 0 <= r2 < 372;
    if d1.year < d2.year {
      assert d1.year * 372 + 372 <= d2.year * 372;
    } else if d1.year > d2.year {
      assert d2.year * 372 + 372 <= d1.year * 372;
    }
  }

  /** A season runs from July to June and is keyed by the year it starts in. */
  function SeasonKey(d: Date): (key: int)
    ensures key == d.year || key == d.year - 1
    ensures key == d.year <==> d.month >= 7
  {
    if d.month >= 7 then d.year else d.year - 1
  }

  /** Season keys never go backwards in time. */
  lemma SeasonKeyMonotone(d1: Date, d2: Date)
    requires NotAfter(d1, d2)
    ensures SeasonKey(d1) <= SeasonKey(d2)
  {
  }

  /** A date belongs to season y exactly when it falls on or after 1 July of y and before 1 July of y + 1. */
  lemma SeasonSpan(d: Date, y: int)
    requires ValidDate(d)
    ensures SeasonKey(d) == y <==> NotAfter(Date(y, 7, 1), d) && !NotAfter(Date(y + 1, 7, 1), d)
  {
  }

  // ---------------------------------------------------------------------
  // Match outcome
  // ---------------------------------------------------------------------

  /** The home side's actual score: 1 for a win, one half for a draw, 0 for a loss. */
  function ActualScore(goalDiff: int): (s: real)
    ensures goalDiff > 0 <==> s == 1.0
    ensures goalDiff == 0 <==> s == 0.5
    ensures goalDiff < 0 <==> s == 0.0
  {
    if goalDiff > 0 then 1.0
    else if goalDiff == 0 then 0.5
    else 0.0
  }

  /** The two sides' actual scores add up to one. */
  lemma ActualScoresComplement(goalDiff: int)
    ensures ActualScore(goalDiff) + ActualScore(-goalDiff) == 1.0
  {
  }

  /**
   * The goal-difference factor. A draw uses 1.0, so that it still moves the
   * ratings; otherwise the factor comes from scaled, which stands for the
   * logarithmic formula.
   */
  function GoalDiffFactor(homeMmr: real, awayMmr: real, goalDiffAbs: nat,
                          scaled: (real, real, nat) -> real): (f: real)
    ensures goalDiffAbs == 0 ==> f == 1.0
  {
    if goalDiffAbs == 0 then 1.0 else scaled(homeMmr, awayMmr, goalDiffAbs)
  }

  /** Goals as read from a cell: a missing value counts as 0, a number is truncated toward zero. */
  function Goals(cell: Option<real>): (g: int)
    ensures cell.None? ==> g == 0
    ensures cell.Some? && cell.value >= 0.0 ==> g as real <= cell.value < g as real + 1.0
    ensures cell.Some? && cell.value < 0.0 ==> g as real - 1.0 < cell.value <= g as real
  {
    match cell
    case None => 0
    case Some(x) => if x >= 0.0 then x.Floor else -((-x).Floor)
  }
}
