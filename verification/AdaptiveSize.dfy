/** The unit a size is shown in (scripts/log-analysis/html_report.py, format_adaptive_size). */
module AdaptiveSize {
  /** KB, MB, GB, TB, PB by index. */
  const LAST_UNIT: nat := 4

  function Magnitude(x: real): real {
    if x < 0.0 then -x else x
  }

  function Pow1024(k: nat): (p: real)
    ensures p >= 1.0
  {
    if k == 0 then 1.0 else 1024.0 * Pow1024(k - 1)
  }

  /** The size in KB. */
  function SizeInKb(number: real, unit: nat): real {
    number * Pow1024(unit)
  }

  predicate Shown(number: real, unit: nat) {
    && unit <= LAST_UNIT
    && (number == 0.0 || Magnitude(number) >= 1.0 || unit == 0)
    && (Magnitude(number) < 1024.0 || unit == LAST_UNIT)
  }

  /** From any real in any base unit. Both loops end. */
  method Adapt(value: real, base: nat) returns (number: real, unit: nat)
    requires base <= LAST_UNIT
    ensures SizeInKb(number, unit) == SizeInKb(value, base)
    ensures Shown(number, unit)
    ensures value == 0.0 ==> unit == base
  {
    number, unit := value, base;
    while Magnitude(number) >= 1024.0 && unit < LAST_UNIT
      invariant base <= unit <= LAST_UNIT && SizeInKb(number, unit) == SizeInKb(value, base)
      invariant unit > base ==> Magnitude(number) >= 1.0
      invariant value == 0.0 ==> number == 0.0 && unit == base
      decreases LAST_UNIT - unit
    {
      OneUnitUp(number, unit);
      number := number / 1024.0;
      unit := unit + 1;
    }
    while 0.0 < Magnitude(number) < 1.0 && unit > 0
      invariant unit <= LAST_UNIT && SizeInKb(number, unit) == SizeInKb(value, base)
      invariant Magnitude(number) < 1024.0 || unit == LAST_UNIT
      invariant value == 0.0 ==> number == 0.0 && unit == base
      decreases unit
    {
      OneUnitUp(number * 1024.0, unit - 1);
      number := number * 1024.0;
      unit := unit - 1;
    }
  }

  lemma OneUnitUp(number: real, unit: nat)
    ensures SizeInKb(number / 1024.0, unit + 1) == SizeInKb(number, unit)
  {
    assert (number / 1024.0) * 1024.0 == number;
  }

  lemma MagnitudeOfProduct(x: real, p: real)
    requires p >= 1.0
    ensures Magnitude(x * p) == Magnitude(x) * p
  {
    if x < 0.0 {
      NegativeProduct(x, p);
    } else {
      PositiveProduct(x, p);
    }
  }

  lemma NegativeProduct(x: real, p: real)
    requires x < 0.0 && p >= 1.0
    ensures x * p < 0.0 && (-x) * p == -(x * p)
  {
  }

  lemma PositiveProduct(x: real, p: real)
    requires x >= 0.0 && p >= 1.0
    ensures x * p >= 0.0
  {
  }

  lemma Grow(a: real, b: real, p: real)
    requires a <= b && p >= 1.0
    ensures a * p <= b * p
  {
    PositiveProduct(b - a, p);
    assert (b - a) * p == b * p - a * p;
  }

  lemma GrowStrictly(a: real, b: real, p: real)
    requires a < b && p >= 1.0
    ensures a * p < b * p
  {
    Grow(1.0, p, b - a + 1.0);
    assert (b - a) * p > 0.0;
    assert (b - a) * p == b * p - a * p;
  }

  /** A shown non-zero size is at least its unit, unless that is KB. */
  lemma ShownAtLeast(number: real, unit: nat)
    requires Shown(number, unit) && number != 0.0 && unit > 0
    ensures Magnitude(SizeInKb(number, unit)) >= Pow1024(unit)
  {
    MagnitudeOfProduct(number, Pow1024(unit));
    ProductAtLeast(Magnitude(number), Pow1024(unit), Magnitude(SizeInKb(number, unit)));
  }

  /** And below the next one, unless there is none. */
  lemma ShownBelow(number: real, unit: nat)
    requires Shown(number, unit) && unit < LAST_UNIT
    ensures Magnitude(SizeInKb(number, unit)) < Pow1024(unit + 1)
  {
    MagnitudeOfProduct(number, Pow1024(unit));
    NextUnit(unit);
    ProductBelow(Magnitude(number), Pow1024(unit), Magnitude(SizeInKb(number, unit)), Pow1024(unit + 1));
  }

  lemma NextUnit(unit: nat)
    ensures Pow1024(unit + 1) == 1024.0 * Pow1024(unit)
  {
  }

  lemma ProductAtLeast(m: real, p: real, product: real)
    requires m >= 1.0 && p >= 1.0 && product == m * p
    ensures product >= p
  {
    Grow(1.0, m, p);
  }

  lemma ProductBelow(m: real, p: real, product: real, bound: real)
    requires m < 1024.0 && p >= 1.0 && product == m * p && bound == 1024.0 * p
    ensures product < bound
  {
    GrowStrictly(m, 1024.0, p);
  }

  lemma {:induction false} PowMonotone(i: nat, j: nat)
    requires i <= j
    ensures Pow1024(i) <= Pow1024(j)
    decreases j
  {
    if i < j {
      PowMonotone(i, j - 1);
    }
  }

  /** What is shown depends on the size alone and not on the base unit it came in: two shown
      forms of one non-zero size are the same. Zero keeps its base unit. */
  lemma ShownIsUnique(x: real, i: nat, y: real, j: nat)
    requires Shown(x, i) && Shown(y, j) && x != 0.0 && y != 0.0
    requires SizeInKb(x, i) == SizeInKb(y, j)
    ensures x == y && i == j
  {
    if i < j {
      UnitsDiffer(x, i, y, j);
    } else if j < i {
      UnitsDiffer(y, j, x, i);
    }
    SameFactor(x, y, Pow1024(i));
  }

  lemma SameFactor(x: real, y: real, p: real)
    requires p >= 1.0 && x * p == y * p
    ensures x == y
  {
    if x < y {
      GrowStrictly(x, y, p);
    } else if y < x {
      GrowStrictly(y, x, p);
    }
  }

  lemma UnitsDiffer(x: real, i: nat, y: real, j: nat)
    requires Shown(x, i) && Shown(y, j) && x != 0.0 && y != 0.0 && i < j
    ensures SizeInKb(x, i) != SizeInKb(y, j)
  {
    ShownBelow(x, i);
    ShownAtLeast(y, j);
    PowMonotone(i + 1, j);
  }
}
