/** Floating-point values of the metrics report, modelled over the reals.

    A report entry is a finite number, an infinity or NaN. Python's
    comparisons with NaN are false, and the engine's guards (`x > 0`,
    `x != 0`) rely on that; `Positive` and `Div` below spell those rules out. */
module Numbers {

  /** A float-valued report entry. `NegInf` only keeps `Div` total. */
  datatype Metric = Finite(value: real) | PosInf | NegInf | NaN {

    /** Python's `m > 0`: false for NaN and for minus infinity. */
    predicate Positive() {
      (Finite? && value > 0.0) || PosInf?
    }
  }

  /** IEEE division of a finite numerator by a metric. */
  function Div(a: real, b: Metric): (r: Metric)
    ensures b.Finite? && b.value != 0.0 ==> r.Finite? && r.value * b.value == a
    ensures r.NaN? <==> b.NaN? || (b == Finite(0.0) && a == 0.0)
    ensures b.Positive() && a >= 0.0 ==> r.Finite? && r.value >= 0.0
  {
    match b
    case Finite(v) =>
      if v != 0.0 then Finite(a / v)
      else if a > 0.0 then PosInf
      else if a < 0.0 then NegInf
      else NaN
    case PosInf => Finite(0.0)
    case NegInf => Finite(0.0)
    case NaN => NaN
  }

  /** A metric multiplied by a finite factor, NaN staying NaN. Only finite
      values and NaN are ever scaled. */
  function Scale(m: Metric, c: real): (r: Metric)
    requires m.Finite? || m.NaN?
    ensures r.NaN? <==> m.NaN?
    ensures m.Finite? ==> r == Finite(m.value * c)
    ensures c > 0.0 ==> (r.Positive() <==> m.Positive())
  {
    match m
    case Finite(v) => Finite(v * c)
    case NaN => NaN
  }

  /** `abs(m)`. */
  function Abs(m: Metric): (r: Metric)
    ensures r.Finite? <==> m.Finite?
    ensures r.Finite? ==> r.value >= 0.0 && (r.value == m.value || r.value == -m.value)
    ensures r.NaN? <==> m.NaN?
  {
    match m
    case Finite(v) => Finite(if v < 0.0 then -v else v)
    case NaN => NaN
    case _ => PosInf
  }

  /** `x ** n` for a natural exponent. */
  function Pow(x: real, n: nat): real {
    if n == 0 then 1.0 else x * Pow(x, n - 1)
  }

  lemma {:induction false} PowPositive(x: real, n: nat)
    requires x > 0.0
    ensures Pow(x, n) > 0.0
  {
    if n > 0 {
      PowPositive(x, n - 1);
    }
  }

  /** Raising to a power is strictly increasing on positive bases. */
  lemma {:induction false} PowStrictlyMonotone(x: real, y: real, n: nat)
    requires 0.0 < x < y && n > 0
    ensures Pow(x, n) < Pow(y, n)
  {
    if n > 1 {
      PowStrictlyMonotone(x, y, n - 1);
      PowPositive(x, n - 1);
      ProductStrictlyMonotone(x, y, Pow(x, n - 1), Pow(y, n - 1));
    } else {
      assert Pow(x, 0) == 1.0 && Pow(y, 0) == 1.0;
    }
  }

  lemma ProductStrictlyMonotone(a: real, b: real, c: real, d: real)
    requires 0.0 < a < b && 0.0 < c < d
    ensures a * c < b * d
  {
    assert a * c < b * c;
    assert b * c < b * d;
  }

  lemma PowOne(n: nat)
    ensures Pow(1.0, n) == 1.0
  {
  }

  const MonthsPerYear: nat := 12

  /** Compounding a monthly rate over twelve months, `(1 + m) ** 12 - 1`.
      A rate above -100% keeps its sign and its place in the order of rates. */
  function AnnualRate(m: real): (r: real)
    ensures m > -1.0 ==> r > -1.0
    ensures m > -1.0 ==> (r > 0.0 <==> m > 0.0) && (r == 0.0 <==> m == 0.0)
  {
    CompoundingKeepsSign(m);
    Pow(1.0 + m, MonthsPerYear) - 1.0
  }

  lemma CompoundingKeepsSign(m: real)
    ensures m > -1.0 ==> Pow(1.0 + m, MonthsPerYear) > 0.0
    ensures m > 0.0 ==> Pow(1.0 + m, MonthsPerYear) > 1.0
    ensures -1.0 < m < 0.0 ==> Pow(1.0 + m, MonthsPerYear) < 1.0
    ensures m == 0.0 ==> Pow(1.0 + m, MonthsPerYear) == 1.0
  {
    PowOne(MonthsPerYear);
    if m > -1.0 {
      PowPositive(1.0 + m, MonthsPerYear);
      if m > 0.0 {
        PowStrictlyMonotone(1.0, 1.0 + m, MonthsPerYear);
      } else if m < 0.0 {
        PowStrictlyMonotone(1.0 + m, 1.0, MonthsPerYear);
      }
    }
  }

  /** Annualising keeps the order of monthly rates above -100%. */
  lemma AnnualRateMonotone(a: real, b: real)
    requires -1.0 < a < b
    ensures AnnualRate(a) < AnnualRate(b)
  {
    PowStrictlyMonotone(1.0 + a, 1.0 + b, MonthsPerYear);
  }

  /** The host's square root returns a non-negative number that is zero
      exactly at zero; all the sign reasoning about guards needs. */
  ghost predicate SignPreserving(sqrt: real -> real) {
    forall v: real :: v >= 0.0 ==> sqrt(v) >= 0.0 && (sqrt(v) == 0.0 <==> v == 0.0)
  }

  /** The float order on values that are not NaN. */
  predicate AtMost(a: Metric, b: Metric) {
    || a.NegInf?
    || b.PosInf?
    || (a.Finite? && b.Finite? && a.value <= b.value)
  }

  /** pandas' `Series.min()`: the least value that is not NaN, or NaN when
      there is none. */
  function MinSkipNaN(ms: seq<Metric>): (r: Metric)
    ensures r.NaN? <==> forall i :: 0 <= i < |ms| ==> ms[i].NaN?
    ensures !r.NaN? ==> r in ms
    ensures forall i :: 0 <= i < |ms| && !ms[i].NaN? ==> AtMost(r, ms[i])
  {
    if |ms| == 0 then NaN
    else
      var rest := MinSkipNaN(ms[1..]);
      assert forall i :: 1 <= i < |ms| ==> ms[i] == ms[1..][i - 1];
      if ms[0].NaN? then rest
      else if rest.NaN? || AtMost(ms[0], rest) then ms[0]
      else rest
  }
}
