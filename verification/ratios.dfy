/** The return metrics and the risk-adjusted ratios of the report: the
    arithmetic means, the standard and downside deviations, and the Sharpe,
    Sortino and Calmar ratios with their `+inf` guards. */
module Ratios {
  import opened Numbers
  import opened Statistics
  import opened Compounding
  import opened Drawdown

  /** The host numerics the formulas call: NumPy's square root, and the
      monthly risk-free rate `1.02 ** (1/12) - 1`, a twelfth root. */
  datatype Numerics = Numerics(sqrt: real -> real, riskFreeMonthly: real)

  /** The assumed annual risk-free rate. */
  const RiskFreeAnnual: real := 0.02

  /** `Arithmetic Mean (annual)`: the monthly mean compounded over twelve
      months. */
  function AnnualMean(xs: seq<real>): real
    requires |xs| > 0
  {
    AnnualRate(Mean(xs))
  }

  function ExcessMonthly(xs: seq<real>, num: Numerics): real
    requires |xs| > 0
  {
    Mean(xs) - num.riskFreeMonthly
  }

  function ExcessAnnual(xs: seq<real>): real
    requires |xs| > 0
  {
    AnnualMean(xs) - RiskFreeAnnual
  }

  /** A monthly deviation scaled to a year, `d * np.sqrt(12)`. */
  function Annualised(d: Metric, num: Numerics): (r: Metric)
    requires d.Finite? || d.NaN?
    ensures r.Finite? || r.NaN?
    ensures r.NaN? <==> d.NaN?
    ensures SignPreserving(num.sqrt) ==> (r.Positive() <==> d.Positive())
  {
    assert SignPreserving(num.sqrt) ==> num.sqrt(12.0) > 0.0;
    Scale(d, num.sqrt(12.0))
  }

  /** `Downside Deviation (monthly)`: the standard deviation of the losing
      months, 0 when no month loses (NaN when exactly one does). */
  function DownsideDeviation(xs: seq<real>, num: Numerics): (d: Metric)
    ensures d.Finite? || d.NaN?
    ensures d.NaN? <==> |Losses(xs)| == 1
    ensures (forall i :: 0 <= i < |xs| ==> xs[i] >= 0.0) ==> d == Finite(0.0)
  {
    LossesCount(xs);
    var losses := Losses(xs);
    if |losses| > 0 then StdDev(losses, num.sqrt) else Finite(0.0)
  }

  /** `a / d if d > 0 else float('inf')`. */
  function Guarded(a: real, d: Metric): (r: Metric)
    ensures r.PosInf? <==> !d.Positive()
    ensures d.Finite? && d.value > 0.0 ==> r.Finite? && r.value * d.value == a
  {
    if d.Positive() then Div(a, d) else PosInf
  }

  function SharpeMonthly(xs: seq<real>, num: Numerics): Metric
    requires |xs| > 0
  {
    Guarded(ExcessMonthly(xs, num), StdDev(xs, num.sqrt))
  }

  function SharpeAnnual(xs: seq<real>, num: Numerics): Metric
    requires |xs| > 0
  {
    Guarded(ExcessAnnual(xs), Annualised(StdDev(xs, num.sqrt), num))
  }

  function SortinoMonthly(xs: seq<real>, num: Numerics): Metric
    requires |xs| > 0
  {
    Guarded(ExcessMonthly(xs, num), DownsideDeviation(xs, num))
  }

  /** The annual Sortino ratio, guarded by the monthly downside deviation. */
  function SortinoAnnual(xs: seq<real>, num: Numerics): Metric
    requires |xs| > 0
  {
    var d := DownsideDeviation(xs, num);
    if d.Positive() then Div(ExcessAnnual(xs), Annualised(d, num)) else PosInf
  }

  /** `Calmar Ratio`: the annual mean over the size of the maximum drawdown,
      `+inf` when the maximum drawdown is zero. */
  function Calmar(xs: seq<real>): Metric
    requires |xs| > 0
  {
    var mdd := MaxDrawdown(xs);
    if mdd == Finite(0.0) then PosInf else Div(AnnualMean(xs), Abs(mdd))
  }

  /** Annualising keeps the sign of a deviation under a sign-preserving
      square root. */
  lemma AnnualisedPositive(d: Metric, num: Numerics)
    requires d.Finite? || d.NaN?
    requires SignPreserving(num.sqrt)
    ensures Annualised(d, num).Positive() <==> d.Positive()
  {
    assert num.sqrt(12.0) > 0.0;
  }

  /** Both Sharpe ratios are `+inf` exactly when the sample has fewer than
      two months or every month returns the same; otherwise each is the
      excess return over the corresponding deviation. */
  lemma SharpeInfiniteIffFlat(xs: seq<real>, num: Numerics)
    requires |xs| > 0 && SignPreserving(num.sqrt)
    ensures SharpeMonthly(xs, num).PosInf? <==> |xs| < 2 || Constant(xs)
    ensures SharpeAnnual(xs, num).PosInf? <==> |xs| < 2 || Constant(xs)
    ensures !SharpeMonthly(xs, num).PosInf? ==>
      SharpeMonthly(xs, num).Finite? && SharpeMonthly(xs, num).value * StdDev(xs, num.sqrt).value == ExcessMonthly(xs, num)
    ensures !SharpeAnnual(xs, num).PosInf? ==>
      var d := Annualised(StdDev(xs, num.sqrt), num);
      SharpeAnnual(xs, num).Finite? && SharpeAnnual(xs, num).value * d.value == ExcessAnnual(xs)
  {
    StdDevPositiveIffNotConstant(xs, num.sqrt);
    AnnualisedPositive(StdDev(xs, num.sqrt), num);
  }

  /** Both Sortino ratios are `+inf` exactly when fewer than two months
      lose or all losing months lose the same; otherwise each is the excess
      return over the corresponding downside deviation. */
  lemma SortinoInfiniteIffFlatLosses(xs: seq<real>, num: Numerics)
    requires |xs| > 0 && SignPreserving(num.sqrt)
    ensures SortinoMonthly(xs, num).PosInf? <==> |Losses(xs)| < 2 || Constant(Losses(xs))
    ensures SortinoAnnual(xs, num).PosInf? <==> |Losses(xs)| < 2 || Constant(Losses(xs))
    ensures !SortinoMonthly(xs, num).PosInf? ==>
      SortinoMonthly(xs, num).Finite? && SortinoMonthly(xs, num).value * DownsideDeviation(xs, num).value == ExcessMonthly(xs, num)
    ensures !SortinoAnnual(xs, num).PosInf? ==>
      var d := Annualised(DownsideDeviation(xs, num), num);
      SortinoAnnual(xs, num).Finite? && SortinoAnnual(xs, num).value * d.value == ExcessAnnual(xs)
  {
    var losses := Losses(xs);
    if |losses| > 0 {
      StdDevPositiveIffNotConstant(losses, num.sqrt);
    }
    AnnualisedPositive(DownsideDeviation(xs, num), num);
  }

  /** For a solvent series the Calmar ratio is `+inf` exactly when no month
      after the first loses; otherwise it is the annual mean over the
      depth of the maximum drawdown. */
  lemma CalmarInfiniteIffNoLaterLoss(xs: seq<real>)
    requires Solvent(xs) && |xs| > 0
    ensures Calmar(xs).PosInf? <==> forall j :: 1 <= j < |xs| ==> xs[j] >= 0.0
    ensures !Calmar(xs).PosInf? ==> MaxDrawdown(xs).Finite?
    ensures !Calmar(xs).PosInf? ==> Calmar(xs) == Finite(AnnualMean(xs) / -MaxDrawdown(xs).value)
  {
    MaxDrawdownSign(xs);
  }

  /** A NaN maximum drawdown passes the `!= 0` test and makes the Calmar
      ratio NaN. */
  lemma CalmarOfNaNDrawdown(xs: seq<real>)
    requires |xs| > 0 && MaxDrawdown(xs).NaN?
    ensures Calmar(xs).NaN?
  {
  }
}
