/** The benchmark-relative metrics of the report, over the portfolio and
    benchmark return series after re-alignment (equal length): beta, alpha,
    the Treynor ratio, the active return and the capture ratios. */
module Benchmark {
  import opened Numbers
  import opened Statistics
  import opened Wrappers
  import opened Ratios

  /** `Beta`: covariance over benchmark variance when the variance is
      positive, NaN otherwise. */
  function Beta(p: seq<real>, b: seq<real>): (r: Metric)
    requires |p| == |b|
    ensures r.Finite? || r.NaN?
    ensures r.Finite? <==> SampleVariance(b).Positive()
    ensures r.Finite? ==> |b| >= 2 && r.value * SampleVariance(b).value == SampleCovariance(p, b).value
  {
    var v := SampleVariance(b);
    if v.Positive() then Div(SampleCovariance(p, b).value, v) else NaN
  }

  /** Beta is NaN exactly when the benchmark has fewer than two months or
      returns the same every month. */
  lemma BetaUndefinedIffFlat(p: seq<real>, b: seq<real>)
    requires |p| == |b|
    ensures Beta(p, b).NaN? <==> |b| < 2 || Constant(b)
  {
    if |b| >= 2 {
      VarianceZeroIffConstant(b);
    }
  }

  /** `Alpha (annualized)`: present exactly when beta is a number;
      `annual mean - (rf + beta * (benchmark annual mean - rf))`. */
  function Alpha(p: seq<real>, b: seq<real>): (r: Option<real>)
    requires |p| == |b| && |p| > 0
    ensures r.Some? <==> Beta(p, b).Finite?
  {
    var beta := Beta(p, b);
    if beta.NaN? then None
    else Some(AnnualMean(p) - (RiskFreeAnnual + beta.value * (AnnualMean(b) - RiskFreeAnnual)))
  }

  /** `Treynor Ratio (%)`: excess annual return over beta, in percent; NaN
      when beta is zero or NaN (NaN passes the `!= 0` test and propagates). */
  function Treynor(p: seq<real>, b: seq<real>): (r: Metric)
    requires |p| == |b| && |p| > 0
    ensures r.NaN? <==> Beta(p, b).NaN? || Beta(p, b) == Finite(0.0)
    ensures r.Finite? ==> r.value * Beta(p, b).value == ExcessAnnual(p) * 100.0
  {
    var beta := Beta(p, b);
    if beta.NaN? || beta.value == 0.0 then NaN
    else
      var t := ExcessAnnual(p) / beta.value;
      Finite(t * 100.0)
  }

  /** `Active Return (annual)`: the portfolio's annualised mean less the
      benchmark's. When both monthly means stay above -100% it is positive
      exactly when the portfolio's monthly mean beats the benchmark's, and
      zero exactly when they tie. */
  function ActiveReturn(p: seq<real>, b: seq<real>): (r: real)
    requires |p| == |b| && |p| > 0
    ensures Mean(p) > -1.0 && Mean(b) > -1.0 ==> (r > 0.0 <==> Mean(p) > Mean(b))
    ensures Mean(p) > -1.0 && Mean(b) > -1.0 ==> (r == 0.0 <==> Mean(p) == Mean(b))
  {
    assert -1.0 < Mean(p) < Mean(b) ==> AnnualMean(p) < AnnualMean(b) by {
      if -1.0 < Mean(p) < Mean(b) {
        AnnualRateMonotone(Mean(p), Mean(b));
      }
    }
    assert -1.0 < Mean(b) < Mean(p) ==> AnnualMean(b) < AnnualMean(p) by {
      if -1.0 < Mean(b) < Mean(p) {
        AnnualRateMonotone(Mean(b), Mean(p));
      }
    }
    AnnualMean(p) - AnnualMean(b)
  }

  /** The positions, in increasing order, of the benchmark months that pass
      `keep`: the boolean mask `keep(b)` as a list of indices. */
  function Selected(b: seq<real>, keep: real -> bool): (idx: seq<nat>)
    ensures |idx| <= |b|
  {
    if |b| == 0 then []
    else (if keep(b[0]) then [0] else []) + Shift(Selected(b[1..], keep))
  }

  /** Every index moved one place on. */
  function Shift(idx: seq<nat>): (r: seq<nat>)
    ensures |r| == |idx|
    ensures forall k :: 0 <= k < |idx| ==> r[k] == idx[k] + 1
  {
    seq(|idx|, k requires 0 <= k < |idx| => idx[k] + 1)
  }

  /** `idx` lists, in strictly increasing order, exactly the positions of
      `b` whose value passes `keep`. */
  predicate Picks(idx: seq<nat>, b: seq<real>, keep: real -> bool) {
    PicksOnly(idx, b, keep) && PicksAll(idx, b, keep) && Increasing(idx)
  }

  predicate PicksOnly(idx: seq<nat>, b: seq<real>, keep: real -> bool) {
    forall k :: 0 <= k < |idx| ==> idx[k] < |b| && keep(b[idx[k]])
  }

  predicate PicksAll(idx: seq<nat>, b: seq<real>, keep: real -> bool) {
    forall i :: 0 <= i < |b| && keep(b[i]) ==> i in idx
  }

  predicate Increasing(idx: seq<nat>) {
    forall k, l :: 0 <= k < l < |idx| ==> idx[k] < idx[l]
  }

  /** The selected positions are exactly the months passing the test, in
      order, as many as the filtered benchmark has values. */
  lemma SelectedPicks(b: seq<real>, keep: real -> bool)
    ensures Picks(Selected(b, keep), b, keep)
    ensures |Selected(b, keep)| == |Filter(b, keep)|
  {
    SelectedOnly(b, keep);
    SelectedAll(b, keep);
    SelectedIncreasing(b, keep);
    SelectedCount(b, keep);
  }

  lemma {:induction false} SelectedOnly(b: seq<real>, keep: real -> bool)
    ensures PicksOnly(Selected(b, keep), b, keep)
  {
    if |b| > 0 {
      var rest := Selected(b[1..], keep);
      SelectedOnly(b[1..], keep);
      var shifted := Shift(rest);
      forall k | 0 <= k < |shifted|
        ensures shifted[k] < |b| && keep(b[shifted[k]])
      {
        assert b[1..][rest[k]] == b[shifted[k]];
      }
      var head: seq<nat> := if keep(b[0]) then [0] else [];
      assert Selected(b, keep) == head + shifted;
    }
  }

  lemma {:induction false} SelectedAll(b: seq<real>, keep: real -> bool)
    ensures PicksAll(Selected(b, keep), b, keep)
  {
    if |b| > 0 {
      var rest := Selected(b[1..], keep);
      SelectedAll(b[1..], keep);
      var shifted := Shift(rest);
      forall i | 1 <= i < |b| && keep(b[i])
        ensures i in shifted
      {
        assert b[1..][i - 1] == b[i];
        var k :| 0 <= k < |rest| && rest[k] == i - 1;
        assert shifted[k] == i;
      }
      var head: seq<nat> := if keep(b[0]) then [0] else [];
      assert Selected(b, keep) == head + shifted;
    }
  }

  lemma {:induction false} SelectedIncreasing(b: seq<real>, keep: real -> bool)
    ensures Increasing(Selected(b, keep))
  {
    if |b| > 0 {
      SelectedIncreasing(b[1..], keep);
      var shifted := Shift(Selected(b[1..], keep));
      assert Increasing(shifted);
      assert forall k :: 0 <= k < |shifted| ==> shifted[k] >= 1;
      var head: seq<nat> := if keep(b[0]) then [0] else [];
      assert Selected(b, keep) == head + shifted;
    }
  }

  lemma {:induction false} SelectedCount(b: seq<real>, keep: real -> bool)
    ensures |Selected(b, keep)| == |Filter(b, keep)|
  {
    if |b| > 0 {
      SelectedCount(b[1..], keep);
    }
  }

  /** The portfolio returns of the months whose benchmark return passes
      `keep`, `p[keep(b)]`. */
  function Where(p: seq<real>, b: seq<real>, keep: real -> bool): (r: seq<real>)
    requires |p| == |b|
    ensures |r| == |Filter(b, keep)|
  {
    if |p| == 0 then []
    else (if keep(b[0]) then [p[0]] else []) + Where(p[1..], b[1..], keep)
  }

  /** The k-th value `Where` picks is the portfolio's return in the k-th
      month whose benchmark return passes the test: no month is dropped,
      repeated or reordered. */
  lemma WhereSelects(p: seq<real>, b: seq<real>, keep: real -> bool)
    requires |p| == |b|
    ensures Picks(Selected(b, keep), b, keep)
    ensures |Where(p, b, keep)| == |Selected(b, keep)|
    ensures forall k :: 0 <= k < |Where(p, b, keep)| ==> Where(p, b, keep)[k] == p[Selected(b, keep)[k]]
  {
    SelectedPicks(b, keep);
    WhereAt(p, b, keep);
  }

  lemma {:induction false} WhereAt(p: seq<real>, b: seq<real>, keep: real -> bool)
    requires |p| == |b|
    ensures |Selected(b, keep)| == |Where(p, b, keep)|
    ensures forall k :: 0 <= k < |Where(p, b, keep)| ==> Selected(b, keep)[k] < |p| && Where(p, b, keep)[k] == p[Selected(b, keep)[k]]
  {
    if |p| > 0 {
      WhereAt(p[1..], b[1..], keep);
      var rest := Where(p[1..], b[1..], keep);
      var later := Selected(b[1..], keep);
      var shifted := Shift(later);
      var head: seq<real> := if keep(b[0]) then [p[0]] else [];
      var first: seq<nat> := if keep(b[0]) then [0] else [];
      assert Where(p, b, keep) == head + rest;
      assert Selected(b, keep) == first + shifted;
      forall k | 0 <= k < |rest|
        ensures shifted[k] < |p| && rest[k] == p[shifted[k]]
      {
        assert p[1..][later[k]] == p[later[k] + 1];
      }
    }
  }

  function UpMarket(x: real): bool {
    x > 0.0
  }

  function DownMarket(x: real): bool {
    x < 0.0
  }

  /** A capture ratio over the months selected by `keep`: the portfolio's
      mean return there over the benchmark's, in percent; absent when no
      month is selected or the benchmark's mean there is zero. */
  function Capture(p: seq<real>, b: seq<real>, keep: real -> bool): Option<real>
    requires |p| == |b|
  {
    var bs := Filter(b, keep);
    if |bs| > 0 then
      var bm := Mean(bs);
      if bm != 0.0 then Some(Mean(Where(p, b, keep)) / bm * 100.0) else None
    else None
  }

  function UpsideCapture(p: seq<real>, b: seq<real>): Option<real>
    requires |p| == |b|
  {
    Capture(p, b, UpMarket)
  }

  function DownsideCapture(p: seq<real>, b: seq<real>): Option<real>
    requires |p| == |b|
  {
    Capture(p, b, DownMarket)
  }

  /** Mean of a selection whose every element passes `keep`. */
  lemma MeanOfSelection(xs: seq<real>, keep: real -> bool)
    requires |Filter(xs, keep)| > 0
    ensures var bs := Filter(xs, keep); Min(bs) in bs && Max(bs) in bs
    ensures keep(Min(Filter(xs, keep))) && keep(Max(Filter(xs, keep)))
  {
  }

  /** A capture ratio is reported exactly when the benchmark has at least
      one month on its side of zero: up months for the upside ratio, down
      months for the downside ratio. */
  lemma CapturePresence(p: seq<real>, b: seq<real>)
    requires |p| == |b|
    ensures UpsideCapture(p, b).Some? <==> exists i :: 0 <= i < |b| && b[i] > 0.0
    ensures DownsideCapture(p, b).Some? <==> exists i :: 0 <= i < |b| && b[i] < 0.0
  {
    FilterKeepsNone(b, UpMarket);
    FilterKeepsNone(b, DownMarket);
    if |Filter(b, UpMarket)| > 0 {
      MeanOfSelection(b, UpMarket);
    }
    if |Filter(b, DownMarket)| > 0 {
      MeanOfSelection(b, DownMarket);
    }
  }

  lemma RatioOfMeans(sp: real, sb: real, n: real)
    requires n > 0.0 && sb / n != 0.0
    ensures (sp / n) / (sb / n) == sp / sb
  {
    assert sb != 0.0;
    assert (sp / n) * n == sp;
    assert (sb / n) * n == sb;
    assert (sp / n) / (sb / n) * (sb / n) == sp / n;
  }

  /** A reported capture ratio is the portfolio's total return over the
      selected months divided by the benchmark's, in percent. */
  lemma CaptureIsSumRatio(p: seq<real>, b: seq<real>, keep: real -> bool)
    requires |p| == |b|
    requires Capture(p, b, keep).Some?
    ensures Capture(p, b, keep).value == Sum(Where(p, b, keep)) / Sum(Filter(b, keep)) * 100.0
  {
    var bs := Filter(b, keep);
    var ps := Where(p, b, keep);
    RatioOfMeans(Sum(ps), Sum(bs), |bs| as real);
  }

  /** Selecting the benchmark's own months from the benchmark gives the
      plain selection. */
  lemma {:induction false} WhereItself(b: seq<real>, keep: real -> bool)
    ensures Where(b, b, keep) == Filter(b, keep)
  {
    if |b| > 0 {
      WhereItself(b[1..], keep);
    }
  }

  /** Measured against itself, a benchmark that moves has beta 1, alpha 0
      and no active return. */
  lemma BenchmarkAgainstItself(b: seq<real>)
    requires |b| >= 2 && !Constant(b)
    ensures Beta(b, b) == Finite(1.0)
    ensures Alpha(b, b) == Some(0.0)
    ensures ActiveReturn(b, b) == 0.0
  {
    BetaOfItself(b);
    var a := AnnualMean(b);
    assert a - (RiskFreeAnnual + 1.0 * (a - RiskFreeAnnual)) == 0.0;
  }

  lemma BetaOfItself(b: seq<real>)
    requires |b| >= 2 && !Constant(b)
    ensures Beta(b, b) == Finite(1.0)
  {
    BetaUndefinedIffFlat(b, b);
    CovarianceWithItself(b);
    var beta := Beta(b, b);
    var v := SampleVariance(b);
    assert beta.Finite? && v.Finite? && v.value > 0.0;
    assert beta.value * v.value == SampleCovariance(b, b).value;
    assert SampleCovariance(b, b).value == v.value;
    UnitRatio(beta.value, v.value);
  }

  lemma UnitRatio(r: real, v: real)
    requires r * v == v && v != 0.0
    ensures r == 1.0
  {
  }

  /** A benchmark captures exactly 100% of its own up and down months. */
  lemma CaptureOfItself(b: seq<real>)
    ensures UpsideCapture(b, b).Some? ==> UpsideCapture(b, b).value == 100.0
    ensures DownsideCapture(b, b).Some? ==> DownsideCapture(b, b).value == 100.0
  {
    WhereItself(b, UpMarket);
    WhereItself(b, DownMarket);
    if |Filter(b, DownMarket)| > 0 {
      SelfRatio(Mean(Filter(b, DownMarket)));
    }
    if |Filter(b, UpMarket)| > 0 {
      SelfRatio(Mean(Filter(b, UpMarket)));
    }
  }

  lemma SelfRatio(m: real)
    ensures m != 0.0 ==> m / m * 100.0 == 100.0
  {
  }
}
