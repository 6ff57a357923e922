/** The drawdown chain of the metrics report:
    `cumulative = (1 + r).cumprod()`, `peak = cumulative.cummax()`,
    `drawdowns = cumulative / peak - 1`, `max drawdown = drawdowns.min()`. */
module Drawdown {
  import opened Numbers
  import opened Statistics
  import opened Compounding

  /** The value of one unit after each month. */
  function Wealth(xs: seq<real>): (w: seq<real>)
    ensures |w| == |xs|
  {
    seq(|xs|, i requires 0 <= i < |xs| => Growth(xs[..i + 1]))
  }

  /** The highest wealth reached up to each month. */
  function Peaks(w: seq<real>): (p: seq<real>)
    ensures |p| == |w|
  {
    seq(|w|, i requires 0 <= i < |w| => Max(w[..i + 1]))
  }

  /** The running peak is reached at some month so far and no month so far
      exceeds it. */
  lemma PeakIsRunningMax(w: seq<real>, i: int)
    requires 0 <= i < |w|
    ensures forall k :: 0 <= k <= i ==> w[k] <= Peaks(w)[i]
    ensures exists k :: 0 <= k <= i && Peaks(w)[i] == w[k]
  {
    var prefix := w[..i + 1];
    assert forall k :: 0 <= k <= i ==> prefix[k] == w[k];
    var k :| 0 <= k < |prefix| && prefix[k] == Max(prefix);
  }

  /** `w / p - 1` in floating point. */
  function Shortfall(w: real, p: real): (r: Metric)
    ensures p != 0.0 ==> r == Finite(w / p - 1.0)
    ensures p == 0.0 ==> (r.NaN? <==> w == 0.0)
  {
    match Div(w, Finite(p))
    case Finite(v) => Finite(v - 1.0)
    case other => other
  }

  /** How far below its running peak the wealth stands in each month. */
  function Drawdowns(xs: seq<real>): (d: seq<Metric>)
    ensures |d| == |xs|
  {
    var w := Wealth(xs);
    var p := Peaks(w);
    seq(|xs|, i requires 0 <= i < |xs| => Shortfall(w[i], p[i]))
  }

  /** The deepest drawdown, NaN entries skipped. */
  function MaxDrawdown(xs: seq<real>): Metric {
    MinSkipNaN(Drawdowns(xs))
  }

  /** What one unit held from the close of month i to the close of month
      j grows to. */
  function GrowthBetween(xs: seq<real>, i: int, j: int): real
    requires 0 <= i <= j < |xs|
  {
    Growth(xs[i + 1..j + 1])
  }

  lemma ShortfallAtPeak(w: real)
    requires w != 0.0
    ensures Shortfall(w, w) == Finite(0.0)
  {
    assert w / w == 1.0;
  }

  /** The first month stands at its own peak, so unless the first month
      wipes the holding out its drawdown is exactly zero. A loss in the
      first month therefore never shows as a drawdown. A first month of
      exactly -100% leaves wealth and peak at zero, and 0/0 is NaN. */
  lemma FirstDrawdownIsZero(xs: seq<real>)
    requires |xs| > 0
    ensures 1.0 + xs[0] != 0.0 ==> Drawdowns(xs)[0] == Finite(0.0)
    ensures 1.0 + xs[0] == 0.0 ==> Drawdowns(xs)[0].NaN?
  {
    var w := Wealth(xs);
    assert xs[..1] == [xs[0]];
    GrowthSingle(xs[0]);
    assert w[0] == 1.0 + xs[0];
    PeakIsRunningMax(w, 0);
    if w[0] != 0.0 {
      ShortfallAtPeak(w[0]);
    }
  }

  /** No drawdown is infinite: a zero running peak means the holding was
      wiped out at some month so far and has stayed at zero since, so the
      entry is 0/0, which is NaN. */
  lemma DrawdownNeverInfinite(xs: seq<real>, i: int)
    requires 0 <= i < |xs|
    ensures Drawdowns(xs)[i].Finite? || Drawdowns(xs)[i].NaN?
  {
    var w := Wealth(xs);
    var p := Peaks(w);
    PeakIsRunningMax(w, i);
    if p[i] == 0.0 {
      var k :| 0 <= k <= i && p[i] == w[k];
      WealthSplit(xs, k, i);
      assert w[i] == Times(0.0, GrowthBetween(xs, k, i));
      assert w[i] == 0.0;
    }
  }

  /** Unless the first month wipes the holding out, the maximum drawdown is
      a finite number no greater than zero, even under a short position. */
  lemma MaxDrawdownNotAboveZero(xs: seq<real>)
    requires |xs| > 0 && 1.0 + xs[0] != 0.0
    ensures MaxDrawdown(xs).Finite? && MaxDrawdown(xs).value <= 0.0
  {
    FirstDrawdownIsZero(xs);
    var d := Drawdowns(xs);
    assert !d[0].NaN?;
    forall i | 0 <= i < |d|
      ensures d[i].Finite? || d[i].NaN?
    {
      DrawdownNeverInfinite(xs, i);
    }
    var m := MaxDrawdown(xs);
    assert AtMost(m, d[0]);
  }

  /** Wealth at month j is wealth at month i grown over the months after i. */
  lemma WealthSplit(xs: seq<real>, i: int, j: int)
    requires 0 <= i <= j < |xs|
    ensures Wealth(xs)[j] == Times(Wealth(xs)[i], GrowthBetween(xs, i, j))
  {
    assert xs[..j + 1] == xs[..i + 1] + xs[i + 1..j + 1];
    GrowthAppend(xs[..i + 1], xs[i + 1..j + 1]);
  }

  lemma SolventSlice(xs: seq<real>, lo: int, hi: int)
    requires Solvent(xs) && 0 <= lo <= hi <= |xs|
    ensures Solvent(xs[lo..hi])
  {
    assert forall k :: 0 <= k < hi - lo ==> xs[lo..hi][k] == xs[lo + k];
  }

  lemma WealthPositive(xs: seq<real>, i: int)
    requires Solvent(xs) && 0 <= i < |xs|
    ensures Wealth(xs)[i] > 0.0
  {
    SolventSlice(xs, 0, i + 1);
    GrowthPositive(xs[..i + 1]);
  }

  /** From `w == a * g` with `0 < a <= p` and `g > 0`: `w / p <= g`. */
  lemma ScaledDown(w: real, p: real, a: real, g: real)
    requires w == Times(a, g) && 0.0 < a <= p && g > 0.0
    ensures w / p <= g
  {
    assert a * g <= p * g;
    assert w / p * p == w;
  }

  function Times(a: real, b: real): real {
    a * b
  }

  lemma Cancel(w: real, p: real, g: real)
    requires w == Times(p, g) && p != 0.0
    ensures w / p == g
  {
  }

  /** A solvent month's peak is positive and its drawdown is
      `wealth / peak - 1`. */
  lemma DrawdownRatio(xs: seq<real>, j: int)
    requires Solvent(xs) && 0 <= j < |xs|
    ensures Peaks(Wealth(xs))[j] > 0.0
    ensures Drawdowns(xs)[j] == Finite(Wealth(xs)[j] / Peaks(Wealth(xs))[j] - 1.0)
  {
    var w := Wealth(xs);
    PeakIsRunningMax(w, j);
    WealthPositive(xs, 0);
  }

  /** A solvent month's drawdown is finite and sits at most as low as the
      loss compounded since any earlier close. */
  lemma DrawdownAtMost(xs: seq<real>, i: int, j: int)
    requires Solvent(xs) && 0 <= i <= j < |xs|
    ensures Drawdowns(xs)[j].Finite?
    ensures Drawdowns(xs)[j].value <= GrowthBetween(xs, i, j) - 1.0
  {
    var w := Wealth(xs);
    var p := Peaks(w);
    DrawdownRatio(xs, j);
    PeakIsRunningMax(w, j);
    WealthPositive(xs, i);
    WealthSplit(xs, i, j);
    SolventSlice(xs, i + 1, j + 1);
    GrowthPositive(xs[i + 1..j + 1]);
    ScaledDown(w[j], p[j], w[i], GrowthBetween(xs, i, j));
  }

  /** ...and equal to the loss compounded since the month of the running
      peak. */
  lemma DrawdownAttained(xs: seq<real>, j: int)
    requires Solvent(xs) && 0 <= j < |xs|
    ensures Drawdowns(xs)[j].Finite?
    ensures exists i :: 0 <= i <= j && Drawdowns(xs)[j].value == GrowthBetween(xs, i, j) - 1.0
  {
    var w := Wealth(xs);
    var p := Peaks(w);
    DrawdownRatio(xs, j);
    PeakIsRunningMax(w, j);
    var k :| 0 <= k <= j && p[j] == w[k];
    WealthSplit(xs, k, j);
    Cancel(w[j], p[j], GrowthBetween(xs, k, j));
  }

  /** Each month's drawdown lies in (-1, 0] while the holding stays
      solvent. */
  lemma DrawdownBounds(xs: seq<real>, j: int)
    requires Solvent(xs) && 0 <= j < |xs|
    ensures Drawdowns(xs)[j].Finite?
    ensures -1.0 < Drawdowns(xs)[j].value <= 0.0
  {
    DrawdownAtMost(xs, j, j);
    assert xs[j + 1..j + 1] == [];
    DrawdownAttained(xs, j);
    var i :| 0 <= i <= j && Drawdowns(xs)[j].value == GrowthBetween(xs, i, j) - 1.0;
    SolventSlice(xs, i + 1, j + 1);
    GrowthPositive(xs[i + 1..j + 1]);
  }

  /** The maximum drawdown is the worst compounded loss from any month's
      close to any later month's close: at most every such loss, and equal
      to one of them. */
  lemma MaxDrawdownIsWorstPeakToTrough(xs: seq<real>)
    requires Solvent(xs) && |xs| > 0
    ensures MaxDrawdown(xs).Finite?
    ensures -1.0 < MaxDrawdown(xs).value <= 0.0
    ensures forall i, j :: 0 <= i <= j < |xs| ==> MaxDrawdown(xs).value <= GrowthBetween(xs, i, j) - 1.0
    ensures exists i, j :: 0 <= i <= j < |xs| && MaxDrawdown(xs).value == GrowthBetween(xs, i, j) - 1.0
  {
    var d := Drawdowns(xs);
    forall j | 0 <= j < |xs|
      ensures d[j].Finite? && -1.0 < d[j].value <= 0.0
    {
      DrawdownBounds(xs, j);
    }
    assert !d[0].NaN?;
    var m := MaxDrawdown(xs);
    forall i, j | 0 <= i <= j < |xs|
      ensures m.value <= GrowthBetween(xs, i, j) - 1.0
    {
      DrawdownAtMost(xs, i, j);
    }
    var j :| 0 <= j < |d| && d[j] == m;
    DrawdownAttained(xs, j);
  }

  /** The maximum drawdown is zero exactly when no month after the first
      loses money. */
  lemma NoDrawdownIffNoLaterLoss(xs: seq<real>)
    requires Solvent(xs) && |xs| > 0
    ensures MaxDrawdown(xs) == Finite(0.0) <==> forall j :: 1 <= j < |xs| ==> xs[j] >= 0.0
  {
    MaxDrawdownIsWorstPeakToTrough(xs);
    var m := MaxDrawdown(xs);
    if forall j :: 1 <= j < |xs| ==> xs[j] >= 0.0 {
      var i, j :| 0 <= i <= j < |xs| && m.value == GrowthBetween(xs, i, j) - 1.0;
      var seg := xs[i + 1..j + 1];
      assert forall k :: 0 <= k < |seg| ==> seg[k] == xs[i + 1 + k];
      GrowthAtLeastOne(seg);
    } else {
      var j :| 1 <= j < |xs| && xs[j] < 0.0;
      assert xs[j..j + 1] == [xs[j]];
      GrowthSingle(xs[j]);
      assert m.value <= GrowthBetween(xs, j - 1, j) - 1.0;
    }
  }

  /** The facts about a solvent series' maximum drawdown that the Calmar
      guard depends on. */
  lemma MaxDrawdownSign(xs: seq<real>)
    requires Solvent(xs) && |xs| > 0
    ensures MaxDrawdown(xs).Finite?
    ensures MaxDrawdown(xs).value <= 0.0
    ensures MaxDrawdown(xs).value == 0.0 <==> forall j :: 1 <= j < |xs| ==> xs[j] >= 0.0
  {
    MaxDrawdownIsWorstPeakToTrough(xs);
    NoDrawdownIffNoLaterLoss(xs);
  }
}
