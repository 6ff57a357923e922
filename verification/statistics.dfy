/** Descriptive statistics over a sequence of monthly returns, with pandas'
    conventions: sample (n - 1) variance and covariance, NaN below two
    observations. */
module Statistics {
  import opened Numbers

  /** `sum(xs)`, added from the front. */
  function Sum(xs: seq<real>): real {
    if |xs| == 0 then 0.0 else xs[0] + Sum(xs[1..])
  }

  lemma {:induction false} SumAppend(a: seq<real>, b: seq<real>)
    ensures Sum(a + b) == Sum(a) + Sum(b)
  {
    if |a| == 0 {
      assert a + b == b;
    } else {
      assert (a + b)[1..] == a[1..] + b;
      SumAppend(a[1..], b);
    }
  }

  /** A sum of terms that all lie in [lo, hi] lies in [n * lo, n * hi]. */
  lemma {:induction false} SumBounds(xs: seq<real>, lo: real, hi: real)
    requires forall i :: 0 <= i < |xs| ==> lo <= xs[i] <= hi
    ensures (|xs| as real) * lo <= Sum(xs) <= (|xs| as real) * hi
  {
    if |xs| > 0 {
      SumBounds(xs[1..], lo, hi);
      assert (|xs| as real) * lo == lo + (|xs[1..]| as real) * lo;
      assert (|xs| as real) * hi == hi + (|xs[1..]| as real) * hi;
    }
  }

  /** The sum of n copies of c. */
  lemma {:induction false} SumConstant(xs: seq<real>, c: real)
    requires forall i :: 0 <= i < |xs| ==> xs[i] == c
    ensures Sum(xs) == (|xs| as real) * c
  {
    SumBounds(xs, c, c);
  }

  /** `max(xs)`: an element of xs that no element exceeds. */
  function Max(xs: seq<real>): (m: real)
    requires |xs| > 0
    ensures m in xs
    ensures forall i :: 0 <= i < |xs| ==> xs[i] <= m
  {
    if |xs| == 1 then xs[0]
    else
      var rest := Max(xs[1..]);
      if xs[0] >= rest then xs[0] else rest
  }

  /** `min(xs)`: an element of xs that exceeds no element. */
  function Min(xs: seq<real>): (m: real)
    requires |xs| > 0
    ensures m in xs
    ensures forall i :: 0 <= i < |xs| ==> m <= xs[i]
  {
    if |xs| == 1 then xs[0]
    else
      var rest := Min(xs[1..]);
      if xs[0] <= rest then xs[0] else rest
  }

  /** A quotient of a sum bounded by n * lo and n * hi lies in [lo, hi]. */
  lemma DivideBounds(s: real, n: real, lo: real, hi: real)
    requires n > 0.0 && n * lo <= s <= n * hi
    ensures lo <= s / n <= hi
  {
    var q := s / n;
    assert s == q * n;
  }

  /** The arithmetic mean `xs.mean()`, which lies between the smallest and
      the largest return. */
  function Mean(xs: seq<real>): (m: real)
    requires |xs| > 0
    ensures Min(xs) <= m <= Max(xs)
  {
    SumBounds(xs, Min(xs), Max(xs));
    DivideBounds(Sum(xs), |xs| as real, Min(xs), Max(xs));
    Sum(xs) / (|xs| as real)
  }

  /** The mean of n copies of c is c. */
  lemma MeanConstant(xs: seq<real>, c: real)
    requires |xs| > 0
    requires forall i :: 0 <= i < |xs| ==> xs[i] == c
    ensures Mean(xs) == c
  {
    SumConstant(xs, c);
  }

  /** The elements of xs that pass `keep`, in their original order; the
      boolean-mask selection `xs[keep(xs)]`. */
  function Filter(xs: seq<real>, keep: real -> bool): (r: seq<real>)
    ensures |r| <= |xs|
    ensures forall x :: x in r <==> x in xs && keep(x)
  {
    if |xs| == 0 then []
    else
      var rest := Filter(xs[1..], keep);
      assert forall x :: x in xs <==> x == xs[0] || x in xs[1..];
      if keep(xs[0]) then [xs[0]] + rest else rest
  }

  /** A selection keeps every passing value as often as the input holds
      it and drops every other value: repeats are counted, not merged. */
  lemma {:induction false} FilterCounts(xs: seq<real>, keep: real -> bool)
    ensures forall x :: multiset(Filter(xs, keep))[x] == if keep(x) then multiset(xs)[x] else 0
  {
    if |xs| > 0 {
      FilterCounts(xs[1..], keep);
      assert xs == [xs[0]] + xs[1..];
      assert multiset(xs) == multiset{xs[0]} + multiset(xs[1..]);
    }
  }

  /** The selection keeps everything exactly when every element passes. */
  lemma {:induction false} FilterKeepsAll(xs: seq<real>, keep: real -> bool)
    ensures |Filter(xs, keep)| == |xs| <==> forall i :: 0 <= i < |xs| ==> keep(xs[i])
  {
    if |xs| > 0 {
      FilterKeepsAll(xs[1..], keep);
      assert forall i :: 1 <= i < |xs| ==> xs[i] == xs[1..][i - 1];
    }
  }

  /** The selection is empty exactly when no element passes. */
  lemma FilterKeepsNone(xs: seq<real>, keep: real -> bool)
    ensures |Filter(xs, keep)| == 0 <==> forall i :: 0 <= i < |xs| ==> !keep(xs[i])
  {
    var r := Filter(xs, keep);
    if |r| > 0 {
      assert r[0] in r;
    }
    if exists i :: 0 <= i < |xs| && keep(xs[i]) {
      var i :| 0 <= i < |xs| && keep(xs[i]);
      assert xs[i] in xs;
    }
  }

  /** The returns strictly above zero, `xs[xs > 0]`. */
  function Gains(xs: seq<real>): seq<real> {
    Filter(xs, x => x > 0.0)
  }

  /** The returns strictly below zero, `xs[xs < 0]`. */
  function Losses(xs: seq<real>): seq<real> {
    Filter(xs, x => x < 0.0)
  }

  lemma GainsCount(xs: seq<real>)
    ensures |Gains(xs)| == |xs| <==> forall i :: 0 <= i < |xs| ==> xs[i] > 0.0
    ensures |Gains(xs)| == 0 <==> forall i :: 0 <= i < |xs| ==> xs[i] <= 0.0
  {
    FilterKeepsAll(xs, x => x > 0.0);
    FilterKeepsNone(xs, x => x > 0.0);
  }

  lemma LossesCount(xs: seq<real>)
    ensures |Losses(xs)| == 0 <==> forall i :: 0 <= i < |xs| ==> xs[i] >= 0.0
  {
    FilterKeepsNone(xs, x => x < 0.0);
  }

  /** All elements equal. */
  predicate Constant(xs: seq<real>) {
    forall i, j :: 0 <= i < |xs| && 0 <= j < |xs| ==> xs[i] == xs[j]
  }

  /** `d ** 2`. */
  function Sq(d: real): real {
    d * d
  }

  lemma ZeroProduct(a: real, b: real)
    requires a * b == 0.0
    ensures a == 0.0 || b == 0.0
  {
  }

  /** A square is never negative and is zero only at zero. */
  lemma SqSign(d: real)
    ensures Sq(d) >= 0.0
    ensures d != 0.0 ==> Sq(d) > 0.0
  {
    if Sq(d) == 0.0 {
      ZeroProduct(d, d);
    }
  }

  /** Sum of squared deviations from c. */
  function SquaredDeviations(xs: seq<real>, c: real): (r: real)
    ensures r >= 0.0
  {
    if |xs| == 0 then 0.0
    else
      SqSign(xs[0] - c);
      Sq(xs[0] - c) + SquaredDeviations(xs[1..], c)
  }

  /** Sum of products of paired deviations from cx and cy. */
  function CrossDeviations(xs: seq<real>, ys: seq<real>, cx: real, cy: real): real
    requires |xs| == |ys|
  {
    if |xs| == 0 then 0.0
    else (xs[0] - cx) * (ys[0] - cy) + CrossDeviations(xs[1..], ys[1..], cx, cy)
  }

  /** `xs.var()`: the sample variance, NaN below two observations. */
  function SampleVariance(xs: seq<real>): (v: Metric)
    ensures v.Finite? || v.NaN?
    ensures v.NaN? <==> |xs| < 2
    ensures v.Finite? ==> v.value >= 0.0
  {
    if |xs| < 2 then NaN
    else Finite(SquaredDeviations(xs, Mean(xs)) / ((|xs| - 1) as real))
  }

  /** `xs.cov(ys)`: the sample covariance of two aligned series, NaN below
      two observations. */
  function SampleCovariance(xs: seq<real>, ys: seq<real>): (v: Metric)
    requires |xs| == |ys|
    ensures v.Finite? || v.NaN?
    ensures v.NaN? <==> |xs| < 2
  {
    if |xs| < 2 then NaN
    else Finite(CrossDeviations(xs, ys, Mean(xs), Mean(ys)) / ((|xs| - 1) as real))
  }

  lemma {:induction false} CrossDeviationsWithItself(xs: seq<real>, c: real)
    ensures CrossDeviations(xs, xs, c, c) == SquaredDeviations(xs, c)
  {
    if |xs| > 0 {
      CrossDeviationsWithItself(xs[1..], c);
    }
  }

  /** The covariance of a series with itself is its variance. */
  lemma CovarianceWithItself(xs: seq<real>)
    ensures SampleCovariance(xs, xs) == SampleVariance(xs)
  {
    if |xs| >= 2 {
      CrossDeviationsWithItself(xs, Mean(xs));
    }
  }

  /** `xs.std()`: the host's square root of the sample variance. */
  function StdDev(xs: seq<real>, sqrt: real -> real): (s: Metric)
    ensures s.Finite? || s.NaN?
    ensures s.NaN? <==> |xs| < 2
  {
    match SampleVariance(xs)
    case Finite(v) => Finite(sqrt(v))
    case NaN => NaN
  }

  lemma {:induction false} SquaredDeviationsZero(xs: seq<real>, c: real)
    ensures SquaredDeviations(xs, c) == 0.0 <==> forall i :: 0 <= i < |xs| ==> xs[i] == c
  {
    if |xs| > 0 {
      SquaredDeviationsZero(xs[1..], c);
      SqSign(xs[0] - c);
      if xs[0] != c {
        assert SquaredDeviations(xs, c) > 0.0;
      } else if SquaredDeviations(xs, c) == 0.0 {
        forall i | 0 <= i < |xs|
          ensures xs[i] == c
        {
          if i > 0 {
            assert xs[i] == xs[1..][i - 1];
          }
        }
      }
      if forall i :: 0 <= i < |xs| ==> xs[i] == c {
        assert forall i :: 0 <= i < |xs[1..]| ==> xs[1..][i] == c by {
          forall i | 0 <= i < |xs[1..]|
            ensures xs[1..][i] == c
          {
            assert xs[1..][i] == xs[i + 1];
          }
        }
      }
    }
  }

  /** A sample of two or more has zero variance exactly when all its
      values are equal. */
  lemma VarianceZeroIffConstant(xs: seq<real>)
    requires |xs| >= 2
    ensures SampleVariance(xs) == Finite(0.0) <==> Constant(xs)
  {
    var m := Mean(xs);
    var n := (|xs| - 1) as real;
    SquaredDeviationsZero(xs, m);
    if Constant(xs) {
      MeanConstant(xs, xs[0]);
    }
    if SampleVariance(xs) == Finite(0.0) {
      var s := SquaredDeviations(xs, m);
      assert s / n == 0.0;
      assert s == (s / n) * n;
    }
  }

  /** Under a sign-preserving square root, a sample of two or more has a
      positive standard deviation exactly when its values are not all equal. */
  lemma StdDevPositiveIffNotConstant(xs: seq<real>, sqrt: real -> real)
    requires SignPreserving(sqrt)
    ensures StdDev(xs, sqrt).Positive() <==> |xs| >= 2 && !Constant(xs)
  {
    if |xs| >= 2 {
      VarianceZeroIffConstant(xs);
    }
  }
}
