/** Historical value-at-risk and expected shortfall at the 5% level:
    `np.percentile(r, 5)` with NumPy's default linear interpolation, and the
    mean of the months at or below it. */
module TailRisk {
  import opened Numbers
  import opened Statistics

  predicate Sorted(s: seq<real>) {
    forall i, j :: 0 <= i < j < |s| ==> s[i] <= s[j]
  }

  /** `x` put in front of the first element not smaller than it. */
  function Insert(x: real, s: seq<real>): (r: seq<real>)
    ensures multiset(r) == multiset(s) + multiset{x}
    ensures |r| == |s| + 1
  {
    if |s| == 0 then [x]
    else if x <= s[0] then [x] + s
    else
      assert s == [s[0]] + s[1..];
      [s[0]] + Insert(x, s[1..])
  }

  /** Inserting into a sorted sequence keeps it sorted. */
  lemma {:induction false} InsertSorted(x: real, s: seq<real>)
    requires Sorted(s)
    ensures Sorted(Insert(x, s))
  {
    if |s| > 0 && x > s[0] {
      assert forall k :: 0 <= k < |s[1..]| ==> s[0] <= s[1..][k];
      InsertSorted(x, s[1..]);
      InsertAbove(x, s[1..], s[0]);
    }
  }

  /** Inserting a value no smaller than `lo` among values no smaller than
      `lo` leaves every value no smaller than `lo`. */
  lemma {:induction false} InsertAbove(x: real, s: seq<real>, lo: real)
    requires lo <= x
    requires forall k :: 0 <= k < |s| ==> lo <= s[k]
    ensures forall k :: 0 <= k < |Insert(x, s)| ==> lo <= Insert(x, s)[k]
  {
    if |s| > 0 && x > s[0] {
      InsertAbove(x, s[1..], lo);
    }
  }

  /** `np.sort(xs)`: the same values in ascending order. */
  function SortAscending(xs: seq<real>): (r: seq<real>)
    ensures Sorted(r)
    ensures multiset(r) == multiset(xs)
    ensures |r| == |xs|
  {
    if |xs| == 0 then []
    else
      assert xs == [xs[0]] + xs[1..];
      InsertSorted(xs[0], SortAscending(xs[1..]));
      Insert(xs[0], SortAscending(xs[1..]))
  }

  /** The sorted position `(n - 1) * 5 / 100` of the 5th percentile,
      split into its whole part and its fraction. */
  function Rank(n: nat): (lo: nat)
    requires n > 0
    ensures lo < n
  {
    (n - 1) / 20
  }

  function RankFraction(n: nat): (t: real)
    requires n > 0
    ensures 0.0 <= t < 1.0
  {
    ((n - 1) % 20) as real / 20.0
  }

  /** The 5th percentile of ascending values `s`, interpolated linearly
      between the two values around its position. */
  function FifthPercentile(s: seq<real>): real
    requires |s| > 0
  {
    var lo := Rank(|s|);
    if lo + 1 < |s| then Interpolate(s[lo], s[lo + 1], RankFraction(|s|)) else s[lo]
  }

  /** `np.percentile(xs, 5)` with the default linear method. An empty
      series has no percentile. */
  function HistoricalVaR(xs: seq<real>): real
    requires |xs| > 0
  {
    FifthPercentile(SortAscending(xs))
  }

  function Interpolate(a: real, b: real, t: real): real {
    a + t * (b - a)
  }

  lemma InterpolateBetween(a: real, b: real, t: real)
    requires a <= b && 0.0 <= t <= 1.0
    ensures a <= Interpolate(a, b, t) <= b
  {
    var d := b - a;
    ScaleWithin(t, d);
    assert Interpolate(a, b, t) == a + t * d;
  }

  /** A fraction of a non-negative amount lies between zero and the
      amount. */
  lemma ScaleWithin(t: real, d: real)
    requires 0.0 <= t <= 1.0 && d >= 0.0
    ensures 0.0 <= t * d <= d
  {
    NonNegativeProduct(t, d);
    NonNegativeProduct(1.0 - t, d);
    assert d - t * d == (1.0 - t) * d;
  }

  lemma NonNegativeProduct(x: real, y: real)
    requires x >= 0.0 && y >= 0.0
    ensures x * y >= 0.0
  {
  }

  /** The percentile splits ascending values at rank `(n - 1) / 20`: every
      value up to that rank is at or below it and every later value at or
      above it. */
  lemma PercentileSplitsAtRank(s: seq<real>)
    requires |s| > 0 && Sorted(s)
    ensures forall k :: 0 <= k <= Rank(|s|) ==> s[k] <= FifthPercentile(s)
    ensures forall k :: Rank(|s|) < k < |s| ==> FifthPercentile(s) <= s[k]
  {
    var lo := Rank(|s|);
    if lo + 1 < |s| {
      InterpolateBetween(s[lo], s[lo + 1], RankFraction(|s|));
    }
  }

  /** Sorting the months and splitting them at rank `(n - 1) / 20`: the
      value-at-risk is at least every month up to that rank and at most
      every later one. */
  lemma VaRRank(xs: seq<real>)
    requires |xs| > 0
    ensures var s := SortAscending(xs);
      && multiset(s) == multiset(xs)
      && (forall k :: 0 <= k <= Rank(|xs|) ==> s[k] <= HistoricalVaR(xs))
      && (forall k :: Rank(|xs|) < k < |xs| ==> HistoricalVaR(xs) <= s[k])
  {
    PercentileSplitsAtRank(SortAscending(xs));
  }

  /** The value-at-risk lies between the worst and the best month. */
  lemma VaRWithinRange(xs: seq<real>)
    requires |xs| > 0
    ensures Min(xs) <= HistoricalVaR(xs) <= Max(xs)
  {
    var s := SortAscending(xs);
    var n := |s|;
    PercentileSplitsAtRank(s);
    assert s[0] in multiset(xs) && s[n - 1] in multiset(xs);
    assert s[0] in xs && s[n - 1] in xs;
  }

  /** The months at or below a threshold, `r[r <= v]`. */
  function AtOrBelow(xs: seq<real>, v: real): (r: seq<real>)
    ensures forall x :: x in r <==> x in xs && x <= v
  {
    Filter(xs, x => x <= v)
  }

  /** `Conditional Value-at-Risk (5%)`: the mean of the months at or below
      the value-at-risk, NaN when there is none. */
  function ExpectedShortfall(xs: seq<real>): Metric
    requires |xs| > 0
  {
    var tail := AtOrBelow(xs, HistoricalVaR(xs));
    if |tail| > 0 then Finite(Mean(tail)) else NaN
  }

  /** The expected shortfall is always present, no better than the
      value-at-risk and no worse than the worst month. */
  lemma ExpectedShortfallBounds(xs: seq<real>)
    requires |xs| > 0
    ensures ExpectedShortfall(xs).Finite?
    ensures Min(xs) <= ExpectedShortfall(xs).value <= HistoricalVaR(xs)
  {
    var v := HistoricalVaR(xs);
    VaRWithinRange(xs);
    var tail := AtOrBelow(xs, v);
    assert Min(xs) in tail;
    assert Max(tail) in tail;
    assert Min(tail) in tail;
  }
}
