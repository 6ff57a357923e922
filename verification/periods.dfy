/** Best and worst months and calendar years, and the win/loss counts of
    the metrics report. */
module Periods {
  import opened Numbers
  import opened Statistics
  import opened Compounding
  import opened Calendar
  import opened Series
  import opened Wrappers

  /** One calendar year's compounded return. */
  datatype YearReturn = YearReturn(year: int, value: real)

  function YearsOf(s: seq<Observation>): set<int> {
    set i | 0 <= i < |s| :: s[i].month.year
  }

  function YearSet(ys: seq<YearReturn>): set<int> {
    set k | 0 <= k < |ys| :: ys[k].year
  }

  /** The returns of the months of year `y`, in order. */
  function InYear(s: seq<Observation>, y: int): (r: seq<real>)
    ensures |r| <= |s|
  {
    if |s| == 0 then []
    else (if s[0].month.year == y then [s[0].value] else []) + InYear(s[1..], y)
  }

  /** `(1 + x) * (1 + r) - 1`: a month's return `x` followed by a run
      whose compounded return is `r`. */
  function Chain(x: real, r: real): real {
    (1.0 + x) * (1.0 + r) - 1.0
  }

  /** `groupby(pd.Grouper(freq='Y')).apply(lambda x: (1 + x).prod() - 1)`:
      one entry per calendar year present, in order. The grouper also bins
      a calendar year with no month at all (value 0.0); a gap-free series
      has no such year (`ContiguousYearsSpan`), and the analysed series is
      always gap-free. */
  function YearlyReturns(s: seq<Observation>): (ys: seq<YearReturn>)
    requires Chronological(s)
    ensures |ys| <= |s|
    ensures |ys| == 0 <==> |s| == 0
    ensures |ys| > 0 ==> ys[0].year == s[0].month.year
    ensures forall k, l :: 0 <= k < l < |ys| ==> ys[k].year < ys[l].year
  {
    if |s| == 0 then []
    else
      var rest := YearlyReturns(s[1..]);
      var y := s[0].month.year;
      FirstYearEarliest(s);
      if |rest| > 0 && rest[0].year == y then
        [YearReturn(y, Chain(s[0].value, rest[0].value))] + rest[1..]
      else
        [YearReturn(y, s[0].value)] + rest
  }

  /** The years reported are exactly the years the series has entries
      in. */
  lemma {:induction false} YearlyReturnsYears(s: seq<Observation>)
    requires Chronological(s)
    ensures YearSet(YearlyReturns(s)) == YearsOf(s)
  {
    if |s| > 0 {
      YearlyReturnsYears(s[1..]);
      YearsOfCons(s);
      var rest := YearlyReturns(s[1..]);
      var ys := YearlyReturns(s);
      YearSetHead(ys);
      if |rest| > 0 && rest[0].year == s[0].month.year {
        YearSetHead(rest);
        assert ys[1..] == rest[1..];
      } else {
        assert ys[1..] == rest;
      }
    }
  }

  /** No entry of a chronological series falls in a year before the
      first entry's. */
  lemma FirstYearEarliest(s: seq<Observation>)
    requires Chronological(s) && |s| > 0
    ensures forall i :: 0 <= i < |s| ==> s[0].month.year <= s[i].month.year
  {
    forall i | 0 < i < |s|
      ensures s[0].month.year <= s[i].month.year
    {
      IndexOrdersYears(s[0].month, s[i].month);
    }
  }

  lemma YearsOfCons(s: seq<Observation>)
    requires |s| > 0
    ensures YearsOf(s) == {s[0].month.year} + YearsOf(s[1..])
  {
    forall y | y in YearsOf(s)
      ensures y in {s[0].month.year} + YearsOf(s[1..])
    {
      var i :| 0 <= i < |s| && s[i].month.year == y;
      if i > 0 {
        assert s[1..][i - 1] == s[i];
      }
    }
    forall y | y in YearsOf(s[1..])
      ensures y in YearsOf(s)
    {
      var i :| 0 <= i < |s[1..]| && s[1..][i].month.year == y;
      assert s[i + 1].month.year == y;
    }
    assert s[0].month.year in YearsOf(s);
  }

  lemma YearSetHead(ys: seq<YearReturn>)
    requires |ys| > 0
    ensures YearSet(ys) == {ys[0].year} + YearSet(ys[1..])
  {
    forall y | y in YearSet(ys)
      ensures y in {ys[0].year} + YearSet(ys[1..])
    {
      var k :| 0 <= k < |ys| && ys[k].year == y;
      if k > 0 {
        assert ys[1..][k - 1] == ys[k];
      }
    }
    forall y | y in YearSet(ys[1..])
      ensures y in YearSet(ys)
    {
      var k :| 0 <= k < |ys[1..]| && ys[1..][k].year == y;
      assert ys[k + 1].year == y;
    }
    assert ys[0].year in YearSet(ys);
  }

  lemma {:induction false} InYearAbsent(s: seq<Observation>, y: int)
    requires forall i :: 0 <= i < |s| ==> s[i].month.year != y
    ensures InYear(s, y) == []
  {
    if |s| > 0 {
      InYearAbsent(s[1..], y);
    }
  }

  lemma ChainOfGrowth(x: real, r: seq<real>)
    ensures Chain(x, Growth(r) - 1.0) == Growth([x] + r) - 1.0
  {
    GrowthCons(x, r);
  }

  /** Every year's entry is the compounded return of that year's months. */
  predicate Compounded(s: seq<Observation>, ys: seq<YearReturn>) {
    forall k :: 0 <= k < |ys| ==> ys[k].value == Growth(InYear(s, ys[k].year)) - 1.0
  }

  /** Each calendar year's entry is the compounded return of exactly the
      months of that year: `(1 + x).prod() - 1` over the year's group. */
  lemma {:induction false} YearlyReturnIsCompounded(s: seq<Observation>)
    requires Chronological(s)
    ensures Compounded(s, YearlyReturns(s))
  {
    if |s| > 0 {
      YearlyReturnIsCompounded(s[1..]);
      var rest := YearlyReturns(s[1..]);
      if |rest| > 0 && rest[0].year == s[0].month.year {
        SameYearStep(s, rest);
      } else {
        NewYearStep(s);
      }
    }
  }

  /** Entries for years other than the first month's are unaffected by
      putting that month in front. */
  lemma CompoundedSkip(s: seq<Observation>, zs: seq<YearReturn>)
    requires |s| > 0 && Compounded(s[1..], zs)
    requires forall k :: 0 <= k < |zs| ==> zs[k].year != s[0].month.year
    ensures Compounded(s, zs)
  {
    forall k | 0 <= k < |zs|
      ensures zs[k].value == Growth(InYear(s, zs[k].year)) - 1.0
    {
      assert InYear(s, zs[k].year) == InYear(s[1..], zs[k].year);
    }
  }

  lemma CompoundedCons(s: seq<Observation>, z: YearReturn, zs: seq<YearReturn>)
    requires z.value == Growth(InYear(s, z.year)) - 1.0
    requires Compounded(s, zs)
    ensures Compounded(s, [z] + zs)
  {
    assert forall k :: 1 <= k < |zs| + 1 ==> ([z] + zs)[k] == zs[k - 1];
  }

  /** The first month joins the year of the entries after it. */
  lemma SameYearStep(s: seq<Observation>, rest: seq<YearReturn>)
    requires |s| > 0 && |rest| > 0 && rest[0].year == s[0].month.year
    requires forall k :: 0 < k < |rest| ==> rest[k].year != rest[0].year
    requires Compounded(s[1..], rest)
    ensures Compounded(s, [YearReturn(rest[0].year, Chain(s[0].value, rest[0].value))] + rest[1..])
  {
    var tail := s[1..];
    var y := s[0].month.year;
    var x := s[0].value;
    assert InYear(s, y) == [x] + InYear(tail, y);
    ChainOfGrowth(x, InYear(tail, y));
    var later := rest[1..];
    assert Compounded(tail, later);
    CompoundedSkip(s, later);
    CompoundedCons(s, YearReturn(y, Chain(x, rest[0].value)), later);
  }

  /** The first month opens a year of its own. */
  lemma NewYearStep(s: seq<Observation>)
    requires Chronological(s) && |s| > 0
    requires var rest := YearlyReturns(s[1..]); !(|rest| > 0 && rest[0].year == s[0].month.year)
    requires Compounded(s[1..], YearlyReturns(s[1..]))
    ensures Compounded(s, YearlyReturns(s))
  {
    var tail := s[1..];
    var rest := YearlyReturns(tail);
    var y := s[0].month.year;
    var x := s[0].value;
    FirstYearEarliest(s);
    if |rest| > 0 {
      FirstYearEarliest(tail);
    }
    InYearAbsent(tail, y);
    assert InYear(s, y) == [x];
    GrowthSingle(x);
    CompoundedSkip(s, rest);
    CompoundedCons(s, YearReturn(y, x), rest);
  }

  function YearValues(ys: seq<YearReturn>): (v: seq<real>)
    ensures |v| == |ys|
    ensures forall k :: 0 <= k < |ys| ==> v[k] == ys[k].value
  {
    seq(|ys|, k requires 0 <= k < |ys| => ys[k].value)
  }

  /** A gap-free series touches every calendar year from its first month's
      year to its last month's, and no other: the years a yearly grouper
      bins it into. */
  lemma ContiguousYearsSpan(s: seq<Observation>)
    requires Contiguous(s) && |s| > 0
    ensures forall y :: y in YearsOf(s) <==> s[0].month.year <= y <= s[|s| - 1].month.year
  {
    ContiguousIsChronological(s);
    var first := s[0].month;
    var last := s[|s| - 1].month;
    forall y | y in YearsOf(s)
      ensures first.year <= y <= last.year
    {
      var i :| 0 <= i < |s| && s[i].month.year == y;
      if 0 < i {
        IndexOrdersYears(first, s[i].month);
      }
      if i < |s| - 1 {
        IndexOrdersYears(s[i].month, last);
      }
    }
    forall y | first.year <= y <= last.year
      ensures y in YearsOf(s)
    {
      var m := if y == first.year then first else if y == last.year then last else Month(y, 1);
      if first.year < y < last.year {
        assert Index(first) < 12 * y <= Index(m) < 12 * (y + 1) <= Index(last);
      } else if y == last.year && y != first.year {
        assert Index(first) < 12 * y <= Index(m);
      }
      ContiguousHasEveryMonth(s, m);
      var i :| 0 <= i < |s| && s[i].month == m;
      assert s[i].month.year == y;
    }
  }

  /** On a gap-free series the yearly entries are exactly the years from
      the first month's to the last month's, with no year skipped. */
  lemma YearlyReturnsSpan(s: seq<Observation>)
    requires Contiguous(s) && |s| > 0
    ensures Chronological(s)
    ensures forall y :: y in YearSet(YearlyReturns(s)) <==> s[0].month.year <= y <= s[|s| - 1].month.year
  {
    ContiguousIsChronological(s);
    YearlyReturnsYears(s);
    ContiguousYearsSpan(s);
  }

  /** `Best Year`: reported only when there is at least one year. */
  function BestYear(s: seq<Observation>): Option<real>
    requires Chronological(s)
  {
    var ys := YearlyReturns(s);
    if |ys| > 0 then Some(Max(YearValues(ys))) else None
  }

  /** `Worst Year`: reported only when there is at least one year. */
  function WorstYear(s: seq<Observation>): Option<real>
    requires Chronological(s)
  {
    var ys := YearlyReturns(s);
    if |ys| > 0 then Some(Min(YearValues(ys))) else None
  }

  /** The compounded return of calendar year y. */
  function CalendarYearReturn(s: seq<Observation>, y: int): real {
    Growth(InYear(s, y)) - 1.0
  }

  /** Every year the series touches has its entry, holding that year's
      compounded return. */
  lemma YearEntry(s: seq<Observation>, y: int) returns (k: int)
    requires Chronological(s) && y in YearsOf(s)
    ensures 0 <= k < |YearlyReturns(s)|
    ensures YearlyReturns(s)[k].year == y
    ensures YearlyReturns(s)[k].value == CalendarYearReturn(s, y)
  {
    var ys := YearlyReturns(s);
    YearlyReturnsYears(s);
    YearlyReturnIsCompounded(s);
    k :| 0 <= k < |ys| && ys[k].year == y;
  }

  /** The best and worst years are the largest and smallest compounded
      calendar-year returns over the years the series touches; both are
      present exactly when the series is non-empty. Partial first and last
      years count like full ones. */
  lemma BestAndWorstYear(s: seq<Observation>)
    requires Chronological(s)
    ensures BestYear(s).Some? <==> |s| > 0
    ensures WorstYear(s).Some? <==> |s| > 0
    ensures BestYear(s).Some? ==>
      && (forall y :: y in YearsOf(s) ==> CalendarYearReturn(s, y) <= BestYear(s).value)
      && (exists y :: y in YearsOf(s) && CalendarYearReturn(s, y) == BestYear(s).value)
    ensures WorstYear(s).Some? ==>
      && (forall y :: y in YearsOf(s) ==> WorstYear(s).value <= CalendarYearReturn(s, y))
      && (exists y :: y in YearsOf(s) && CalendarYearReturn(s, y) == WorstYear(s).value)
  {
    var ys := YearlyReturns(s);
    if |ys| > 0 {
      var v := YearValues(ys);
      YearlyReturnsYears(s);
      YearlyReturnIsCompounded(s);
      forall y | y in YearsOf(s)
        ensures Min(v) <= CalendarYearReturn(s, y) <= Max(v)
      {
        var k := YearEntry(s, y);
      }
      var kb :| 0 <= kb < |v| && v[kb] == Max(v);
      assert ys[kb].year in YearSet(ys);
      var kw :| 0 <= kw < |v| && v[kw] == Min(v);
      assert ys[kw].year in YearSet(ys);
    }
  }

  /** On a gap-free series the best and worst years range over every
      calendar year from the first month's to the last month's, the years
      the yearly grouper reports. */
  lemma BestAndWorstYearOverSpan(s: seq<Observation>)
    requires Contiguous(s) && |s| > 0
    ensures Chronological(s)
    ensures BestYear(s).Some? && WorstYear(s).Some?
    ensures forall y :: s[0].month.year <= y <= s[|s| - 1].month.year ==>
      WorstYear(s).value <= CalendarYearReturn(s, y) <= BestYear(s).value
    ensures exists y :: s[0].month.year <= y <= s[|s| - 1].month.year && CalendarYearReturn(s, y) == BestYear(s).value
    ensures exists y :: s[0].month.year <= y <= s[|s| - 1].month.year && CalendarYearReturn(s, y) == WorstYear(s).value
  {
    ContiguousIsChronological(s);
    BestAndWorstYear(s);
    ContiguousYearsSpan(s);
  }

  /** `(portfolio_returns > 0).sum()`. */
  function PositivePeriods(xs: seq<real>): (n: nat)
    ensures n <= |xs|
  {
    |Gains(xs)|
  }

  /** `Positive Periods (%)`: the share of months with a positive return,
      zero for an empty series. */
  function PositivePercent(xs: seq<real>): (p: real)
    ensures 0.0 <= p <= 100.0
  {
    if |xs| > 0 then
      DivideBounds(PositivePeriods(xs) as real, |xs| as real, 0.0, 1.0);
      (PositivePeriods(xs) as real / |xs| as real) * 100.0
    else 0.0
  }

  /** The percentage is 100 exactly when every month gains and 0 exactly
      when none does. */
  lemma PositivePercentExtremes(xs: seq<real>)
    ensures |xs| > 0 ==> (PositivePercent(xs) == 100.0 <==> forall i :: 0 <= i < |xs| ==> xs[i] > 0.0)
    ensures PositivePercent(xs) == 0.0 <==> forall i :: 0 <= i < |xs| ==> xs[i] <= 0.0
  {
    GainsCount(xs);
    if |xs| > 0 {
      Percent(PositivePeriods(xs) as real, |xs| as real);
    }
  }

  lemma Percent(n: real, d: real)
    requires d > 0.0
    ensures n / d * 100.0 == 100.0 <==> n == d
    ensures n / d * 100.0 == 0.0 <==> n == 0.0
  {
    assert n / d * d == n;
  }

  /** The average positive month, 0 when there is none. */
  function AverageGain(xs: seq<real>): (g: real)
    ensures g >= 0.0
    ensures g > 0.0 <==> |Gains(xs)| > 0
  {
    var gains := Gains(xs);
    if |gains| > 0 then
      assert Min(gains) in gains;
      Mean(gains)
    else 0.0
  }

  /** The size of the average negative month, 0 when there is none. */
  function AverageLoss(xs: seq<real>): (l: real)
    ensures l >= 0.0
    ensures l > 0.0 <==> |Losses(xs)| > 0
  {
    var losses := Losses(xs);
    if |losses| > 0 then
      assert Max(losses) in losses;
      var m := Mean(losses);
      if m < 0.0 then -m else m
    else 0.0
  }

  /** `Gain/Loss Ratio`: average gain over average loss, `+inf` when the
      average loss is not positive. */
  function GainLossRatio(xs: seq<real>): Metric {
    var loss := AverageLoss(xs);
    if loss > 0.0 then Finite(AverageGain(xs) / loss) else PosInf
  }

  lemma ZeroQuotient(a: real, b: real)
    requires a >= 0.0 && b > 0.0
    ensures a / b >= 0.0
    ensures a / b == 0.0 <==> a == 0.0
  {
    assert a / b * b == a;
  }

  /** The ratio is `+inf` exactly when no month loses; otherwise it is
      finite, non-negative, and zero exactly when no month gains. */
  lemma GainLossRatioCases(xs: seq<real>)
    ensures GainLossRatio(xs).PosInf? <==> forall i :: 0 <= i < |xs| ==> xs[i] >= 0.0
    ensures !GainLossRatio(xs).PosInf? ==> GainLossRatio(xs).Finite? && GainLossRatio(xs).value >= 0.0
    ensures !GainLossRatio(xs).PosInf? ==>
      (GainLossRatio(xs).value == 0.0 <==> forall i :: 0 <= i < |xs| ==> xs[i] <= 0.0)
  {
    GainsCount(xs);
    LossesCount(xs);
    var loss := AverageLoss(xs);
    if loss > 0.0 {
      ZeroQuotient(AverageGain(xs), loss);
    }
  }
}
