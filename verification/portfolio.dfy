/** `calculate_portfolio_metrics`: input validation, price retrieval,
    alignment of the instruments' monthly returns, weighting, benchmark
    re-alignment and the report of metrics. */
module Portfolio {
  import opened Wrappers
  import opened Calendar
  import opened Series
  import opened Returns
  import opened Numbers
  import opened Statistics
  import opened Alignment
  import opened Drawdown
  import opened Periods
  import opened TailRisk
  import opened Ratios
  import opened Benchmark

  /** The three ways the analysis stops early. */
  datatype EngineError = InvalidAllocations | MissingData(ticker: string) | NoOverlap

  /** The `error` text the analysis returns. */
  function Message(e: EngineError): string {
    match e
    case InvalidAllocations => "Invalid allocations. Must sum to 100%"
    case MissingData(t) => "Could not get data for " + t
    case NoOverlap => "No overlapping data periods found"
  }

  /** Different errors read differently; in particular the message names
      the ticker that could not be fetched. */
  lemma MessageDistinguishes(e: EngineError, f: EngineError)
    ensures Message(e) == Message(f) <==> e == f
  {
    if e.MissingData? && f.MissingData? && Message(e) == Message(f) {
      var p := "Could not get data for ";
      assert e.ticker == Message(e)[|p|..];
      assert f.ticker == Message(f)[|p|..];
    } else if Message(e) == Message(f) {
      assert Message(e)[0] == Message(f)[0];
    }
  }

  /** Where prices come from: the closes of one ticker over the requested
      window, absent when the download fails. */
  type Source = string -> Option<seq<Quote>>

  /** Every price series the source delivers is well formed. */
  ghost predicate Trusted(fetch: Source) {
    forall t :: fetch(t).Some? ==> WellFormedPrices(fetch(t).value)
  }

  /** One allocation per ticker, summing to exactly 100. The individual
      allocations are not range-checked. */
  predicate ValidAllocations(tickers: seq<string>, allocations: seq<real>) {
    |tickers| == |allocations| && Sum(allocations) == 100.0
  }

  lemma ValidAllocationsNonEmpty(tickers: seq<string>, allocations: seq<real>)
    requires ValidAllocations(tickers, allocations)
    ensures |allocations| > 0
  {
  }

  predicate AllFetched(tickers: seq<string>, fetch: Source) {
    forall i :: 0 <= i < |tickers| ==> fetch(tickers[i]).Some?
  }

  /** The position at which the ticker-by-ticker download loop stops: the
      first ticker without data, or the end of the list. */
  function FirstMissing(tickers: seq<string>, fetch: Source): (i: nat)
    ensures i <= |tickers|
    ensures forall j :: 0 <= j < i ==> fetch(tickers[j]).Some?
    ensures i < |tickers| ==> fetch(tickers[i]).None?
  {
    if |tickers| == 0 || fetch(tickers[0]).None? then 0
    else 1 + FirstMissing(tickers[1..], fetch)
  }

  /** The loop runs to the end exactly when every ticker has data. */
  lemma FirstMissingIffAllFetched(tickers: seq<string>, fetch: Source)
    ensures FirstMissing(tickers, fetch) == |tickers| <==> AllFetched(tickers, fetch)
  {
  }

  /** `calculate_returns` of every ticker, in ticker order. */
  function TickerReturns(tickers: seq<string>, fetch: Source): (c: seq<seq<Observation>>)
    requires Trusted(fetch) && AllFetched(tickers, fetch)
    ensures |c| == |tickers|
    ensures forall k :: 0 <= k < |c| ==> c[k] == MonthlyReturns(fetch(tickers[k]).value)
    ensures forall k :: 0 <= k < |c| ==> Contiguous(c[k]) && Chronological(c[k])
    ensures forall k :: 0 <= k < |c| && |fetch(tickers[k]).value| > 0 ==>
      MonthsOf(c[k]) == QuoteMonths(fetch(tickers[k]).value) - {MonthOf(fetch(tickers[k]).value[0].date)}
  {
    seq(|tickers|, k requires 0 <= k < |tickers| => MonthlyReturns(fetch(tickers[k]).value))
  }

  /** Some month has a return in every column. */
  ghost predicate Overlap(columns: seq<seq<Observation>>) {
    exists mo :: InAll(columns, mo)
  }

  /** `returns_df.dot(weights)` after `dropna()`: the weighted sum of the
      instruments' returns over the months they all have. */
  function WeightedReturns(columns: seq<seq<Observation>>, allocations: seq<real>): (p: seq<Observation>)
    requires |columns| == |allocations| > 0
    requires forall k :: 0 <= k < |columns| ==> Chronological(columns[k])
    ensures |p| > 0 <==> Overlap(columns)
  {
    var rows := Align(columns);
    assert |rows| > 0 <==> Overlap(columns) by {
      if |rows| > 0 {
        assert rows[0].month in RowMonths(rows);
        assert InAll(columns, rows[0].month);
      } else {
        assert forall mo :: InAll(columns, mo) ==> mo in RowMonths(rows);
      }
    }
    Combine(rows, Weights(allocations))
  }

  /** The weighted series runs in order over exactly the months every
      instrument has, and each month's value is the allocation-weighted sum
      of the instruments' own returns for that month. */
  lemma WeightedReturnsMatch(columns: seq<seq<Observation>>, allocations: seq<real>)
    requires |columns| == |allocations| > 0
    requires forall k :: 0 <= k < |columns| ==> Chronological(columns[k])
    ensures var p := WeightedReturns(columns, allocations);
      && Chronological(p)
      && (forall mo :: mo in MonthsOf(p) <==> InAll(columns, mo))
      && (forall i :: 0 <= i < |p| ==> InAll(columns, p[i].month))
      && (forall i :: 0 <= i < |p| ==> p[i].value == Dot(Weights(allocations), RowAt(columns, p[i].month).values))
  {
    WeightedReturnsMonths(columns, allocations);
    WeightedReturnsValues(columns, allocations);
  }

  lemma WeightedReturnsMonths(columns: seq<seq<Observation>>, allocations: seq<real>)
    requires |columns| == |allocations| > 0
    requires forall k :: 0 <= k < |columns| ==> Chronological(columns[k])
    ensures var p := WeightedReturns(columns, allocations);
      && Chronological(p)
      && (forall mo :: mo in MonthsOf(p) <==> InAll(columns, mo))
  {
    var rows := Align(columns);
    var p := WeightedReturns(columns, allocations);
    assert |p| == |rows|;
    assert forall i :: 0 <= i < |p| ==> p[i].month == rows[i].month;
    forall mo
      ensures mo in MonthsOf(p) <==> mo in RowMonths(rows)
    {
      if mo in MonthsOf(p) {
        var i :| 0 <= i < |p| && p[i].month == mo;
        assert rows[i].month == mo;
      }
      if mo in RowMonths(rows) {
        var i :| 0 <= i < |rows| && rows[i].month == mo;
        assert p[i].month == mo;
      }
    }
  }

  lemma WeightedReturnsValues(columns: seq<seq<Observation>>, allocations: seq<real>)
    requires |columns| == |allocations| > 0
    requires forall k :: 0 <= k < |columns| ==> Chronological(columns[k])
    ensures var p := WeightedReturns(columns, allocations);
      && (forall i :: 0 <= i < |p| ==> InAll(columns, p[i].month))
      && (forall i :: 0 <= i < |p| ==> p[i].value == Dot(Weights(allocations), RowAt(columns, p[i].month).values))
  {
    var rows := Align(columns);
    var p := WeightedReturns(columns, allocations);
    forall i | 0 <= i < |p|
      ensures InAll(columns, p[i].month)
      ensures p[i].value == Dot(Weights(allocations), RowAt(columns, p[i].month).values)
    {
      assert p[i].month == rows[i].month;
      var r := RowAt(columns, rows[i].month);
      assert rows[i].values == r.values;
    }
  }

  /** When no instrument's series has a gap, neither has the weighted one. */
  lemma WeightedReturnsContiguous(columns: seq<seq<Observation>>, allocations: seq<real>)
    requires |columns| == |allocations| > 0
    requires forall k :: 0 <= k < |columns| ==> Chronological(columns[k]) && Contiguous(columns[k])
    ensures Contiguous(WeightedReturns(columns, allocations))
  {
    AlignContiguous(columns);
    WeightedReturnsMatch(columns, allocations);
    var rows := Align(columns);
    var p := WeightedReturns(columns, allocations);
    assert forall i :: 0 <= i < |p| ==> p[i].month == rows[i].month;
  }

  /** The benchmark step: a benchmark is looked up only for a non-empty
      ticker; when its prices cannot be had, or they share no month with
      the portfolio, the analysis goes on without it. */
  function AttachBenchmark(portfolio: seq<Observation>, benchmark: Option<string>, fetch: Source): (a: Aligned)
    requires Trusted(fetch) && Chronological(portfolio)
    ensures a.benchmark.None? ==> a.portfolio == portfolio
    ensures a.benchmark.Some? <==>
      && benchmark.Some? && benchmark.value != "" && fetch(benchmark.value).Some?
      && MonthsOf(portfolio) * MonthsOf(MonthlyReturns(fetch(benchmark.value).value)) != {}
  {
    if benchmark.Some? && benchmark.value != "" && fetch(benchmark.value).Some? then
      WithBenchmark(portfolio, MonthlyReturns(fetch(benchmark.value).value))
    else
      Aligned(portfolio, None)
  }

  /** The benchmark survives to the report: a non-empty ticker was given,
      its prices were fetched, and some month is common to every instrument
      and the benchmark. */
  ghost predicate BenchmarkShared(tickers: seq<string>, benchmark: Option<string>, fetch: Source)
    requires Trusted(fetch) && AllFetched(tickers, fetch)
  {
    && benchmark.Some? && benchmark.value != "" && fetch(benchmark.value).Some?
    && exists mo :: InAll(TickerReturns(tickers, fetch), mo) && mo in MonthsOf(MonthlyReturns(fetch(benchmark.value).value))
  }

  /** The return series the metrics are computed on, or the error that
      stops the analysis. Allocations are checked before anything is
      fetched; tickers are fetched in order and the first without data is
      reported; an empty inner join is an error of its own. */
  function AnalysedReturns(tickers: seq<string>, allocations: seq<real>, benchmark: Option<string>, fetch: Source): (r: Result<Aligned, EngineError>)
    requires Trusted(fetch)
    ensures r == Failure(InvalidAllocations) <==> !ValidAllocations(tickers, allocations)
    ensures r.Failure? && r.error.MissingData? <==> ValidAllocations(tickers, allocations) && !AllFetched(tickers, fetch)
    ensures r.Failure? && r.error.MissingData? ==>
      exists i :: 0 <= i < |tickers| && r.error.ticker == tickers[i] && fetch(tickers[i]).None? && AllFetched(tickers[..i], fetch)
    ensures r == Failure(NoOverlap) <==>
      ValidAllocations(tickers, allocations) && AllFetched(tickers, fetch) && !Overlap(TickerReturns(tickers, fetch))
    ensures r.Success? ==> |r.value.portfolio| > 0 && Chronological(r.value.portfolio)
    ensures r.Success? && r.value.benchmark.Some? ==> |r.value.benchmark.value| == |r.value.portfolio|
    ensures r.Success? ==> AllFetched(tickers, fetch) && (r.value.benchmark.Some? <==> BenchmarkShared(tickers, benchmark, fetch))
  {
    if !ValidAllocations(tickers, allocations) then Failure(InvalidAllocations)
    else
      var i := FirstMissing(tickers, fetch);
      FirstMissingIffAllFetched(tickers, fetch);
      if i < |tickers| then
        assert AllFetched(tickers[..i], fetch);
        Failure(MissingData(tickers[i]))
      else
        var columns := TickerReturns(tickers, fetch);
        var p := WeightedReturns(columns, allocations);
        if |p| == 0 then Failure(NoOverlap)
        else
          WeightedReturnsMatch(columns, allocations);
          var a := AttachBenchmark(p, benchmark, fetch);
          assert a.benchmark.Some? <==> BenchmarkShared(tickers, benchmark, fetch) by {
            if benchmark.Some? && benchmark.value != "" && fetch(benchmark.value).Some? {
              var b := MonthlyReturns(fetch(benchmark.value).value);
              if mo :| mo in MonthsOf(p) * MonthsOf(b) {
                assert InAll(columns, mo) && mo in MonthsOf(b);
              }
              if mo :| InAll(columns, mo) && mo in MonthsOf(b) {
                assert mo in MonthsOf(p) * MonthsOf(b);
              }
            }
          }
          assert a.benchmark.Some? ==> Chronological(a.portfolio) && |a.portfolio| > 0 by {
            if a.benchmark.Some? {
              WithBenchmarkRestricts(p, MonthlyReturns(fetch(benchmark.value).value));
            }
          }
          Success(a)
  }

  /** Whatever survives to the report runs over consecutive months: the
      weighted portfolio has no gap, and re-alignment with a gap-free
      benchmark does not open one. */
  lemma ReportedSeriesContiguous(tickers: seq<string>, allocations: seq<real>, benchmark: Option<string>, fetch: Source)
    requires Trusted(fetch)
    requires AnalysedReturns(tickers, allocations, benchmark, fetch).Success?
    ensures Contiguous(AnalysedReturns(tickers, allocations, benchmark, fetch).value.portfolio)
  {
    FirstMissingIffAllFetched(tickers, fetch);
    var columns := TickerReturns(tickers, fetch);
    WeightedReturnsContiguous(columns, allocations);
    var p := WeightedReturns(columns, allocations);
    WeightedReturnsMatch(columns, allocations);
    if benchmark.Some? && benchmark.value != "" && fetch(benchmark.value).Some? {
      WithBenchmarkContiguous(p, MonthlyReturns(fetch(benchmark.value).value));
    }
  }

  /** The yearly table of the report covers every calendar year from the
      first reported month to the last, with no year missing, and the best
      and worst year are taken over that whole range. */
  lemma ReportedYearsSpan(tickers: seq<string>, allocations: seq<real>, benchmark: Option<string>, fetch: Source)
    requires Trusted(fetch)
    requires AnalysedReturns(tickers, allocations, benchmark, fetch).Success?
    ensures var s := AnalysedReturns(tickers, allocations, benchmark, fetch).value.portfolio;
      Chronological(s) && |s| > 0 &&
      (forall y :: y in YearSet(YearlyReturns(s)) <==> s[0].month.year <= y <= s[|s| - 1].month.year) &&
      BestYear(s).Some? && WorstYear(s).Some? &&
      (forall y :: s[0].month.year <= y <= s[|s| - 1].month.year ==>
        WorstYear(s).value <= CalendarYearReturn(s, y) <= BestYear(s).value)
  {
    var s := AnalysedReturns(tickers, allocations, benchmark, fetch).value.portfolio;
    ReportedSeriesContiguous(tickers, allocations, benchmark, fetch);
    YearlyReturnsSpan(s);
    BestAndWorstYearOverSpan(s);
  }

  /** The reported portfolio series: every month is one that all
      instruments (and the benchmark, when one is attached) have; without a
      benchmark it is every such month; and each value is the
      allocation-weighted sum of the instruments' returns for that month. */
  lemma ReportedSeriesMatch(tickers: seq<string>, allocations: seq<real>, benchmark: Option<string>, fetch: Source)
    requires Trusted(fetch)
    requires AnalysedReturns(tickers, allocations, benchmark, fetch).Success?
    ensures AllFetched(tickers, fetch) && |tickers| == |allocations|
    ensures var a := AnalysedReturns(tickers, allocations, benchmark, fetch).value;
      var columns := TickerReturns(tickers, fetch);
      && (forall i :: 0 <= i < |a.portfolio| ==> InAll(columns, a.portfolio[i].month))
      && (forall i :: 0 <= i < |a.portfolio| ==>
            a.portfolio[i].value == Dot(Weights(allocations), RowAt(columns, a.portfolio[i].month).values))
      && (a.benchmark.None? ==> forall mo :: mo in MonthsOf(a.portfolio) <==> InAll(columns, mo))
      && (a.benchmark.Some? ==> forall mo :: mo in MonthsOf(a.portfolio) <==>
            InAll(columns, mo) && mo in MonthsOf(MonthlyReturns(fetch(benchmark.value).value)))
  {
    FirstMissingIffAllFetched(tickers, fetch);
    var columns := TickerReturns(tickers, fetch);
    var p := WeightedReturns(columns, allocations);
    WeightedReturnsMatch(columns, allocations);
    var a := AnalysedReturns(tickers, allocations, benchmark, fetch).value;
    if a.benchmark.Some? {
      var b := MonthlyReturns(fetch(benchmark.value).value);
      WithBenchmarkRestricts(p, b);
      forall i | 0 <= i < |a.portfolio|
        ensures InAll(columns, a.portfolio[i].month)
        ensures a.portfolio[i].value == Dot(Weights(allocations), RowAt(columns, a.portfolio[i].month).values)
      {
        var mo := a.portfolio[i].month;
        var j := LookupIndex(p, mo, a.portfolio[i].value);
      }
    }
  }

  /** A month the series has, found by `Lookup`, sits at an index whose
      entry carries that month and value. */
  lemma LookupIndex(s: seq<Observation>, mo: Month, v: real) returns (j: int)
    requires Lookup(s, mo) == Some(v)
    ensures 0 <= j < |s| && s[j].month == mo && s[j].value == v
  {
    if s[0].month == mo {
      j := 0;
    } else {
      var k := LookupIndex(s[1..], mo, v);
      j := k + 1;
    }
  }

  /** When a benchmark is attached, the two series are paired month by
      month and the benchmark's values are its own monthly returns. */
  lemma ReportedBenchmarkMatch(tickers: seq<string>, allocations: seq<real>, benchmark: Option<string>, fetch: Source)
    requires Trusted(fetch)
    requires AnalysedReturns(tickers, allocations, benchmark, fetch).Success?
    ensures var a := AnalysedReturns(tickers, allocations, benchmark, fetch).value;
      a.benchmark.Some? ==>
        && benchmark.Some? && fetch(benchmark.value).Some?
        && (forall i :: 0 <= i < |a.portfolio| ==> a.portfolio[i].month == a.benchmark.value[i].month)
        && (forall i :: 0 <= i < |a.portfolio| ==>
              Lookup(MonthlyReturns(fetch(benchmark.value).value), a.portfolio[i].month) == Some(a.benchmark.value[i].value))
  {
    FirstMissingIffAllFetched(tickers, fetch);
    var columns := TickerReturns(tickers, fetch);
    var p := WeightedReturns(columns, allocations);
    WeightedReturnsMatch(columns, allocations);
    var a := AnalysedReturns(tickers, allocations, benchmark, fetch).value;
    if a.benchmark.Some? {
      WithBenchmarkRestricts(p, MonthlyReturns(fetch(benchmark.value).value));
    }
  }

  /** One ticker at 100% and no benchmark: the analysis runs on that
      ticker's own monthly returns, and fails only when the ticker cannot be
      fetched or has fewer than two months of prices. */
  lemma SingleTicker(t: string, fetch: Source)
    requires Trusted(fetch)
    ensures var r := AnalysedReturns([t], [100.0], None, fetch);
      && (fetch(t).None? ==> r == Failure(MissingData(t)))
      && (fetch(t).Some? && |MonthlyReturns(fetch(t).value)| == 0 ==> r == Failure(NoOverlap))
      && (fetch(t).Some? && |MonthlyReturns(fetch(t).value)| > 0 ==>
            r == Success(Aligned(MonthlyReturns(fetch(t).value), None)))
  {
    if fetch(t).Some? {
      var c := MonthlyReturns(fetch(t).value);
      var columns := TickerReturns([t], fetch);
      assert columns == [c];
      SingleInstrumentPortfolio(c);
    }
  }

  /** The benchmark-relative metrics. */
  datatype Relative = Relative(
    beta: Metric,
    alpha: Option<real>,
    treynor: Metric,
    activeReturn: real,
    upsideCapture: Option<real>,
    downsideCapture: Option<real>)

  /** The benchmark-relative block of the report, on the re-aligned pair.
      Alpha is present exactly when beta is a number, Treynor is NaN exactly
      when beta is NaN or zero, and each capture ratio is present exactly
      when the benchmark has a month moving that way. */
  function Compare(p: seq<real>, b: seq<real>): (v: Relative)
    requires |p| == |b| > 0
    ensures v.alpha.Some? <==> v.beta.Finite?
    ensures v.treynor.NaN? <==> v.beta.NaN? || v.beta == Finite(0.0)
    ensures v.upsideCapture.Some? <==> exists i :: 0 <= i < |b| && b[i] > 0.0
    ensures v.downsideCapture.Some? <==> exists i :: 0 <= i < |b| && b[i] < 0.0
  {
    CapturePresence(p, b);
    Relative(Beta(p, b), Alpha(p, b), Treynor(p, b), ActiveReturn(p, b), UpsideCapture(p, b), DownsideCapture(p, b))
  }

  /** The report of metrics on one return series. */
  datatype Report = Report(
    meanMonthly: real,
    meanAnnual: real,
    stdMonthly: Metric,
    stdAnnual: Metric,
    downsideMonthly: Metric,
    downsideAnnual: Metric,
    maxDrawdown: Metric,
    bestMonth: real,
    worstMonth: real,
    bestYear: Option<real>,
    worstYear: Option<real>,
    sharpeMonthly: Metric,
    sharpeAnnual: Metric,
    sortinoMonthly: Metric,
    sortinoAnnual: Metric,
    calmar: Metric,
    historicalVaR: real,
    conditionalVaR: Metric,
    positivePeriods: nat,
    positivePercent: real,
    gainLoss: Metric,
    versus: Option<Relative>)

  /** The metrics of the analysed series. The figures are mutually
      consistent: the mean, the value-at-risk and the expected shortfall lie
      between the worst and the best month, the expected shortfall is no
      better than the value-at-risk, the worst year is no better than the
      best, and the benchmark block is there exactly when a benchmark
      survived re-alignment. */
  function Measure(a: Aligned, num: Numerics): (rep: Report)
    requires |a.portfolio| > 0 && Chronological(a.portfolio)
    requires a.benchmark.Some? ==> |a.benchmark.value| == |a.portfolio|
    ensures rep.worstMonth <= rep.meanMonthly <= rep.bestMonth
    ensures rep.worstMonth <= rep.historicalVaR <= rep.bestMonth
    ensures rep.conditionalVaR.Finite? && rep.worstMonth <= rep.conditionalVaR.value <= rep.historicalVaR
    ensures rep.positivePeriods <= |a.portfolio| && 0.0 <= rep.positivePercent <= 100.0
    ensures rep.bestYear.Some? && rep.worstYear.Some? && rep.worstYear.value <= rep.bestYear.value
    ensures rep.versus.Some? <==> a.benchmark.Some?
  {
    var xs := Values(a.portfolio);
    VaRWithinRange(xs);
    ExpectedShortfallBounds(xs);
    BestAndWorstYear(a.portfolio);
    YearRange(a.portfolio);
    var std := StdDev(xs, num.sqrt);
    var down := DownsideDeviation(xs, num);
    Report(
      Mean(xs), AnnualMean(xs),
      std, Annualised(std, num),
      down, Annualised(down, num),
      MaxDrawdown(xs),
      Max(xs), Min(xs),
      BestYear(a.portfolio), WorstYear(a.portfolio),
      SharpeMonthly(xs, num), SharpeAnnual(xs, num),
      SortinoMonthly(xs, num), SortinoAnnual(xs, num),
      Calmar(xs),
      HistoricalVaR(xs), ExpectedShortfall(xs),
      PositivePeriods(xs), PositivePercent(xs), GainLossRatio(xs),
      if a.benchmark.Some? then Some(Compare(xs, Values(a.benchmark.value))) else None)
  }

  lemma YearRange(s: seq<Observation>)
    requires Chronological(s) && |s| > 0
    ensures BestYear(s).Some? && WorstYear(s).Some? && WorstYear(s).value <= BestYear(s).value
  {
    BestAndWorstYear(s);
    var v := YearValues(YearlyReturns(s));
    assert Min(v) <= v[0] <= Max(v);
  }

  /** `calculate_portfolio_metrics`: the report, or the error that stopped
      the analysis. */
  function Analyse(tickers: seq<string>, allocations: seq<real>, benchmark: Option<string>, fetch: Source, num: Numerics): (r: Result<Report, EngineError>)
    requires Trusted(fetch)
    ensures r == Failure(InvalidAllocations) <==> !ValidAllocations(tickers, allocations)
    ensures r.Success? <==>
      ValidAllocations(tickers, allocations) && AllFetched(tickers, fetch) && Overlap(TickerReturns(tickers, fetch))
    ensures r.Success? ==> (r.value.versus.Some? <==> BenchmarkShared(tickers, benchmark, fetch))
  {
    var a :- AnalysedReturns(tickers, allocations, benchmark, fetch);
    Success(Measure(a, num))
  }
}
