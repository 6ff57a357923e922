# Portfolio analysis engine — a Dafny model

This project models the computational core of a small portfolio-analysis web
application. That core is `calculate_returns` and `calculate_portfolio_metrics`
in `Python_LAB/app.py`, and the project proves properties of the model.

The application takes:
- a list of tickers;
- percentage allocations;
- a date window;
- an optional benchmark ticker.

From these it:
1. checks the allocations;
2. downloads each ticker's daily closes;
3. turns them into monthly returns (last close of each calendar month, percentage change, first month dropped);
4. keeps the months every ticker has (an inner join);
5. weights the instruments into one portfolio return series;
6. optionally re-aligns that series with the benchmark's returns;
7. reports a set of metrics.

The metrics are:
- mean and annualised mean;
- standard and downside deviation;
- maximum drawdown;
- best and worst month and calendar year;
- Sharpe, Sortino and Calmar ratios;
- historical value-at-risk and expected shortfall at 5%;
- win/loss statistics;
- against a benchmark: beta, alpha, Treynor ratio, active return and the up/down capture ratios.

Values are Dafny `real`s. Results that the floating-point code can turn into
infinities or NaN are a `Metric` (`Finite(v) | PosInf | NegInf | NaN`). Report
keys that may be absent are `Option`s. Months are `(year, month)` keys, which
is what `resample('M')` aligns series on. The price source is a parameter
(`Portfolio.Source`), and so are the host square root and the monthly
risk-free rate (`Ratios.Numerics`).

Modules, one per file:

| file | module | models |
|---|---|---|
| wrappers.dfy | Wrappers | `Option`, `Result` |
| calendar.dfy | Calendar | dates, months, month index |
| series.dfy | Series | monthly series, chronological and gap-free series, lookup |
| numbers.dfy | Numbers | `Metric`, float division, `(1+m)^12-1`, NaN-skipping minimum |
| statistics.dfy | Statistics | sum, mean, min/max, filters, sample variance/covariance, std |
| compounding.dfy | Compounding | `(1 + r).prod()` |
| returns.dfy | Returns | `calculate_returns` |
| alignment.dfy | Alignment | inner join, weighting, benchmark re-alignment |
| drawdown.dfy | Drawdown | wealth index, running peak, drawdowns, maximum drawdown |
| periods.dfy | Periods | calendar-year returns, best/worst year, win/loss statistics |
| tail_risk.dfy | TailRisk | sort, 5th percentile, expected shortfall |
| ratios.dfy | Ratios | Sharpe, Sortino, Calmar and their `+inf` guards |
| benchmark.dfy | Benchmark | beta, alpha, Treynor, active return, capture ratios |
| portfolio.dfy | Portfolio | the whole `calculate_portfolio_metrics` pipeline and report |
| scenarios.dfy | Scenarios | worked examples on small concrete inputs |

## Behaviour of the code that the model keeps

- **Allocations.** Only the count and the total of the allocations are checked. A short position (150 and -50) passes. The total is compared with 100 exactly.
- **Too little data.** There is no separate "insufficient data" error. A ticker with prices in only one month has an empty return series, so the analysis ends with "No overlapping data periods found".
- **Best and worst year.** These are reported whenever the series has a month. Partial first and last calendar years count like full ones.
- **First month and drawdown.** The wealth index starts at `1 + r0`, not at 1. A loss in the first month is therefore never a drawdown. For a single losing month, the maximum drawdown is 0 and the Calmar ratio is `+inf`.
- **Annual Sortino ratio.** It is guarded by the *monthly* downside deviation.
- **Exactly one losing month.** The downside deviation is then the sample deviation of one value, which is NaN. NaN is not positive, so both Sortino ratios are `+inf`.
- **Treynor ratio.** A NaN beta makes the Treynor ratio NaN, because NaN passes the `!= 0` test.
- **Capture ratios.** Each one is present exactly when the benchmark has a month moving that way. The mean of strictly positive (or strictly negative) values is never 0.

## Model

| member | source | states |
|---|---|---|
| Returns.MonthEnds | Python_LAB/app.py:44 | One entry per calendar month that has a quote. The entries are gap-free, positive, start at the first quote's month, and cover exactly the quoted months. |
| Returns.MonthEndsAreLastCloses | Python_LAB/app.py:44 | Every month-end value is the last close quoted in that month (`resample('M').last()`). |
| Returns.PercentChange | Python_LAB/app.py:44 | One entry fewer than its input. Entry i is labelled with month i+1. Every return of positive prices exceeds -1. |
| Returns.PercentChangeMonths | Python_LAB/app.py:44 | The months of the changes are the input's months minus the first. |
| Returns.CompoundInvertsPercentChange | Python_LAB/app.py:44 | Round trip: compounding the returns from the first month-end price rebuilds every month-end price. |
| Returns.MonthlyReturns | Python_LAB/app.py:37-45 | The monthly returns are chronological and gap-free. Their count is one less than the number of quoted months. Their months are the quoted months except the first, and every return exceeds -1. |
| Alignment.Align | Python_LAB/app.py:74-77 | The rows are in month order, and each row holds every column's own value for its month. A month has a row if and only if every column has it. |
| Alignment.AlignContiguous | Python_LAB/app.py:74-77 | When every column is gap-free, the joined rows are gap-free. |
| Alignment.AlignSingle | Python_LAB/app.py:74-77 | Joining a single series gives back its own months and values. |
| Alignment.Weights | Python_LAB/app.py:54 | Each weight times 100 is its allocation. |
| Alignment.WeightsSum | Python_LAB/app.py:54 | The weights sum to the allocations' total over 100. |
| Alignment.DotConstant | Python_LAB/app.py:83 | A row whose values are all c combines to (sum of weights) times c. |
| Alignment.EqualReturnsCombine | Python_LAB/app.py:54-83 | With allocations summing to 100, a month in which every instrument returns c gives a portfolio return of c. |
| Alignment.SingleInstrumentPortfolio | Python_LAB/app.py:54-83 | One instrument at 100%: the portfolio series is that instrument's series. |
| Alignment.WithBenchmark | Python_LAB/app.py:92-99 | The benchmark survives if and only if the two series share a month. Otherwise the portfolio is unchanged. When it survives, the two series have the same non-zero length. |
| Alignment.WithBenchmarkRestricts | Python_LAB/app.py:92-97 | On an overlap, the portfolio's months become exactly the common months, in order. The two series are paired month by month, and each value is that series' own value for the month. |
| Alignment.WithBenchmarkShrinks | Python_LAB/app.py:94-96 | Re-alignment never lengthens the portfolio series. |
| Alignment.WithBenchmarkContiguous | Python_LAB/app.py:92-97 | Re-aligning two gap-free series leaves a gap-free portfolio series. |
| Portfolio.MessageDistinguishes | Python_LAB/app.py:50-80 | Two error messages are equal if and only if the errors are equal. In particular, the message names the missing ticker. |
| Portfolio.FirstMissing | Python_LAB/app.py:57-62 | The download loop stops at the first ticker without data. Every earlier ticker has data. |
| Portfolio.FirstMissingIffAllFetched | Python_LAB/app.py:57-62 | The loop runs to the end if and only if every ticker has data. |
| Portfolio.WeightedReturns | Python_LAB/app.py:74-83 | The weighted series is non-empty if and only if some month is in every instrument's returns. |
| Portfolio.WeightedReturnsMatch | Python_LAB/app.py:74-83 | The weighted series runs in order over exactly the months every instrument has. Each value is the allocation-weighted sum of the instruments' returns for that month. |
| Portfolio.WeightedReturnsContiguous | Python_LAB/app.py:74-83 | Gap-free instruments give a gap-free weighted series. |
| Portfolio.TickerReturns | Python_LAB/app.py:64-72 | One return series per ticker, in ticker order. Each is that ticker's own monthly returns, gap-free and chronological, over its quoted months except the first. |
| Portfolio.AttachBenchmark | Python_LAB/app.py:86-99 | A benchmark is attached if and only if a non-empty ticker was given, its prices were fetched, and its returns share a month with the portfolio. Otherwise the portfolio is unchanged. |
| Portfolio.AnalysedReturns | Python_LAB/app.py:50-99 | The allocation error occurs if and only if the allocations are invalid, whatever the source returns. The missing-data error occurs if and only if they are valid but some ticker has no data, and it names the first such ticker. The no-overlap error occurs if and only if all data is there but no month is common to every ticker. On success the series is non-empty and chronological, every ticker has data, and a benchmark is attached if and only if a non-empty benchmark ticker was given, its prices were fetched, and some month is common to every instrument and the benchmark. |
| Portfolio.ReportedSeriesContiguous | Python_LAB/app.py:74-99 | The series the metrics are computed on has no missing month. |
| Portfolio.ReportedYearsSpan | Python_LAB/app.py:134-138 | The yearly table of the analysed series has an entry for every calendar year from the first reported month's to the last's, and for no other year. Best and worst year exist and bound the compounded return of every year in that range. |
| Portfolio.ReportedSeriesMatch | Python_LAB/app.py:74-99 | Every reported month is in every instrument's returns, and its value is the allocation-weighted sum of their returns. Without a benchmark, the reported months are exactly the months common to every instrument. With one, they are exactly the months common to every instrument and the benchmark. |
| Portfolio.ReportedBenchmarkMatch | Python_LAB/app.py:86-99 | An attached benchmark is paired month by month with the portfolio and carries its own monthly returns. |
| Portfolio.SingleTicker | Python_LAB/app.py:50-83 | One ticker at 100% and no benchmark gives one of three results. If the ticker has no data, the missing-data error. With fewer than two months of prices, the no-overlap error. Otherwise the analysis runs on exactly the ticker's monthly returns. |
| Portfolio.Compare | Python_LAB/app.py:202-259 | Alpha is present if and only if beta is a number. Treynor is NaN if and only if beta is NaN or 0. Each capture ratio is present if and only if the benchmark moves that way in some month. |
| Portfolio.Measure | Python_LAB/app.py:101-191 | The report is internally consistent: (1) worst month ≤ mean, VaR, expected shortfall ≤ best month; (2) expected shortfall is finite and ≤ VaR; (3) the positive share is in [0, 100]; (4) both years are present and worst ≤ best; (5) the benchmark block is present if and only if a benchmark survived. |
| Portfolio.YearRange | Python_LAB/app.py:134-138 | A non-empty series has a best and a worst year, and the worst is no better than the best. |
| Portfolio.Analyse | Python_LAB/app.py:47-269 | A report is produced if and only if the allocations are valid, every ticker has data, and some month is common to all. The allocation error does not depend on the source. A produced report carries the benchmark block if and only if a non-empty benchmark ticker was given, its prices were fetched, and some month is common to every instrument and the benchmark. |
| Statistics.Mean | Python_LAB/app.py:109 | The mean lies between the smallest and the largest return. |
| Statistics.MeanConstant | Python_LAB/app.py:109 | The mean of n copies of c is c. |
| Statistics.Max | Python_LAB/app.py:130 | The best month is one of the returns and no return exceeds it. |
| Statistics.Min | Python_LAB/app.py:131 | The worst month is one of the returns and exceeds none of them. |
| Statistics.Filter | Python_LAB/app.py:119 | A selection holds exactly the values that pass the test, and is no longer than its input. |
| Statistics.FilterCounts | Python_LAB/app.py:119 | A selection keeps each passing value exactly as often as the input holds it, and drops every other value. |
| Statistics.GainsCount | Python_LAB/app.py:180 | Every month counts as positive if and only if all returns are > 0. None counts if and only if all are ≤ 0. |
| Statistics.LossesCount | Python_LAB/app.py:186 | There is no losing month if and only if all returns are ≥ 0. |
| Statistics.SampleVariance | Python_LAB/app.py:115 | The sample variance is NaN if and only if there are fewer than two values. Otherwise it is non-negative. |
| Statistics.SampleCovariance | Python_LAB/app.py:205 | The sample covariance is NaN if and only if there are fewer than two pairs. |
| Statistics.CovarianceWithItself | Python_LAB/app.py:203-205 | A series' covariance with itself is its variance. |
| Statistics.StdDev | Python_LAB/app.py:115 | `std()` is NaN if and only if there are fewer than two values. |
| Statistics.VarianceZeroIffConstant | Python_LAB/app.py:115 | With two or more values, the variance is 0 if and only if all values are equal. |
| Statistics.StdDevPositiveIffNotConstant | Python_LAB/app.py:145 | Under a sign-preserving square root, `std() > 0` if and only if there are two or more values and they are not all equal. |
| Numbers.Div | Python_LAB/app.py:145-160 | Float division: the quotient times a non-zero divisor gives back the dividend. It is NaN if and only if the divisor is NaN or the division is 0/0. |
| Numbers.Abs | Python_LAB/app.py:158 | `abs` keeps finiteness and NaN, and gives the non-negative one of ±v. |
| Numbers.Scale | Python_LAB/app.py:116 | A finite value v scales to v·c, and NaN stays NaN. Scaling by a positive factor keeps positivity. |
| Numbers.AnnualRate | Python_LAB/app.py:110 | `(1+m)^12-1` stays above -1 and has the sign of m, for m > -1. |
| Numbers.AnnualRateMonotone | Python_LAB/app.py:110 | Annualising is strictly increasing above -1. |
| Numbers.MinSkipNaN | Python_LAB/app.py:127 | `Series.min()` is NaN if and only if every entry is NaN. Otherwise it is an entry and no non-NaN entry is below it. |
| Compounding.GrowthAppend | Python_LAB/app.py:134-135 | Compounding two runs in turn is the product of their growths. |
| Compounding.GrowthPositive | Python_LAB/app.py:124 | While every month's factor is positive, wealth stays positive. |
| Compounding.GrowthAtLeastOne | Python_LAB/app.py:124 | Non-negative returns never lose money. |
| Compounding.GrowthCons | Python_LAB/app.py:135 | Compounding a first month then the rest multiplies their factors. |
| Drawdown.PeakIsRunningMax | Python_LAB/app.py:125 | The running peak is a wealth value reached so far, and no earlier wealth exceeds it. |
| Drawdown.Shortfall | Python_LAB/app.py:126 | `W/P - 1` for a non-zero peak. For a zero peak it is NaN if and only if the wealth is zero too. |
| Drawdown.FirstDrawdownIsZero | Python_LAB/app.py:124-126 | The first month is its own peak, so its drawdown is 0, unless the first month returns exactly -100%: then wealth and peak are both 0 and the drawdown is NaN. |
| Drawdown.DrawdownNeverInfinite | Python_LAB/app.py:124-126 | No drawdown is infinite, even under a short position. A zero running peak means the holding hit zero and stayed there, so that entry is 0/0 = NaN. |
| Drawdown.MaxDrawdownNotAboveZero | Python_LAB/app.py:124-127 | For any series whose first month does not wipe the holding out, short positions included, the maximum drawdown is a finite number ≤ 0. |
| Drawdown.WealthSplit | Python_LAB/app.py:124 | Wealth in month j is wealth in month i times the growth between them. |
| Drawdown.DrawdownAtMost | Python_LAB/app.py:124-126 | For a solvent series (every month's `1 + r` > 0), a month's drawdown is no better than the loss since any earlier month. |
| Drawdown.DrawdownAttained | Python_LAB/app.py:124-126 | For a solvent series (every month's `1 + r` > 0), a month's drawdown equals the loss since some earlier month, namely its peak. |
| Drawdown.DrawdownBounds | Python_LAB/app.py:124-126 | Every drawdown of a solvent series lies in (-1, 0]. |
| Drawdown.MaxDrawdownIsWorstPeakToTrough | Python_LAB/app.py:124-127 | For a solvent series (every month's `1 + r` > 0), the maximum drawdown is finite and in (-1, 0]. It is the worst loss between any two months, and some pair attains it. |
| Drawdown.NoDrawdownIffNoLaterLoss | Python_LAB/app.py:124-127 | For a solvent series (every month's `1 + r` > 0), the maximum drawdown is 0 if and only if no month after the first loses. |
| Drawdown.MaxDrawdownSign | Python_LAB/app.py:124-127 | For a solvent series (every month's `1 + r` > 0), the maximum drawdown is finite and ≤ 0. It is 0 if and only if no later month loses. |
| Periods.YearlyReturns | Python_LAB/app.py:134-135 | One entry per calendar year the series touches, in strictly increasing year order, starting with the first month's year. |
| Periods.YearlyReturnsYears | Python_LAB/app.py:134-135 | The years reported are exactly the years the series touches. |
| Periods.ContiguousYearsSpan | Python_LAB/app.py:134-135 | A gap-free series touches exactly the calendar years from its first month's to its last month's. |
| Periods.YearlyReturnsSpan | Python_LAB/app.py:134-135 | For a gap-free series, the yearly entries are exactly the years from the first month's to the last month's, as pandas' yearly grouper bins them. |
| Periods.YearlyReturnIsCompounded | Python_LAB/app.py:134-135 | Each year's entry is `(1 + x).prod() - 1` over exactly that year's months. |
| Periods.YearEntry | Python_LAB/app.py:134-135 | Every year the series touches has its compounded return among the entries. |
| Periods.BestAndWorstYear | Python_LAB/app.py:134-138 | Best and worst year are present if and only if the series is non-empty. They are the largest and smallest compounded returns over the calendar years the series touches, and each is attained by some such year. |
| Periods.BestAndWorstYearOverSpan | Python_LAB/app.py:134-138 | For a non-empty gap-free series, best and worst year exist, bound the compounded return of every year from the first month's to the last's, and each is attained by a year in that range. |
| Periods.PositivePeriods | Python_LAB/app.py:180 | The positive count never exceeds the number of months. |
| Periods.PositivePercent | Python_LAB/app.py:183 | The positive share is a percentage in [0, 100]. |
| Periods.PositivePercentExtremes | Python_LAB/app.py:180-183 | The share is 100 if and only if every month gains, and 0 if and only if no month gains. |
| Periods.AverageGain | Python_LAB/app.py:185 | The average gain is ≥ 0, and positive if and only if some month gains. |
| Periods.AverageLoss | Python_LAB/app.py:186 | The average loss is ≥ 0, and positive if and only if some month loses. |
| Periods.GainLossRatioCases | Python_LAB/app.py:185-191 | The gain/loss ratio is `+inf` if and only if no month loses. Otherwise it is finite and ≥ 0, and it is 0 if and only if no month gains. |
| TailRisk.SortAscending | Python_LAB/app.py:164 | The sorted values are ascending and a permutation of the returns. |
| TailRisk.InsertSorted | Python_LAB/app.py:164 | Insertion keeps a sorted sequence sorted. |
| TailRisk.PercentileSplitsAtRank | Python_LAB/app.py:164 | The linear 5th percentile splits the sorted values at rank `(n-1)/20`. |
| TailRisk.VaRRank | Python_LAB/app.py:164 | Every sorted value up to the rank is at or below the VaR, and every later value at or above it. |
| TailRisk.VaRWithinRange | Python_LAB/app.py:164 | The VaR lies between the worst and the best month. |
| TailRisk.AtOrBelow | Python_LAB/app.py:172 | The tail holds exactly the returns at or below the threshold. |
| TailRisk.ExpectedShortfallBounds | Python_LAB/app.py:171-173 | The tail is never empty, so the expected shortfall is finite. It lies between the worst month and the VaR. |
| Ratios.Annualised | Python_LAB/app.py:116-121 | Scaling a monthly deviation by the root of 12 gives NaN if and only if the deviation is NaN. Under a sign-preserving root, the result is positive if and only if the deviation is. |
| Ratios.AnnualisedPositive | Python_LAB/app.py:116-121 | Under a sign-preserving root, the annualised deviation is positive if and only if the monthly one is. |
| Ratios.DownsideDeviation | Python_LAB/app.py:119-120 | The downside deviation is 0 when no month loses. It is NaN if and only if exactly one month loses. |
| Ratios.Guarded | Python_LAB/app.py:145-146 | The guard gives `+inf` if and only if the denominator is not positive. Otherwise the quotient times the denominator is the excess return. |
| Ratios.SharpeInfiniteIffFlat | Python_LAB/app.py:145-146 | Both Sharpe ratios are `+inf` if and only if there are fewer than two months or every month returns the same. Otherwise each is the excess return over the deviation. |
| Ratios.SortinoInfiniteIffFlatLosses | Python_LAB/app.py:149-154 | Both Sortino ratios are `+inf` if and only if there are fewer than two losing months or they all lose the same. Otherwise each is the excess return over the downside deviation. |
| Ratios.CalmarInfiniteIffNoLaterLoss | Python_LAB/app.py:157-160 | For a solvent series, Calmar is `+inf` if and only if no month after the first loses. Otherwise it is the annual mean over the size of the maximum drawdown. |
| Ratios.CalmarOfNaNDrawdown | Python_LAB/app.py:157-160 | A NaN maximum drawdown passes the `!= 0` test and makes Calmar NaN. |
| Benchmark.Beta | Python_LAB/app.py:202-208 | Beta is a number if and only if the benchmark variance is positive. Then beta times the variance is the covariance. Otherwise beta is NaN. |
| Benchmark.BetaUndefinedIffFlat | Python_LAB/app.py:202-208 | Beta is NaN if and only if the benchmark has fewer than two months or returns the same every month. |
| Benchmark.Alpha | Python_LAB/app.py:210-215 | The alpha key is present if and only if beta is a number. |
| Benchmark.Treynor | Python_LAB/app.py:220-224 | Treynor is NaN if and only if beta is NaN or 0. Otherwise it times beta is 100 times the annual excess return. |
| Benchmark.Where | Python_LAB/app.py:250 | The portfolio months picked by the benchmark's test are as many as the benchmark months that pass it. |
| Benchmark.SelectedPicks | Python_LAB/app.py:250 | The boolean mask `b > 0` (or `b < 0`) as a list of positions: strictly increasing, holding exactly the months that pass, as many as the filtered benchmark. |
| Benchmark.WhereSelects | Python_LAB/app.py:250-251 | The k-th value picked is the portfolio's return in the k-th month whose benchmark passes the test. No month is dropped, repeated or reordered. |
| Benchmark.ActiveReturn | Python_LAB/app.py:211-232 | When both monthly means exceed -100%, the active return is positive if and only if the portfolio's monthly mean beats the benchmark's, and 0 if and only if they are equal. |
| Benchmark.CapturePresence | Python_LAB/app.py:245-259 | The upside (downside) capture is present if and only if some benchmark month is > 0 (< 0). |
| Benchmark.CaptureIsSumRatio | Python_LAB/app.py:249-259 | A present capture ratio is the ratio of the two selections' sums, times 100. |
| Benchmark.WhereItself | Python_LAB/app.py:250-251 | Selecting a series by its own test gives the filtered series. |
| Benchmark.BenchmarkAgainstItself | Python_LAB/app.py:202-232 | Measured against itself, a moving benchmark has beta 1, alpha 0 and active return 0. |
| Benchmark.BetaOfItself | Python_LAB/app.py:202-206 | Beta of a moving series against itself is 1. |
| Benchmark.CaptureOfItself | Python_LAB/app.py:245-259 | Against itself, every present capture ratio is 100. |
| Scenarios.ShortPositionAccepted | Python_LAB/app.py:50 | 150 and -50 pass validation. 60 and 30 do not, nor do two allocations for one ticker. |
| Scenarios.FirstMonthLoss | Python_LAB/app.py:124-160 | A single -50% month has maximum drawdown 0 and Calmar `+inf`. |
| Scenarios.RiseThenFall | Python_LAB/app.py:124-127 | +25%, -20%, 0% has maximum drawdown -20%. |
| Scenarios.ShortPositionOverdrawn | Python_LAB/app.py:124-127 | Returns +50% then -150% are not solvent, and the maximum drawdown is -150%, below a total loss. |
| Scenarios.NegativeHoldingHidesLoss | Python_LAB/app.py:124-127 | Returns -150% then -50% are not solvent, and the maximum drawdown is 0 although the second month loses. |
| Scenarios.HalfPositive | Python_LAB/app.py:180-183 | Two gaining months of four give a count of 2 and 50%. |
| Scenarios.ThreeMonthVaR | Python_LAB/app.py:164 | The 5th percentile of 0.03, -0.02, 0.01 is -0.017. |
| Scenarios.MissingTickerMessage | Python_LAB/app.py:61 | The message for SPY reads "Could not get data for SPY". |
| Scenarios.TwoInstrumentReturns | Python_LAB/app.py:44 | Month-end prices 100, 110, 121 give returns 0.10, 0.10. Prices 100, 121, 110 give 0.21, -1/11. |
| Scenarios.TwoInstrumentRows | Python_LAB/app.py:74-77 | Both months survive the join with both instruments' values. |
| Scenarios.TwoInstruments | Python_LAB/app.py:83-109 | At 50/50 the portfolio returns 0.155 and 1/220, with a monthly mean of 351/4400. |

## Left out

- `get_historical_data` (yfinance download, CSV cache, swallowed exceptions) is I/O. It is the parameter `Portfolio.Source`. Every series it delivers is assumed well formed: valid increasing dates, positive closes, and a quote in every calendar month between the first and the last.
- pandas' handling of months with no quote and of zero closes: excluded by that assumption.
- The conversion of the index to datetimes: dates are given as `(year, month, day)` values.
- The Flask routes and the page template are HTTP plumbing.
- `Python_LAB/Fetch_data.py` is a download script. It is not part of this model.
- Geometric mean (monthly and annual) and the safe and perpetual withdrawal rates derived from it: they need a fractional power.
- Analytical VaR: it needs the normal quantile.
- Skewness and kurtosis.
- Benchmark correlation, R-squared, tracking error, information ratio, M2 and the correlation matrix: they need square roots of data-dependent values, which the model does not evaluate.
- The square root in `std()` and `np.sqrt(12)` is the host function `Numerics.sqrt`. Results about the signs of standard deviations assume only that it is sign-preserving.
- The monthly risk-free rate `(1.02)^(1/12) - 1` is the number `Numerics.riskFreeMonthly`.
- IEEE-754 rounding is not modelled. All arithmetic is exact over the reals, including the `sum(allocations) != 100` test. Infinities and NaN appear only where the code produces them by a guard, by 0/0, or by a statistic of too few values.
- `np.percentile` is modelled only for the 5th percentile with the default linear method.
- Duplicate tickers: the dictionary of downloads is keyed by ticker. The source is a function, so a repeated ticker gets the same prices and the model simply repeats the column.
- Portfolio.Measure: states relations between the reported figures rather than each figure's value. Each value is defined by the function it is computed with, whose own lemmas are listed above.
- Drawdown.MaxDrawdownNotAboveZero: requires the first month's factor `1 + r0` to be non-zero. A first-month return of exactly -100% gives a zero first peak and NaN drawdowns.
- Drawdown.MaxDrawdownIsWorstPeakToTrough: proved for solvent series only (every month's `1 + r` > 0). Once a short position drives the holding to zero or below, the peak-to-trough reading fails. For example, [0.5, -1.5] has a maximum drawdown of -1.5, below -1 (Scenarios.ShortPositionOverdrawn). For every series, the model promises only Drawdown.MaxDrawdownNotAboveZero and Drawdown.DrawdownNeverInfinite.
- Drawdown.DrawdownAtMost: proved for solvent series only, for the same reason.
- Drawdown.DrawdownAttained: proved for solvent series only, for the same reason.
- Drawdown.DrawdownBounds: proved for solvent series only, for the same reason.
- Drawdown.MaxDrawdownSign: proved for solvent series only, for the same reason.
- Drawdown.NoDrawdownIffNoLaterLoss: proved for solvent series only. Without solvency the equivalence fails: [-1.5, -0.5] has a maximum drawdown of 0 although its second month loses (Scenarios.NegativeHoldingHidesLoss).
- Periods.YearlyReturns: pandas' yearly grouper also emits an entry of 0.0 (the product over no months, less one) for a calendar year inside the series' range that has no month. The model emits entries only for years the series touches. The series analysed is always gap-free (Portfolio.ReportedSeriesContiguous), so no such year arises there (Portfolio.ReportedYearsSpan).
- Periods.YearlyReturnsYears: states the touched years only, for the same reason; on a gap-free series these are all years of the range (Periods.YearlyReturnsSpan).
- Periods.BestAndWorstYear: ranges over the touched years only, so on a series with a missing year it does not count the 0.0 entry pandas would add. On a gap-free series the two agree (Periods.BestAndWorstYearOverSpan).
- Benchmark.ActiveReturn: the sign of the active return is promised only when both monthly means exceed -100%. Below that, `(1 + m) ** 12` is no longer increasing in m.
- Ratios.SharpeInfiniteIffFlat: requires a sign-preserving square root, because the square root is a parameter.
- Ratios.SortinoInfiniteIffFlatLosses: requires a sign-preserving square root, for the same reason.
- Beta equal to k for a portfolio moving as `k * benchmark + c` is not proved.
