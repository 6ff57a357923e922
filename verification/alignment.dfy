/** Alignment of return series on their common months and the weighted
    portfolio return: `pd.concat(..., axis=1).dropna()` followed by
    `returns_df.dot(weights)`. */
module Alignment {
  import opened Calendar
  import opened Series
  import opened Wrappers
  import opened Statistics

  /** One row of the aligned return table: a month and one return per column. */
  datatype Row = Row(month: Month, values: seq<real>)

  /** Every column has an entry for month `mo`. */
  predicate InAll(columns: seq<seq<Observation>>, mo: Month) {
    forall k :: 0 <= k < |columns| ==> mo in MonthsOf(columns[k])
  }

  function RowMonths(rows: seq<Row>): set<Month> {
    set i | 0 <= i < |rows| :: rows[i].month
  }

  /** Rows in strictly increasing month order. */
  predicate RowsChronological(rows: seq<Row>) {
    && (forall i :: 0 <= i < |rows| ==> ValidMonth(rows[i].month))
    && (forall i, j :: 0 <= i < j < |rows| ==> Index(rows[i].month) < Index(rows[j].month))
  }

  /** Rows for consecutive months. */
  predicate RowsContiguous(rows: seq<Row>) {
    forall i :: 0 < i < |rows| ==> Index(rows[i].month) == Index(rows[i - 1].month) + 1
  }

  /** Each row holds, in column order, every column's value for its month. */
  predicate RowsMatch(rows: seq<Row>, columns: seq<seq<Observation>>) {
    forall i :: 0 <= i < |rows| ==>
      && InAll(columns, rows[i].month)
      && |rows[i].values| == |columns|
      && (forall k :: 0 <= k < |columns| ==> Some(rows[i].values[k]) == Lookup(columns[k], rows[i].month))
  }

  /** The row of month `mo`, which every column has. */
  function RowAt(columns: seq<seq<Observation>>, mo: Month): (r: Row)
    requires InAll(columns, mo)
    ensures r.month == mo && |r.values| == |columns|
    ensures forall k :: 0 <= k < |columns| ==> Some(r.values[k]) == Lookup(columns[k], mo)
  {
    Row(mo, seq(|columns|, k requires 0 <= k < |columns| => Lookup(columns[k], mo).value))
  }

  /** The rows for the months of `driver` that every column has, in the
      order of `driver`. */
  function AlignOver(driver: seq<Observation>, columns: seq<seq<Observation>>): (rows: seq<Row>)
    ensures RowsMatch(rows, columns)
    ensures forall i :: 0 <= i < |rows| ==> rows[i].month in MonthsOf(driver)
  {
    if |driver| == 0 then []
    else
      MonthsOfCons(driver);
      var rest := AlignOver(driver[1..], columns);
      if InAll(columns, driver[0].month) then
        var rows := [RowAt(columns, driver[0].month)] + rest;
        assert forall i :: 0 < i < |rows| ==> rows[i] == rest[i - 1];
        rows
      else
        rest
  }

  lemma RowMonthsCons(r: Row, rest: seq<Row>)
    ensures RowMonths([r] + rest) == {r.month} + RowMonths(rest)
  {
    var rows := [r] + rest;
    forall x | x in RowMonths(rest)
      ensures x in RowMonths(rows)
    {
      var i :| 0 <= i < |rest| && rest[i].month == x;
      assert rows[i + 1].month == x;
    }
    forall x | x in RowMonths(rows)
      ensures x in {r.month} + RowMonths(rest)
    {
      var i :| 0 <= i < |rows| && rows[i].month == x;
      if i > 0 {
        assert rest[i - 1].month == x;
      }
    }
    assert rows[0].month == r.month;
    assert r.month in RowMonths(rows);
  }

  /** No month of the driver that every column has is dropped. */
  lemma {:induction false} AlignOverComplete(driver: seq<Observation>, columns: seq<seq<Observation>>)
    ensures forall mo :: mo in MonthsOf(driver) && InAll(columns, mo) ==> mo in RowMonths(AlignOver(driver, columns))
  {
    if |driver| > 0 {
      MonthsOfCons(driver);
      AlignOverComplete(driver[1..], columns);
      var rest := AlignOver(driver[1..], columns);
      if InAll(columns, driver[0].month) {
        RowMonthsCons(RowAt(columns, driver[0].month), rest);
      }
    }
  }

  /** The rows keep the driver's month order. */
  lemma {:induction false} AlignOverChronological(driver: seq<Observation>, columns: seq<seq<Observation>>)
    requires Chronological(driver)
    ensures RowsChronological(AlignOver(driver, columns))
  {
    if |driver| > 0 {
      assert Chronological(driver[1..]);
      AlignOverChronological(driver[1..], columns);
      var rest := AlignOver(driver[1..], columns);
      if InAll(columns, driver[0].month) {
        var rows := AlignOver(driver, columns);
        assert forall i :: 0 < i < |rows| ==> rows[i] == rest[i - 1];
        forall i | 0 <= i < |rest|
          ensures Index(driver[0].month) < Index(rest[i].month)
        {
          var j :| 0 <= j < |driver[1..]| && driver[1..][j].month == rest[i].month;
          assert driver[1..][j] == driver[j + 1];
        }
      }
    }
  }

  /** The inner join of the return columns: the months present in every
      column, in increasing order, each with every column's value. */
  function Align(columns: seq<seq<Observation>>): (rows: seq<Row>)
    requires |columns| > 0
    requires forall k :: 0 <= k < |columns| ==> Chronological(columns[k])
    ensures RowsChronological(rows)
    ensures RowsMatch(rows, columns)
    ensures forall mo :: mo in RowMonths(rows) <==> InAll(columns, mo)
  {
    AlignOverComplete(columns[0], columns);
    AlignOverChronological(columns[0], columns);
    AlignOver(columns[0], columns)
  }

  /** Column k of the aligned table as a monthly series. */
  function Column(rows: seq<Row>, k: nat): (s: seq<Observation>)
    requires forall i :: 0 <= i < |rows| ==> k < |rows[i].values|
    ensures |s| == |rows|
    ensures forall i :: 0 <= i < |rows| ==> s[i] == Observation(rows[i].month, rows[i].values[k])
  {
    seq(|rows|, i requires 0 <= i < |rows| => Observation(rows[i].month, rows[i].values[k]))
  }

  /** `w . v`, the weighted sum of one row. */
  function Dot(w: seq<real>, v: seq<real>): real
    requires |w| == |v|
  {
    if |w| == 0 then 0.0 else w[0] * v[0] + Dot(w[1..], v[1..])
  }

  /** `[a / 100 for a in allocations]`. */
  function Weights(allocations: seq<real>): (w: seq<real>)
    ensures |w| == |allocations|
    ensures forall i :: 0 <= i < |w| ==> w[i] * 100.0 == allocations[i]
  {
    seq(|allocations|, i requires 0 <= i < |allocations| => allocations[i] / 100.0)
  }

  /** The portfolio return series: each aligned month's weighted sum. */
  function Combine(rows: seq<Row>, w: seq<real>): seq<Observation>
    requires forall i :: 0 <= i < |rows| ==> |rows[i].values| == |w|
  {
    seq(|rows|, i requires 0 <= i < |rows| => Observation(rows[i].month, Dot(w, rows[i].values)))
  }

  /** When every column is gap-free, a month lying between two months that
      every column has is also in every column. */
  lemma InAllConvex(columns: seq<seq<Observation>>, a: Month, b: Month, c: Month)
    requires forall k :: 0 <= k < |columns| ==> Contiguous(columns[k])
    requires ValidMonth(a) && ValidMonth(b) && ValidMonth(c)
    requires InAll(columns, a) && InAll(columns, b)
    requires Index(a) <= Index(c) <= Index(b)
    ensures InAll(columns, c)
  {
    forall k | 0 <= k < |columns|
      ensures c in MonthsOf(columns[k])
    {
      var col := columns[k];
      assert a in MonthsOf(col);
      ContiguousMonths(col, a);
      ContiguousMonths(col, b);
      ContiguousMonths(col, c);
    }
  }

  /** Joining gap-free columns along a gap-free driver leaves no gap. */
  lemma {:induction false} AlignOverContiguous(driver: seq<Observation>, columns: seq<seq<Observation>>)
    requires Contiguous(driver)
    requires forall k :: 0 <= k < |columns| ==> Contiguous(columns[k])
    ensures RowsContiguous(AlignOver(driver, columns))
  {
    if |driver| > 0 {
      var tail := driver[1..];
      assert Contiguous(tail);
      AlignOverContiguous(tail, columns);
      var rest := AlignOver(tail, columns);
      var mo := driver[0].month;
      if InAll(columns, mo) && |rest| > 0 {
        var rows := AlignOver(driver, columns);
        assert forall i :: 0 < i < |rows| ==> rows[i] == rest[i - 1];
        ContiguousSpan(driver);
        ContiguousIsChronological(tail);
        AlignOverChronological(tail, columns);
        AlignOverComplete(tail, columns);
        var j :| 0 <= j < |tail| && tail[j].month == rest[0].month;
        assert tail[j] == driver[j + 1] && tail[0] == driver[1];
        InAllConvex(columns, mo, rest[0].month, driver[1].month);
        assert driver[1].month in MonthsOf(tail);
        var i :| 0 <= i < |rest| && rest[i].month == driver[1].month;
        assert Index(rest[0].month) <= Index(rest[i].month);
      }
    }
  }

  /** The inner join of gap-free columns is gap-free. */
  lemma AlignContiguous(columns: seq<seq<Observation>>)
    requires |columns| > 0
    requires forall k :: 0 <= k < |columns| ==> Contiguous(columns[k])
    requires forall k :: 0 <= k < |columns| ==> Chronological(columns[k])
    ensures RowsContiguous(Align(columns))
  {
    AlignOverContiguous(columns[0], columns);
  }

  /** A driver whose every month is in every column is kept whole. */
  lemma {:induction false} AlignOverKeepsAll(driver: seq<Observation>, columns: seq<seq<Observation>>)
    requires forall i :: 0 <= i < |driver| ==> InAll(columns, driver[i].month)
    ensures |AlignOver(driver, columns)| == |driver|
    ensures forall i :: 0 <= i < |driver| ==> AlignOver(driver, columns)[i].month == driver[i].month
  {
    if |driver| > 0 {
      var tail := driver[1..];
      assert forall i :: 0 <= i < |tail| ==> tail[i] == driver[i + 1];
      AlignOverKeepsAll(tail, columns);
      AlignOverHead(driver, columns);
      var rows := AlignOver(driver, columns);
      var rest := AlignOver(tail, columns);
      forall i | 1 <= i < |driver|
        ensures rows[i].month == driver[i].month
      {
        assert rows[i] == rest[i - 1];
      }
    }
  }

  /** A driver month that every column has heads the aligned rows. */
  lemma AlignOverHead(driver: seq<Observation>, columns: seq<seq<Observation>>)
    requires |driver| > 0 && InAll(columns, driver[0].month)
    ensures AlignOver(driver, columns) == [RowAt(columns, driver[0].month)] + AlignOver(driver[1..], columns)
  {
  }

  /** Aligning a single chronological series gives back its own months and
      values, one row each. */
  lemma AlignSingle(c: seq<Observation>)
    requires Chronological(c)
    ensures |Align([c])| == |c|
    ensures forall i :: 0 <= i < |c| ==> Align([c])[i] == Row(c[i].month, [c[i].value])
  {
    forall i | 0 <= i < |c|
      ensures InAll([c], c[i].month)
    {
      assert c[i].month in MonthsOf(c);
    }
    AlignOverKeepsAll(c, [c]);
    var rows := Align([c]);
    forall i | 0 <= i < |c|
      ensures rows[i] == Row(c[i].month, [c[i].value])
    {
      LookupChronological(c, i);
      assert rows[i].values == [c[i].value];
    }
  }

  /** A row whose values are all c combines to the weights' total times c,
      so to c itself when the weights sum to one. */
  lemma {:induction false} DotConstant(w: seq<real>, v: seq<real>, c: real)
    requires |w| == |v|
    requires forall k :: 0 <= k < |v| ==> v[k] == c
    ensures Dot(w, v) == Sum(w) * c
  {
    if |w| > 0 {
      DotConstant(w[1..], v[1..], c);
    }
  }

  /** One instrument at a 100% allocation: the portfolio return series is
      that instrument's own return series. */
  lemma SingleInstrumentPortfolio(c: seq<Observation>)
    requires Chronological(c)
    ensures Combine(Align([c]), Weights([100.0])) == c
  {
    AlignSingle(c);
    var w := Weights([100.0]);
    assert w == [1.0];
    var s := Combine(Align([c]), w);
    forall i | 0 <= i < |c|
      ensures s[i] == c[i]
    {
      assert Dot(w, [c[i].value]) == c[i].value;
    }
  }

  /** A portfolio month's return is a weighted average of the instruments'
      returns: when every instrument returns c that month and the
      allocations sum to 100, the portfolio returns c too. */
  lemma EqualReturnsCombine(allocations: seq<real>, v: seq<real>, c: real)
    requires |v| == |allocations|
    requires Sum(allocations) == 100.0
    requires forall k :: 0 <= k < |v| ==> v[k] == c
    ensures Dot(Weights(allocations), v) == c
  {
    var w := Weights(allocations);
    WeightsSum(allocations);
    DotConstant(w, v, c);
    OneTimes(Sum(w), c);
  }

  lemma OneTimes(a: real, c: real)
    requires a == 1.0
    ensures a * c == c
  {
  }

  lemma {:induction false} WeightsSum(allocations: seq<real>)
    ensures Sum(Weights(allocations)) == Sum(allocations) / 100.0
  {
    if |allocations| > 0 {
      WeightsSum(allocations[1..]);
      assert Weights(allocations)[1..] == Weights(allocations[1..]);
    }
  }

  lemma ColumnMonths(rows: seq<Row>, k: nat)
    requires forall i :: 0 <= i < |rows| ==> k < |rows[i].values|
    ensures MonthsOf(Column(rows, k)) == RowMonths(rows)
  {
    var c := Column(rows, k);
    assert forall i :: 0 <= i < |rows| ==> c[i].month == rows[i].month;
  }

  lemma ColumnChronological(rows: seq<Row>, k: nat)
    requires forall i :: 0 <= i < |rows| ==> k < |rows[i].values|
    requires RowsChronological(rows)
    ensures Chronological(Column(rows, k))
  {
  }

  lemma InPair(a: seq<Observation>, b: seq<Observation>, mo: Month)
    ensures InAll([a, b], mo) <==> mo in MonthsOf(a) && mo in MonthsOf(b)
  {
    assert [a, b][0] == a && [a, b][1] == b;
  }

  /** The portfolio series and, when one survives, the benchmark series
      after they are re-aligned on their common months. */
  datatype Aligned = Aligned(portfolio: seq<Observation>, benchmark: Option<seq<Observation>>)

  /** Re-alignment of the portfolio with a benchmark: on a non-empty
      overlap both are cut down to the common months; on an empty overlap
      the benchmark is dropped and the portfolio is kept as it was. */
  function WithBenchmark(portfolio: seq<Observation>, bench: seq<Observation>): (a: Aligned)
    requires Chronological(portfolio) && Chronological(bench)
    ensures a.benchmark.Some? <==> MonthsOf(portfolio) * MonthsOf(bench) != {}
    ensures a.benchmark.None? ==> a.portfolio == portfolio
    ensures a.benchmark.Some? ==> |a.portfolio| == |a.benchmark.value| > 0
  {
    var rows := Align([portfolio, bench]);
    if |rows| > 0 then
      assert rows[0].month in RowMonths(rows);
      InPair(portfolio, bench, rows[0].month);
      assert rows[0].month in MonthsOf(portfolio) * MonthsOf(bench);
      Aligned(Column(rows, 0), Some(Column(rows, 1)))
    else
      assert forall mo :: mo in MonthsOf(portfolio) * MonthsOf(bench) ==> mo in RowMonths(rows) by {
        forall mo | mo in MonthsOf(portfolio) * MonthsOf(bench)
          ensures mo in RowMonths(rows)
        {
          InPair(portfolio, bench, mo);
        }
      }
      Aligned(portfolio, None)
  }

  /** On a non-empty overlap the two re-aligned series run over exactly the
      common months, in order, and carry each series' own value for every
      month. */
  lemma WithBenchmarkRestricts(portfolio: seq<Observation>, bench: seq<Observation>)
    requires Chronological(portfolio) && Chronological(bench)
    requires WithBenchmark(portfolio, bench).benchmark.Some?
    ensures var a := WithBenchmark(portfolio, bench);
      && MonthsOf(a.portfolio) == MonthsOf(portfolio) * MonthsOf(bench)
      && Chronological(a.portfolio)
      && (forall i :: 0 <= i < |a.portfolio| ==> a.portfolio[i].month == a.benchmark.value[i].month)
      && (forall i :: 0 <= i < |a.portfolio| ==> Lookup(portfolio, a.portfolio[i].month) == Some(a.portfolio[i].value))
      && (forall i :: 0 <= i < |a.portfolio| ==> Lookup(bench, a.portfolio[i].month) == Some(a.benchmark.value[i].value))
  {
    var rows := Align([portfolio, bench]);
    assert [portfolio, bench][0] == portfolio && [portfolio, bench][1] == bench;
    ColumnMonths(rows, 0);
    ColumnChronological(rows, 0);
    forall mo
      ensures mo in RowMonths(rows) <==> mo in MonthsOf(portfolio) * MonthsOf(bench)
    {
      InPair(portfolio, bench, mo);
    }
  }

  /** Re-alignment never lengthens the portfolio series. */
  lemma WithBenchmarkShrinks(portfolio: seq<Observation>, bench: seq<Observation>)
    requires Chronological(portfolio) && Chronological(bench)
    ensures |WithBenchmark(portfolio, bench).portfolio| <= |portfolio|
  {
    var a := WithBenchmark(portfolio, bench);
    if a.benchmark.Some? {
      WithBenchmarkRestricts(portfolio, bench);
      ChronologicalMonthCount(portfolio);
      ChronologicalMonthCount(a.portfolio);
      assert MonthsOf(a.portfolio) <= MonthsOf(portfolio);
      SubsetCard(MonthsOf(a.portfolio), MonthsOf(portfolio));
    }
  }

  lemma SubsetCard<T>(a: set<T>, b: set<T>)
    requires a <= b
    ensures |a| <= |b|
  {
    assert b == a + (b - a);
  }

  /** Re-aligning two gap-free series leaves a gap-free portfolio series. */
  lemma WithBenchmarkContiguous(portfolio: seq<Observation>, bench: seq<Observation>)
    requires Contiguous(portfolio) && Contiguous(bench)
    ensures Chronological(portfolio) && Chronological(bench)
    ensures Contiguous(WithBenchmark(portfolio, bench).portfolio)
  {
    ContiguousIsChronological(portfolio);
    ContiguousIsChronological(bench);
    var columns := [portfolio, bench];
    AlignContiguous(columns);
    var rows := Align(columns);
    if |rows| > 0 {
      var c := Column(rows, 0);
      assert forall i :: 0 <= i < |rows| ==> c[i].month == rows[i].month;
    }
  }
}
