/** Monthly returns of one instrument: `df['Close'].resample('M').last()
    .pct_change().dropna()`. */
module Returns {
  import opened Calendar
  import opened Series
  import opened Compounding

  /** One daily closing price. */
  datatype Quote = Quote(date: Date, close: real)

  /** What the data source is trusted to deliver: valid dates in strictly
      increasing order, positive closes, and at least one quote in every
      calendar month between the first and the last. */
  predicate WellFormedPrices(q: seq<Quote>) {
    && (forall i :: 0 <= i < |q| ==> ValidDate(q[i].date) && q[i].close > 0.0)
    && (forall i :: 0 < i < |q| ==> Before(q[i - 1].date, q[i].date))
    && (forall i :: 0 < i < |q| ==> Index(MonthOf(q[i].date)) <= Index(MonthOf(q[i - 1].date)) + 1)
  }

  /** The calendar months in which the series has a quote. */
  function QuoteMonths(q: seq<Quote>): set<Month> {
    set i | 0 <= i < |q| :: MonthOf(q[i].date)
  }

  lemma WellFormedTail(q: seq<Quote>)
    requires WellFormedPrices(q) && |q| > 0
    ensures WellFormedPrices(q[1..])
  {
    assert forall i :: 0 < i < |q[1..]| ==> q[1..][i - 1] == q[i] && q[1..][i] == q[i + 1];
  }

  lemma QuoteMonthsCons(q: seq<Quote>)
    requires |q| > 0
    ensures QuoteMonths(q) == {MonthOf(q[0].date)} + QuoteMonths(q[1..])
  {
    forall x | x in QuoteMonths(q)
      ensures x in {MonthOf(q[0].date)} + QuoteMonths(q[1..])
    {
      var i :| 0 <= i < |q| && MonthOf(q[i].date) == x;
      if i > 0 {
        assert q[1..][i - 1] == q[i];
      }
    }
    forall x | x in QuoteMonths(q[1..])
      ensures x in QuoteMonths(q)
    {
      var i :| 0 <= i < |q[1..]| && MonthOf(q[1..][i].date) == x;
      assert q[i + 1] == q[1..][i];
    }
  }

  /** Consecutive quotes fall in the same month or in the next one. */
  lemma NextQuoteMonth(q: seq<Quote>)
    requires WellFormedPrices(q) && |q| > 1
    ensures Index(MonthOf(q[0].date)) <= Index(MonthOf(q[1].date)) <= Index(MonthOf(q[0].date)) + 1
  {
    BeforeOrdersMonths(q[0].date, q[1].date);
  }

  /** `resample('M').last()`: one entry per calendar month holding the last
      close of that month, for every month in which there is a quote. */
  function MonthEnds(q: seq<Quote>): (m: seq<Observation>)
    requires WellFormedPrices(q)
    ensures |m| == 0 <==> |q| == 0
    ensures Contiguous(m)
    ensures |q| > 0 ==> m[0].month == MonthOf(q[0].date)
    ensures forall k :: 0 <= k < |m| ==> m[k].value > 0.0
    ensures MonthsOf(m) == QuoteMonths(q)
  {
    if |q| == 0 then []
    else
      WellFormedTail(q);
      QuoteMonthsCons(q);
      var rest := MonthEnds(q[1..]);
      var first := MonthOf(q[0].date);
      if |rest| > 0 && rest[0].month == first then
        MonthsOfCons(rest);
        rest
      else
        var m := [Observation(first, q[0].close)] + rest;
        assert m[1..] == rest;
        MonthsOfCons(m);
        if |rest| > 0 then
          NextQuoteMonth(q);
          IndexInjective(first, rest[0].month);
          m
        else
          m
  }

  /** The close of the last quote dated in month `mo`: the value
      `resample('M').last()` must report for that month. */
  function LastClose(q: seq<Quote>, mo: Month): real
    requires mo in QuoteMonths(q)
  {
    if mo in QuoteMonths(q[1..]) then LastClose(q[1..], mo) else q[0].close
  }

  /** Every month-end entry holds the close of the last quote of its month. */
  lemma {:induction false} MonthEndsAreLastCloses(q: seq<Quote>)
    requires WellFormedPrices(q)
    ensures forall k :: 0 <= k < |MonthEnds(q)| ==>
      MonthEnds(q)[k].month in QuoteMonths(q) &&
      MonthEnds(q)[k].value == LastClose(q, MonthEnds(q)[k].month)
  {
    if |q| > 0 {
      WellFormedTail(q);
      QuoteMonthsCons(q);
      MonthEndsAreLastCloses(q[1..]);
      var m := MonthEnds(q);
      var rest := MonthEnds(q[1..]);
      var first := MonthOf(q[0].date);
      assert forall j :: 0 <= j < |rest| ==> rest[j].month in MonthsOf(rest);
      if |rest| > 0 && rest[0].month == first {
        assert m == rest;
      } else {
        assert m == [Observation(first, q[0].close)] + rest;
        if |rest| > 0 {
          NextQuoteMonth(q);
          IndexInjective(first, rest[0].month);
          ContiguousSpan(rest);
        }
        assert first !in QuoteMonths(q[1..]) by {
          forall j | 0 <= j < |rest|
            ensures rest[j].month != first
          {
            assert Index(rest[j].month) > Index(first);
          }
        }
        forall k | 0 <= k < |m|
          ensures m[k].month in QuoteMonths(q) && m[k].value == LastClose(q, m[k].month)
        {
          if k > 0 {
            assert m[k] == rest[k - 1];
          }
        }
      }
    }
  }

  /** `pct_change().dropna()`: the change from each month's value to the
      next, labelled with the later month; the first month has none. */
  function PercentChange(m: seq<Observation>): (r: seq<Observation>)
    requires forall k :: 0 <= k < |m| ==> m[k].value > 0.0
    ensures |r| == if |m| == 0 then 0 else |m| - 1
    ensures forall i :: 0 <= i < |r| ==> r[i].month == m[i + 1].month
    ensures forall i :: 0 <= i < |r| ==> r[i].value > -1.0
  {
    if |m| < 2 then []
    else
      PositiveRatio(m[1].value, m[0].value);
      [Observation(m[1].month, m[1].value / m[0].value - 1.0)] + PercentChange(m[1..])
  }

  lemma PositiveRatio(a: real, b: real)
    requires a > 0.0 && b > 0.0
    ensures a / b > 0.0
  {
  }

  /** The returns cover every month of the price series but the first. */
  lemma PercentChangeMonths(m: seq<Observation>)
    requires |m| > 0 && Chronological(m)
    requires forall k :: 0 <= k < |m| ==> m[k].value > 0.0
    ensures MonthsOf(PercentChange(m)) == MonthsOf(m) - {m[0].month}
  {
    var r := PercentChange(m);
    assert forall i :: 0 <= i < |r| ==> r[i].month == m[1..][i].month;
    assert MonthsOf(r) == MonthsOf(m[1..]);
    MonthsOfCons(m);
    assert m[0].month !in MonthsOf(m[1..]) by {
      forall i | 0 <= i < |m[1..]|
        ensures m[1..][i].month != m[0].month
      {
        assert Index(m[0].month) < Index(m[i + 1].month);
      }
    }
  }

  lemma PercentChangeContiguous(m: seq<Observation>)
    requires Contiguous(m)
    requires forall k :: 0 <= k < |m| ==> m[k].value > 0.0
    ensures Contiguous(PercentChange(m))
  {
  }

  /** `calculate_returns`: the monthly returns of one instrument's prices. */
  function MonthlyReturns(q: seq<Quote>): (r: seq<Observation>)
    requires WellFormedPrices(q)
    ensures Contiguous(r) && Chronological(r)
    ensures |q| == 0 ==> |r| == 0
    ensures |q| > 0 ==> |r| + 1 == |QuoteMonths(q)|
    ensures |q| > 0 ==> MonthsOf(r) == QuoteMonths(q) - {MonthOf(q[0].date)}
    ensures forall i :: 0 <= i < |r| ==> r[i].value > -1.0
  {
    var m := MonthEnds(q);
    ContiguousIsChronological(m);
    ChronologicalMonthCount(m);
    PercentChangeContiguous(m);
    ContiguousIsChronological(PercentChange(m));
    assert |m| > 0 ==> MonthsOf(PercentChange(m)) == MonthsOf(m) - {m[0].month} by {
      if |m| > 0 {
        PercentChangeMonths(m);
      }
    }
    PercentChange(m)
  }

  /** Compounding returns forward from a starting price:
      `[p0, p0 * (1 + r0), p0 * (1 + r0) * (1 + r1), ...]`. */
  function Compound(p0: real, r: seq<real>): (p: seq<real>)
    ensures |p| == |r| + 1 && p[0] == p0
    decreases r
  {
    if |r| == 0 then [p0] else [p0] + Compound(Grow(p0, r[0]), r[1..])
  }

  lemma RatioCancels(a: real, b: real)
    requires b != 0.0
    ensures Grow(b, a / b - 1.0) == a
  {
  }

  /** The percentage changes lose nothing but the scale: compounding them
      from the first month-end price rebuilds every month-end price. */
  lemma {:induction false} CompoundInvertsPercentChange(m: seq<Observation>)
    requires |m| > 0
    requires forall k :: 0 <= k < |m| ==> m[k].value > 0.0
    ensures Compound(m[0].value, Values(PercentChange(m))) == Values(m)
  {
    var r := Values(PercentChange(m));
    if |m| > 1 {
      CompoundInvertsPercentChange(m[1..]);
      RatioCancels(m[1].value, m[0].value);
      assert r[0] == m[1].value / m[0].value - 1.0;
      assert m[0].value * (1.0 + r[0]) == m[1].value;
      assert r[1..] == Values(PercentChange(m[1..]));
      assert |r| > 0;
      assert Compound(m[0].value, r) == [m[0].value] + Compound(m[0].value * (1.0 + r[0]), r[1..]);
      assert Values(m) == [m[0].value] + Values(m[1..]);
    } else {
      assert Values(m) == [m[0].value];
    }
  }
}
