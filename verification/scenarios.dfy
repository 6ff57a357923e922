/** Worked examples: small concrete inputs whose metrics can be followed by
    hand. */
module Scenarios {
  import opened Wrappers
  import opened Calendar
  import opened Series
  import opened Returns
  import opened Alignment
  import opened Numbers
  import opened Statistics
  import opened Compounding
  import opened Drawdown
  import opened Periods
  import opened TailRisk
  import opened Ratios
  import opened Portfolio

  /** Allocations are only checked for their total: a short position is
      accepted, a total of 90 is not. */
  lemma ShortPositionAccepted()
    ensures ValidAllocations(["A", "B"], [150.0, -50.0])
    ensures !ValidAllocations(["A", "B"], [60.0, 30.0])
    ensures !ValidAllocations(["A"], [50.0, 50.0])
  {
  }

  /** A loss in the very first month is not a drawdown: wealth starts at
      `1 + r0`, which is its own peak, so the Calmar ratio is `+inf`. */
  lemma FirstMonthLoss()
    ensures MaxDrawdown([-0.5]) == Finite(0.0)
    ensures Calmar([-0.5]) == PosInf
  {
    FirstDrawdownIsZero([-0.5]);
  }

  /** Up 25%, down 20%, flat: the wealth path is 1.25, 1.0, 1.0 and the
      deepest fall from the peak is 20%. */
  lemma RiseThenFall()
    ensures MaxDrawdown([0.25, -0.2, 0.0]) == Finite(-0.2)
  {
    var xs := [0.25, -0.2, 0.0];
    assert Growth(xs[..1]) == 1.25;
    assert xs[..2][..1] == xs[..1];
    assert Growth(xs[..2]) == 1.0;
    assert xs[..3][..2] == xs[..2];
    assert Growth(xs[..3]) == 1.0;
    var w := Wealth(xs);
    assert Peaks(w) == [1.25, 1.25, 1.25];
  }

  /** A short position that loses 150% in its second month: the holding
      goes from 1.5 to -0.75, and the drawdown reads -150%, beyond a total
      loss. */
  lemma ShortPositionOverdrawn()
    ensures !Solvent([0.5, -1.5])
    ensures MaxDrawdown([0.5, -1.5]) == Finite(-1.5)
  {
    var xs := [0.5, -1.5];
    assert 1.0 + xs[1] <= 0.0;
    assert Growth(xs[..1]) == 1.5;
    assert xs[..2][..1] == xs[..1];
    assert Growth(xs[..2]) == -0.75;
    var w := Wealth(xs);
    assert w == [1.5, -0.75];
    assert Peaks(w) == [1.5, 1.5];
    assert Drawdowns(xs) == [Finite(0.0), Finite(-1.5)];
  }

  /** A holding already below zero after month one: the second month loses
      50%, yet wealth rises from -0.5 to -0.25, so no drawdown shows. */
  lemma NegativeHoldingHidesLoss()
    ensures !Solvent([-1.5, -0.5])
    ensures MaxDrawdown([-1.5, -0.5]) == Finite(0.0)
  {
    var xs := [-1.5, -0.5];
    assert 1.0 + xs[0] <= 0.0;
    assert Growth(xs[..1]) == -0.5;
    assert xs[..2][..1] == xs[..1];
    assert Growth(xs[..2]) == -0.25;
    var w := Wealth(xs);
    assert w == [-0.5, -0.25];
    assert Peaks(w) == [-0.5, -0.25];
    assert Drawdowns(xs) == [Finite(0.0), Finite(0.0)];
  }

  /** Two of four months gain. */
  lemma HalfPositive()
    ensures PositivePeriods([0.1, -0.1, 0.0, 0.2]) == 2
    ensures PositivePercent([0.1, -0.1, 0.0, 0.2]) == 50.0
  {
    assert Gains([0.1, -0.1, 0.0, 0.2]) == [0.1, 0.2];
  }

  /** Sorting three months' returns. */
  lemma SortThree()
    ensures SortAscending([0.03, -0.02, 0.01]) == [-0.02, 0.01, 0.03]
  {
    var xs := [0.03, -0.02, 0.01];
    assert xs[1..] == [-0.02, 0.01];
    SortTwo();
    InsertLargest();
  }

  lemma SortTwo()
    ensures SortAscending([-0.02, 0.01]) == [-0.02, 0.01]
  {
    assert [-0.02, 0.01][1..] == [0.01];
    assert SortAscending([0.01]) == [0.01];
  }

  lemma InsertLargest()
    ensures Insert(0.03, [-0.02, 0.01]) == [-0.02, 0.01, 0.03]
  {
    assert [-0.02, 0.01][1..] == [0.01];
    assert Insert(0.03, [0.01]) == [0.01, 0.03];
  }

  /** Three months: the 5th percentile sits a tenth of the way from the
      worst month to the middle one. */
  lemma ThreeMonthVaR()
    ensures HistoricalVaR([0.03, -0.02, 0.01]) == -0.017
  {
    SortThree();
    assert Rank(3) == 0 && RankFraction(3) == 0.1;
    assert FifthPercentile([-0.02, 0.01, 0.03]) == Interpolate(-0.02, 0.01, 0.1);
  }

  /** The message names the ticker. */
  lemma MissingTickerMessage()
    ensures Message(MissingData("SPY")) == "Could not get data for SPY"
  {
  }

  function First(): seq<Observation> {
    [Observation(Month(2020, 2), 0.1), Observation(Month(2020, 3), 0.1)]
  }

  function Second(): seq<Observation> {
    [Observation(Month(2020, 2), 0.21), Observation(Month(2020, 3), -1.0 / 11.0)]
  }

  /** Prices 100, 110, 121 and 100, 121, 110 at the ends of three
      consecutive months give returns 0.10, 0.10 and 0.21, -1/11. */
  lemma TwoInstrumentReturns()
    ensures PercentChange([Observation(Month(2020, 1), 100.0), Observation(Month(2020, 2), 110.0), Observation(Month(2020, 3), 121.0)]) == First()
    ensures PercentChange([Observation(Month(2020, 1), 100.0), Observation(Month(2020, 2), 121.0), Observation(Month(2020, 3), 110.0)]) == Second()
  {
  }

  /** Both instruments have both months, so both rows survive. */
  lemma TwoInstrumentRows()
    ensures var rows := Align([First(), Second()]);
      && |rows| == 2
      && rows[0].values == [0.1, 0.21]
      && rows[1].values == [0.1, -1.0 / 11.0]
  {
    var a, b := First(), Second();
    var columns := [a, b];
    assert Lookup(a, a[0].month) == Some(0.1) && Lookup(b, a[0].month) == Some(0.21);
    assert Lookup(a, a[1].month) == Some(0.1) && Lookup(b, a[1].month) == Some(-1.0 / 11.0);
    assert a[1..] == [a[1]];
    assert InAll(columns, a[0].month) && InAll(columns, a[1].month);
    assert AlignOver(a[1..][1..], columns) == [];
    assert AlignOver(a[1..], columns) == [RowAt(columns, a[1].month)];
  }

  /** Held 50/50 the portfolio returns 0.155 and 1/220, a monthly mean of
      351/4400 (about 0.0798). */
  lemma TwoInstruments()
    ensures Values(WeightedReturns([First(), Second()], [50.0, 50.0])) == [0.155, 1.0 / 220.0]
    ensures Mean(Values(WeightedReturns([First(), Second()], [50.0, 50.0]))) == 351.0 / 4400.0
  {
    TwoInstrumentRows();
    var w := Weights([50.0, 50.0]);
    assert w == [0.5, 0.5];
    var p := WeightedReturns([First(), Second()], [50.0, 50.0]);
    assert p[0].value == Dot(w, [0.1, 0.21]) == 0.155;
    assert p[1].value == Dot(w, [0.1, -1.0 / 11.0]) == 1.0 / 220.0;
    var v := Values(p);
    assert v == [0.155, 1.0 / 220.0];
    assert v[1..] == [1.0 / 220.0] && [1.0 / 220.0][1..] == [];
    assert Sum([1.0 / 220.0]) == 1.0 / 220.0;
    assert Sum(v) == 0.155 + 1.0 / 220.0;
    assert Mean(v) == Sum(v) / 2.0;
  }
}
