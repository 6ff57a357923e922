/** Compounding a run of monthly returns, `(1 + r).prod()`, shared by the
    drawdown chain and the calendar-year returns. */
module Compounding {

  /** What one unit grows to over the returns `xs`, compounded in order. */
  function Growth(xs: seq<real>): real {
    if |xs| == 0 then 1.0 else Grow(Growth(xs[..|xs| - 1]), xs[|xs| - 1])
  }

  /** An amount `p` after one month returning `x`. */
  function Grow(p: real, x: real): real {
    p * (1.0 + x)
  }

  /** Every month's factor `1 + x` is positive: the holding never hits
      zero. */
  predicate Solvent(xs: seq<real>) {
    forall i :: 0 <= i < |xs| ==> 1.0 + xs[i] > 0.0
  }

  /** Growing over `a` then over `b` is growing over `a + b`. */
  lemma {:induction false} GrowthAppend(a: seq<real>, b: seq<real>)
    ensures Growth(a + b) == Growth(a) * Growth(b)
  {
    if |b| == 0 {
      assert a + b == a;
    } else {
      var b' := b[..|b| - 1];
      var x := b[|b| - 1];
      assert (a + b)[..|a + b| - 1] == a + b';
      assert (a + b)[|a + b| - 1] == x;
      GrowthAppend(a, b');
      GrowScales(Growth(a), Growth(b'), x);
    }
  }

  lemma GrowScales(p: real, q: real, x: real)
    ensures Grow(p * q, x) == p * Grow(q, x)
  {
  }

  lemma {:induction false} GrowthPositive(xs: seq<real>)
    requires Solvent(xs)
    ensures Growth(xs) > 0.0
  {
    if |xs| > 0 {
      var init, x := xs[..|xs| - 1], xs[|xs| - 1];
      GrowthPositive(init);
      PositiveProduct(Growth(init), 1.0 + x);
      assert Growth(xs) == Grow(Growth(init), x);
      assert Grow(Growth(init), x) == Growth(init) * (1.0 + x);
      assert Growth(init) * (1.0 + x) > 0.0;
    }
  }

  lemma PositiveProduct(p: real, q: real)
    requires p > 0.0 && q > 0.0
    ensures p * q > 0.0
  {
  }

  /** Months that never lose compound to at least the starting unit. */
  lemma {:induction false} GrowthAtLeastOne(xs: seq<real>)
    requires forall i :: 0 <= i < |xs| ==> xs[i] >= 0.0
    ensures Growth(xs) >= 1.0
  {
    if |xs| > 0 {
      var init, x := xs[..|xs| - 1], xs[|xs| - 1];
      GrowthAtLeastOne(init);
      AtLeastOneProduct(Growth(init), 1.0 + x);
      assert Growth(xs) == Grow(Growth(init), x);
    }
  }

  lemma AtLeastOneProduct(p: real, q: real)
    requires p >= 1.0 && q >= 1.0
    ensures p * q >= 1.0
  {
    assert p * q >= p * 1.0;
  }

  lemma GrowthSingle(x: real)
    ensures Growth([x]) == 1.0 + x
  {
    assert [x][..0] == [];
  }

  /** Compounding a first month `x` in front of a run `r`. */
  lemma GrowthCons(x: real, r: seq<real>)
    ensures Growth([x] + r) == (1.0 + x) * Growth(r)
  {
    GrowthAppend([x], r);
    GrowthSingle(x);
  }
}
