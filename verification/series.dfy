/** Monthly series: sequences of (month, value) entries, the shape of both
    the month-end price series and the return series built from it. */
module Series {
  import opened Calendar
  import opened Wrappers

  /** One entry of a monthly series, indexed by its month-end bin. */
  datatype Observation = Observation(month: Month, value: real)

  /** The values of a series, dropping the month index. */
  function Values(s: seq<Observation>): (v: seq<real>)
    ensures |v| == |s|
    ensures forall i :: 0 <= i < |s| ==> v[i] == s[i].value
  {
    seq(|s|, i requires 0 <= i < |s| => s[i].value)
  }

  /** The months a series has entries for. */
  function MonthsOf(s: seq<Observation>): set<Month> {
    set i | 0 <= i < |s| :: s[i].month
  }

  /** Entries in strictly increasing month order, as a date index is. */
  predicate Chronological(s: seq<Observation>) {
    && (forall i :: 0 <= i < |s| ==> ValidMonth(s[i].month))
    && (forall i, j :: 0 <= i < j < |s| ==> Index(s[i].month) < Index(s[j].month))
  }

  /** Entries for consecutive calendar months with no month missing. */
  predicate Contiguous(s: seq<Observation>) {
    && (forall i :: 0 <= i < |s| ==> ValidMonth(s[i].month))
    && (forall i :: 0 < i < |s| ==> Index(s[i].month) == Index(s[i - 1].month) + 1)
  }

  lemma MonthsOfCons(s: seq<Observation>)
    requires |s| > 0
    ensures MonthsOf(s) == {s[0].month} + MonthsOf(s[1..])
  {
    forall x | x in MonthsOf(s)
      ensures x in {s[0].month} + MonthsOf(s[1..])
    {
      var i :| 0 <= i < |s| && s[i].month == x;
      if i > 0 {
        assert s[1..][i - 1].month == x;
      }
    }
    forall x | x in MonthsOf(s[1..])
      ensures x in MonthsOf(s)
    {
      var i :| 0 <= i < |s[1..]| && s[1..][i].month == x;
      assert s[i + 1].month == x;
    }
  }

  /** In a gap-free series the i-th entry is i months after the first. */
  lemma {:induction false} ContiguousSpan(s: seq<Observation>)
    requires Contiguous(s)
    ensures forall i :: 0 <= i < |s| ==> Index(s[i].month) == Index(s[0].month) + i
  {
    if |s| > 1 {
      var init := s[..|s| - 1];
      assert Contiguous(init);
      ContiguousSpan(init);
      forall i | 0 <= i < |s|
        ensures Index(s[i].month) == Index(s[0].month) + i
      {
        if i < |init| {
          assert init[i] == s[i] && init[0] == s[0];
        } else {
          assert init[i - 1] == s[i - 1] && init[0] == s[0];
        }
      }
    }
  }

  /** A gap-free series is in chronological order. */
  lemma ContiguousIsChronological(s: seq<Observation>)
    requires Contiguous(s)
    ensures Chronological(s)
  {
    ContiguousSpan(s);
  }

  /** A gap-free series holds every month between its first and last. */
  lemma ContiguousHasEveryMonth(s: seq<Observation>, m: Month)
    requires Contiguous(s) && |s| > 0 && ValidMonth(m)
    requires Index(s[0].month) <= Index(m) <= Index(s[|s| - 1].month)
    ensures m in MonthsOf(s)
  {
    ContiguousSpan(s);
    var i := Index(m) - Index(s[0].month);
    IndexInjective(s[i].month, m);
    assert s[i].month == m;
  }

  /** The months of a gap-free series are exactly those from its first to
      its last. */
  lemma ContiguousMonths(s: seq<Observation>, m: Month)
    requires Contiguous(s) && |s| > 0 && ValidMonth(m)
    ensures m in MonthsOf(s) <==> Index(s[0].month) <= Index(m) <= Index(s[|s| - 1].month)
  {
    ContiguousSpan(s);
    if Index(s[0].month) <= Index(m) <= Index(s[|s| - 1].month) {
      ContiguousHasEveryMonth(s, m);
    }
  }

  /** A chronological series has one entry per month it covers. */
  lemma {:induction false} ChronologicalMonthCount(s: seq<Observation>)
    requires Chronological(s)
    ensures |MonthsOf(s)| == |s|
  {
    if |s| > 0 {
      var rest := s[1..];
      assert Chronological(rest);
      ChronologicalMonthCount(rest);
      MonthsOfCons(s);
      forall i | 0 <= i < |rest|
        ensures rest[i].month != s[0].month
      {
        assert rest[i] == s[i + 1];
        assert Index(s[0].month) < Index(s[i + 1].month);
      }
      assert s[0].month !in MonthsOf(rest);
    }
  }

  /** The value a series holds for a month, if any: `s.get(m)`. */
  function Lookup(s: seq<Observation>, m: Month): (r: Option<real>)
    ensures r.Some? <==> m in MonthsOf(s)
    ensures r.Some? ==> Observation(m, r.value) in s
  {
    if |s| == 0 then None
    else if s[0].month == m then Some(s[0].value)
    else
      MonthsOfCons(s);
      Lookup(s[1..], m)
  }

  /** In a chronological series, looking up an entry's month finds that
      entry's value. */
  lemma LookupChronological(s: seq<Observation>, i: int)
    requires Chronological(s) && 0 <= i < |s|
    ensures Lookup(s, s[i].month) == Some(s[i].value)
  {
    var r := Lookup(s, s[i].month);
    var j :| 0 <= j < |s| && s[j] == Observation(s[i].month, r.value);
  }
}
