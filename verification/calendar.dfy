/** Calendar dates of price observations and the calendar months that
    monthly resampling labels its bins with. */
module Calendar {

  /** A trading day's date. */
  datatype Date = Date(year: int, month: int, day: int)

  /** A calendar month; resampling to month ends gives every bin this key. */
  datatype Month = Month(year: int, month: int)

  predicate ValidDate(d: Date) {
    1 <= d.month <= 12 && 1 <= d.day <= 31
  }

  predicate ValidMonth(m: Month) {
    1 <= m.month <= 12
  }

  /** The month bin a date falls in. */
  function MonthOf(d: Date): Month {
    Month(d.year, d.month)
  }

  /** Months counted from January of year 0; consecutive months have
      consecutive indices. */
  function Index(m: Month): int {
    12 * m.year + m.month - 1
  }

  /** The month with a given index, the inverse of `Index`. */
  function FromIndex(k: int): (m: Month)
    ensures ValidMonth(m) && Index(m) == k
  {
    Month(k / 12, k % 12 + 1)
  }

  /** Valid months are determined by their index. */
  lemma IndexInjective(a: Month, b: Month)
    requires ValidMonth(a) && ValidMonth(b)
    ensures Index(a) == Index(b) <==> a == b
  {
  }

  /** Chronological order of dates: by year, then month, then day. */
  predicate Before(a: Date, b: Date) {
    || a.year < b.year
    || (a.year == b.year && a.month < b.month)
    || (a.year == b.year && a.month == b.month && a.day < b.day)
  }

  /** A later date never falls in an earlier month. */
  lemma BeforeOrdersMonths(a: Date, b: Date)
    requires ValidDate(a) && ValidDate(b) && Before(a, b)
    ensures Index(MonthOf(a)) <= Index(MonthOf(b))
  {
    if a.year < b.year {
      assert Index(MonthOf(a)) < 12 * (a.year + 1) <= Index(MonthOf(b));
    }
  }

  /** A later month never falls in an earlier year. */
  lemma IndexOrdersYears(a: Month, b: Month)
    requires ValidMonth(a) && ValidMonth(b) && Index(a) < Index(b)
    ensures a.year <= b.year
  {
  }
}
