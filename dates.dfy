/** Meeting dates. A `java.util.Calendar` is reduced to the six fields the
    contact manager reads and writes; the month is zero-based (January is 0),
    as `Calendar.MONTH` is. Two dates compare field by field, most
    significant first, which is how `Calendar.after` and `Calendar.before`
    order normalised calendars. */
module Dates {
  import opened Common

  datatype Date = Date(year: Int32, month: Int32, day: Int32,
                       hour: Int32, minute: Int32, second: Int32)

  /** `a.after(b)`: a is strictly later than b. */
  predicate After(a: Date, b: Date) {
    if a.year != b.year then a.year > b.year
    else if a.month != b.month then a.month > b.month
    else if a.day != b.day then a.day > b.day
    else if a.hour != b.hour then a.hour > b.hour
    else if a.minute != b.minute then a.minute > b.minute
    else a.second > b.second
  }

  /** `a.before(b)`: a is strictly earlier than b. */
  predicate Before(a: Date, b: Date) {
    After(b, a)
  }

  /** No date is after itself. */
  lemma AfterIrreflexive(a: Date)
    ensures !After(a, a)
  {
  }

  /** At most one of two dates is after the other. */
  lemma AfterAsymmetric(a: Date, b: Date)
    ensures !(After(a, b) && After(b, a))
  {
  }

  lemma AfterTransitive(a: Date, b: Date, c: Date)
    requires After(a, b) && After(b, c)
    ensures After(a, c)
  {
  }

  /** Two dates are equal exactly when neither is after the other. */
  lemma AfterTotal(a: Date, b: Date)
    ensures a == b <==> !After(a, b) && !After(b, a)
  {
  }
}
