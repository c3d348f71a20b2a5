/** MeetingComparator: orders meetings by date. */
module MeetingOrder {
  import opened Dates
  import opened Meetings

  /** `compare(o1, o2)`: 1 when o1's date is after o2's, -1 when it is
      before, 0 when neither. */
  function Compare(o1: Meeting, o2: Meeting): (r: int)
    ensures -1 <= r <= 1
    ensures r == 1 <==> After(o1.date, o2.date)
    ensures r == -1 <==> Before(o1.date, o2.date)
    ensures r == 0 <==> o1.date == o2.date
  {
    AfterTotal(o1.date, o2.date);
    if After(o1.date, o2.date) then 1
    else if Before(o1.date, o2.date) then -1
    else 0
  }

  /** Swapping the arguments negates the result. */
  lemma CompareAntisymmetric(a: Meeting, b: Meeting)
    ensures Compare(a, b) == -Compare(b, a)
  {
    AfterAsymmetric(a.date, b.date);
  }

  /** The order is transitive, so it is a total preorder on meetings, as
      `Comparator` demands. */
  lemma CompareTransitive(a: Meeting, b: Meeting, c: Meeting)
    requires Compare(a, b) <= 0 && Compare(b, c) <= 0
    ensures Compare(a, c) <= 0
  {
    AfterTotal(a.date, b.date);
    AfterTotal(b.date, c.date);
    AfterTotal(a.date, c.date);
    if a.date != b.date && b.date != c.date {
      AfterTransitive(c.date, b.date, a.date);
      AfterAsymmetric(a.date, c.date);
    }
  }
}
