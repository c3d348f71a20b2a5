/** PastMeetingComparator, and the stable sort `Collections.sort` performs
    with it. */
module PastMeetingOrder {
  import opened Meetings

  /** `compare(o1, o2)`: 1 when o1's id is smaller, -1 when it is larger,
      0 when the ids are equal, so the order puts the highest id first. */
  function Compare(o1: Meeting, o2: Meeting): (r: int)
    ensures r == 1 <==> o1.id < o2.id
    ensures r == -1 <==> o1.id > o2.id
    ensures r == 0 <==> o1.id == o2.id
  {
    if o1.id < o2.id then 1
    else if o1.id > o2.id then -1
    else 0
  }

  /** No element compares greater than a later one: ids never increase
      along the list. */
  predicate Sorted(s: seq<Meeting>) {
    forall i, j :: 0 <= i < j < |s| ==> Compare(s[i], s[j]) <= 0
  }

  /** Places m after every element of the list that does not compare
      greater than it, so equal elements keep their order. */
  function Insert(m: Meeting, s: seq<Meeting>): (r: seq<Meeting>)
    ensures multiset(r) == multiset(s) + multiset{m}
    ensures forall x :: x in r ==> x in s || x == m
  {
    if s == [] then [m]
    else if Compare(s[0], m) <= 0 then
      assert s == [s[0]] + s[1..];
      [s[0]] + Insert(m, s[1..])
    else [m] + s
  }

  /** Inserting into a sorted list keeps it sorted. */
  lemma {:induction false} InsertSorted(m: Meeting, s: seq<Meeting>)
    requires Sorted(s)
    ensures Sorted(Insert(m, s))
  {
    if s != [] {
      var r := Insert(m, s);
      if Compare(s[0], m) <= 0 {
        var tail := s[1..];
        assert forall i :: 0 <= i < |tail| ==> tail[i] == s[i + 1];
        InsertSorted(m, tail);
        var rest := Insert(m, tail);
        assert r == [s[0]] + rest;
        forall i, j | 0 <= i < j < |r|
          ensures Compare(r[i], r[j]) <= 0
        {
          assert r[j] == rest[j - 1] && rest[j - 1] in rest;
          if i == 0 {
            if rest[j - 1] != m {
              var j' :| 0 <= j' < |tail| && tail[j'] == rest[j - 1];
              assert s[1 + j'] == r[j];
            }
          } else {
            assert r[i] == rest[i - 1];
          }
        }
      } else {
        assert r == [m] + s;
        forall i, j | 0 <= i < j < |r|
          ensures Compare(r[i], r[j]) <= 0
        {
          assert r[j] == s[j - 1];
          if i != 0 {
            assert r[i] == s[i - 1];
          }
        }
      }
    }
  }

  /** `Collections.sort(list, new PastMeetingComparator())`, as the stable
      insertion sort that gives the same result as the library's stable
      merge sort. */
  function Sort(s: seq<Meeting>): (r: seq<Meeting>)
    ensures Sorted(r)
    ensures multiset(r) == multiset(s)
  {
    if s == [] then []
    else
      var front := s[..|s| - 1];
      assert s == front + [s[|s| - 1]];
      var sorted := Sort(front);
      InsertSorted(s[|s| - 1], sorted);
      Insert(s[|s| - 1], sorted)
  }
}
