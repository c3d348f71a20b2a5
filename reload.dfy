/** What `saveData` followed by `loadData` does to a store, at the level of
    records: the arrays written are decoded and folded into an empty
    store. */
module Reload {
  import opened Common
  import opened Contacts
  import opened Meetings
  import opened Json
  import opened Codec
  import opened StoreSpec

  /** An enumeration of a set is as long as the set is large. */
  lemma {:induction false} EnumerationSize(order: seq<Contact>, cs: set<Contact>)
    requires Enumerates(order, cs)
    ensures |order| == |cs|
  {
    if order != [] {
      var front := order[..|order| - 1];
      var last := order[|order| - 1];
      assert last !in front;
      assert Enumerates(front, cs - {last});
      EnumerationSize(front, cs - {last});
    }
  }

  /** Saving the contacts of a store whose ids are distinct and nonzero,
      in whatever order the set is iterated, and loading them into an
      empty store gives back every contact with its notes, and sets the
      counter to their number. */
  lemma ContactsSurviveReload(cs: set<Contact>, order: seq<Contact>)
    requires Enumerates(order, cs)
    requires ContactIdsUnique(cs) && forall c :: c in cs ==> c.id != 0
    requires |cs| <= MAX_INT
    ensures forall k :: 0 <= k < |order| ==>
              ToContact(Some(EncodeContact(Some(order[k])))) == Ok(Some(order[k]))
    ensures FoldContacts({}, 0, order) == (cs, |cs|)
  {
    forall k | 0 <= k < |order|
      ensures ToContact(Some(EncodeContact(Some(order[k])))) == Ok(Some(order[k]))
    {
      ContactRoundTrip(order[k]);
    }
    EnumerationSize(order, cs);
    forall i, j | 0 <= i < j < |order|
      ensures order[i].id != order[j].id
    {
      assert order[i] in cs && order[j] in cs;
    }
    FoldContactsOfDistinct(order);
    assert (set c | c in order) == cs;
  }

  /** Saving the meetings of a store whose ids are distinct and nonzero and
      loading them back with the tag-directed decoder into an empty store
      gives the same list, and sets the counter to its length. */
  lemma MeetingsSurviveReload(ms: seq<Meeting>, rs: seq<Record>)
    requires AreMeetingRecords(ms, rs) && Constructible(ms)
    requires MeetingIdsUnique(ms) && forall k :: 0 <= k < |ms| ==> ms[k].id != 0
    requires |ms| <= MAX_INT
    ensures DecodeEach(rs, DecodeStoredMeeting).Ok?
    ensures FoldMeetings([], 0, Present(DecodeEach(rs, DecodeStoredMeeting).value)) == (ms, |ms|)
  {
    StoredMeetingsRoundTrip(ms, rs);
    var decoded := DecodeEach(rs, DecodeStoredMeeting).value;
    var loaded := Present(decoded);
    assert loaded == ms;
    FoldMeetingsOfDistinct(ms);
  }
}
