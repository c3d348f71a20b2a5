/** ContactManagerImpl: the in-memory store of contacts and meetings. */
module Store {
  import opened Common
  import opened Dates
  import opened Contacts
  import opened Meetings
  import opened StoreSpec
  import PastMeetingOrder

  class ContactManager {
    /** The id handed to the last contact added (and the number of contacts
        a load accepted). */
    var contactId: Int32
    var contactList: set<Contact>
    /** The number of meetings a load accepted. */
    var meetingId: Int32
    var meetingList: seq<Meeting>

    /** No two meetings and no two contacts share an id other than 0. */
    ghost predicate Valid()
      reads this
    {
      MeetingIdsUnique(meetingList) && ContactIdsUnique(contactList)
    }

    /** Every contact id is at most the counter, as holds for a store whose
        contacts were all numbered by `AddNewContact`. */
    ghost predicate IdsBelowCounter()
      reads this
    {
      forall c :: c in contactList ==> c.id <= contactId
    }

    /** `new ContactManagerImpl()` before `loadData`: both counters at 0 and
        both collections empty. */
    constructor ()
      ensures contactId == 0 && meetingId == 0
      ensures contactList == {} && meetingList == []
      ensures Valid() && IdsBelowCounter()
    {
      contactId := 0;
      meetingId := 0;
      contactList := {};
      meetingList := [];
    }

    // -------------------------------------------------------------------
    // Loading

    /** The contact loop of `loadData` over the decoded records of the
        saved contact array. */
    method LoadContacts(records: seq<Contact>)
      modifies this
      ensures (contactList, contactId) == FoldContacts(old(contactList), old(contactId), records)
      ensures meetingList == old(meetingList) && meetingId == old(meetingId)
      ensures old(Valid()) ==> Valid()
    {
      var i := 0;
      while i < |records|
        invariant 0 <= i <= |records|
        invariant (contactList, contactId) == FoldContacts(old(contactList), old(contactId), records[..i])
        invariant meetingList == old(meetingList) && meetingId == old(meetingId)
      {
        FoldContactsStep(old(contactList), old(contactId), records, i);
        var c := records[i];
        if !ContactKnown(contactList, c.id) {
          contactList := contactList + {c};
          contactId := Inc(contactId);
        }
        i := i + 1;
      }
      assert records[..i] == records;
      if old(Valid()) {
        FoldContactsKeepsIdsUnique(old(contactList), old(contactId), records);
      }
    }

    /** The meeting loop of `loadData` over the results of `toMeeting` on
        the saved meeting array; a null result throws NullPointerException
        on `m.getId()`, with the records before it already loaded. */
    method LoadMeetings(records: seq<Option<Meeting>>) returns (s: Status)
      modifies this
      ensures (meetingList, meetingId) == FoldMeetings(old(meetingList), old(meetingId), Present(records))
      ensures s == Done <==> forall k :: 0 <= k < |records| ==> records[k].Some?
      ensures s != Done ==> s == Failed(NullPointer)
      ensures contactList == old(contactList) && contactId == old(contactId)
      ensures old(Valid()) ==> Valid()
    {
      ghost var loaded := Present(records);
      var i := 0;
      while i < |records|
        invariant 0 <= i <= |loaded|
        invariant forall k :: 0 <= k < i ==> records[k].Some?
        invariant (meetingList, meetingId) == FoldMeetings(old(meetingList), old(meetingId), loaded[..i])
        invariant contactList == old(contactList) && contactId == old(contactId)
      {
        if records[i].None? {
          assert loaded[..i] == loaded;
          if old(Valid()) {
            FoldMeetingsKeepsIdsUnique(old(meetingList), old(meetingId), loaded);
          }
          return Failed(NullPointer);
        }
        FoldMeetingsStep(old(meetingList), old(meetingId), loaded, i);
        var m := records[i].value;
        if !MeetingKnown(meetingList, m.id) {
          meetingList := meetingList + [m];
          meetingId := Inc(meetingId);
        }
        i := i + 1;
      }
      assert loaded[..i] == loaded;
      if old(Valid()) {
        FoldMeetingsKeepsIdsUnique(old(meetingList), old(meetingId), loaded);
      }
      return Done;
    }

    // -------------------------------------------------------------------
    // Reading meetings

    /** `getMeeting(id)`: the loop over the meeting list. */
    method GetMeeting(id: Int32) returns (r: Option<Meeting>)
      ensures r == Lookup(meetingList, id)
    {
      var i := 0;
      while i < |meetingList|
        invariant 0 <= i <= |meetingList|
        invariant forall k :: 0 <= k < i ==> meetingList[k].id != id
      {
        if meetingList[i].id == id {
          return Some(meetingList[i]);
        }
        i := i + 1;
      }
      return None;
    }

    /** `getPastMeeting(id)`, with the current time as `now`. */
    method GetPastMeeting(id: Int32, now: Date) returns (r: Result<Option<Meeting>>)
      ensures r == PastView(meetingList, id, now)
    {
      var meeting := GetMeeting(id);
      if meeting.None? {
        return Ok(None);
      }
      var m := meeting.value;
      if After(m.date, now) {
        return Err(IllegalArgument);
      }
      var notes := "";
      if m.PastMeeting? {
        var again := GetMeeting(id);
        notes := again.value.notes;
      }
      return Ok(Some(NewPastMeeting(id, m.date, m.contacts, Some(notes))));
    }

    /** `getFutureMeeting(id)`: null when no meeting has the id; otherwise a
        future meeting with the stored date and participants, whatever the
        date is. */
    method GetFutureMeeting(id: Int32) returns (r: Option<Meeting>)
      ensures r.None? <==> Lookup(meetingList, id).None?
      ensures r.Some? ==> r.value.FutureMeeting? && r.value.id == id &&
                          r.value.date == Lookup(meetingList, id).value.date &&
                          r.value.contacts == Lookup(meetingList, id).value.contacts
    {
      var meeting := GetMeeting(id);
      if meeting.None? {
        return None;
      }
      return Some(NewFutureMeeting(id, meeting.value.date, meeting.value.contacts));
    }

    /** `getPastMeetingList(contact)`: empty for null;
        IllegalArgumentException when no stored contact has the contact's
        id; otherwise the stored past meetings with a participant of that
        id, highest meeting id first. */
    method GetPastMeetingList(contact: Option<Contact>) returns (r: Result<seq<Meeting>>)
      ensures contact.None? ==> r == Ok([])
      ensures contact.Some? ==>
                (r.Err? <==> !exists c :: c in contactList && c.id == contact.value.id)
      ensures r.Err? ==> r.error == IllegalArgument
      ensures contact.Some? && r.Ok? ==>
                r.value == PastMeetingOrder.Sort(PastMeetingsOf(meetingList, contact.value.id))
      ensures r.Ok? ==> PastMeetingOrder.Sorted(r.value)
      ensures contact.Some? && r.Ok? ==>
                forall m :: multiset(r.value)[m] ==
                              if Attended(m, contact.value.id) then multiset(meetingList)[m] else 0
    {
      if contact.None? {
        return Ok([]);
      }
      var cid := contact.value.id;
      if CountContacts(contactList, cid) == 0 {
        return Err(IllegalArgument);
      }
      var selected: seq<Meeting> := [];
      var i := 0;
      while i < |meetingList|
        invariant 0 <= i <= |meetingList|
        invariant selected == PastMeetingsOf(meetingList[..i], cid)
      {
        assert meetingList[..i + 1][..i] == meetingList[..i];
        var meeting := meetingList[i];
        if meeting.PastMeeting? && CountContacts(meeting.contacts, cid) > 0 {
          selected := selected + [meeting];
        }
        i := i + 1;
      }
      assert meetingList[..i] == meetingList;
      return Ok(PastMeetingOrder.Sort(selected));
    }

    // -------------------------------------------------------------------
    // Changing state

    /** `addMeetingNotes(id, text)`, with the current time as `now`. */
    method AddMeetingNotes(id: Int32, text: Option<string>, now: Date) returns (s: Status)
      modifies this
      ensures WithNotes(old(meetingList), id, text, now).Ok? ==>
                s == Done && meetingList == WithNotes(old(meetingList), id, text, now).value
      ensures WithNotes(old(meetingList), id, text, now).Err? ==>
                s == Failed(WithNotes(old(meetingList), id, text, now).error) && meetingList == old(meetingList)
      ensures contactList == old(contactList) && contactId == old(contactId) && meetingId == old(meetingId)
      ensures old(Valid()) ==> Valid()
    {
      if text.None? {
        return Failed(NullPointer);
      }
      var meeting := GetMeeting(id);
      if meeting.None? {
        return Failed(IllegalArgument);
      }
      var m := meeting.value;
      if After(m.date, now) {
        return Failed(IllegalState);
      }
      var p := NewPastMeeting(id, m.date, m.contacts, text);
      // `remove(meeting)` takes out the element `getMeeting` found: the
      // first with that id.
      var k := FirstIndex(meetingList, id).value;
      ghost var outcome := WithNotes(meetingList, id, text, now);
      assert outcome == Ok(MoveToEnd(meetingList, k, p));
      meetingList := meetingList[..k] + meetingList[k + 1..];
      meetingList := meetingList + [p];
      assert meetingList == outcome.value;
      if old(Valid()) {
        MoveToEndKeepsIdsUnique(old(meetingList), k, p);
      }
      return Done;
    }

    /** `addNewContact(name, notes)`: null notes or a null name throw
        NullPointerException and change nothing; otherwise the contact gets
        the counter plus one as its id and the counter moves on, so while
        every id is at most the counter the new id exceeds all others. */
    method AddNewContact(name: Option<string>, notes: Option<string>) returns (s: Status)
      modifies this
      ensures notes.None? || name.None? ==>
                s == Failed(NullPointer) && contactList == old(contactList) && contactId == old(contactId)
      ensures notes.Some? && name.Some? ==>
                && s == Done
                && contactId == Inc(old(contactId))
                && contactList == old(contactList) + {Contact(contactId, name.value, notes.value)}
      ensures meetingList == old(meetingList) && meetingId == old(meetingId)
      ensures old(contactId) < MAX_INT && old(Valid()) && old(IdsBelowCounter()) ==>
                Valid() && IdsBelowCounter()
      ensures s == Done && old(IdsBelowCounter()) && old(contactId) < MAX_INT ==>
                forall c :: c in old(contactList) ==> c.id < contactId
    {
      if notes.None? {
        return Failed(NullPointer);
      }
      if name.None? {
        return Failed(NullPointer);
      }
      var c := Contact(Inc(contactId), name.value, notes.value);
      contactId := Inc(contactId);
      contactList := contactList + {c};
      return Done;
    }

    // -------------------------------------------------------------------
    // Reading contacts

    /** `getContacts(ids...)`: a null array throws NullPointerException;
        otherwise exactly the stored contacts whose id is among `ids`, and
        IllegalArgumentException when there are none. */
    method GetContactsById(ids: Option<seq<Int32>>) returns (r: Result<set<Contact>>)
      ensures ids.None? ==> r == Err(NullPointer)
      ensures ids.Some? ==> (r.Err? <==> ContactsWithIds(contactList, ids.value) == {})
      ensures ids.Some? && r.Err? ==> r.error == IllegalArgument
      ensures ids.Some? && r.Ok? ==>
                forall c :: c in r.value <==> c in contactList && c.id in ids.value
    {
      if ids.None? {
        return Err(NullPointer);
      }
      var xs := ids.value;
      var result: set<Contact> := {};
      var i := 0;
      while i < |xs|
        invariant 0 <= i <= |xs|
        invariant result == ContactsWithIds(contactList, xs[..i])
      {
        assert xs[..i + 1] == xs[..i] + [xs[i]];
        var matching := set c | c in contactList && c.id == xs[i];
        result := result + matching;
        i := i + 1;
      }
      assert xs[..i] == xs;
      if result == {} {
        return Err(IllegalArgument);
      }
      return Ok(result);
    }

    /** `getContacts(name)`: null throws NullPointerException; otherwise
        the stored contacts whose name contains `name`, possibly none. */
    function GetContactsByName(name: Option<string>): (r: Result<set<Contact>>)
      reads this
      ensures name.None? ==> r == Err(NullPointer)
      ensures name.Some? ==> r.Ok?
      ensures name.Some? ==>
                forall c :: c in r.value <==> c in contactList && Contains(c.name, name.value)
    {
      match name
      case None => Err(NullPointer)
      case Some(t) => Ok(set c | c in contactList && Contains(c.name, t))
    }
  }

  /** Searching for the empty name finds every stored contact. */
  lemma NameSearchEmpty(cm: ContactManager)
    ensures cm.GetContactsByName(Some("")) == Ok(cm.contactList)
  {
    forall c | c in cm.contactList
      ensures Contains(c.name, "")
    {
      ContainsEmpty(c.name);
    }
    assert cm.GetContactsByName(Some("")).value == cm.contactList;
  }
}
