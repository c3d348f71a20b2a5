/** The contact manager's state as values: the lookups, counts, filters and
    load folds its methods are proved against, and the properties they
    keep. */
module StoreSpec {
  import opened Common
  import opened Dates
  import opened Contacts
  import opened Meetings

  // ---------------------------------------------------------------------
  // Lookup and existence

  /** The position of the first meeting in list order with the given id. */
  function FirstIndex(ms: seq<Meeting>, id: Int32): (r: Option<nat>)
    ensures r.None? <==> forall k :: 0 <= k < |ms| ==> ms[k].id != id
    ensures r.Some? ==> r.value < |ms| && ms[r.value].id == id &&
                        forall k :: 0 <= k < r.value ==> ms[k].id != id
  {
    if ms == [] then None
    else if ms[0].id == id then Some(0)
    else match FirstIndex(ms[1..], id)
      case None => None
      case Some(k) => Some(k + 1)
  }

  /** The first position holding the id is what FirstIndex finds. */
  lemma FirstIndexIs(ms: seq<Meeting>, id: Int32, j: nat)
    requires j < |ms| && ms[j].id == id
    requires forall i :: 0 <= i < j ==> ms[i].id != id
    ensures FirstIndex(ms, id) == Some(j)
  {
    var r := FirstIndex(ms, id);
    assert r.Some?;
    assert !(r.value < j) && !(j < r.value);
  }

  /** `getMeeting(id)`: the first meeting with that id, or null. */
  function Lookup(ms: seq<Meeting>, id: Int32): (r: Option<Meeting>)
    ensures r.None? <==> forall k :: 0 <= k < |ms| ==> ms[k].id != id
    ensures r.Some? ==> r.value.id == id && r.value in ms
  {
    match FirstIndex(ms, id)
    case None => None
    case Some(k) => Some(ms[k])
  }

  /** `meetingList.stream().filter(m -> m.getId() == id).count()`. */
  function CountMeetings(ms: seq<Meeting>, id: Int32): (n: nat)
    ensures n <= |ms|
    ensures n > 0 <==> exists k :: 0 <= k < |ms| && ms[k].id == id
  {
    if ms == [] then 0
    else
      var rest := CountMeetings(ms[1..], id);
      assert forall k :: 0 <= k < |ms| - 1 ==> ms[1..][k] == ms[k + 1];
      rest + if ms[0].id == id then 1 else 0
  }

  /** `contacts.stream().filter(c -> c.getId() == id).count()`. */
  function CountContacts(cs: set<Contact>, id: Int32): (n: nat)
    ensures n > 0 <==> exists c :: c in cs && c.id == id
  {
    var matching := set c | c in cs && c.id == id;
    assert forall c :: c in cs && c.id == id ==> c in matching;
    |matching|
  }

  /** `hasContact(id)`: id 0 is never present; otherwise some stored
      contact has the id. */
  function ContactKnown(cs: set<Contact>, id: Int32): (b: bool)
    ensures b <==> id != 0 && exists c :: c in cs && c.id == id
  {
    id != 0 && CountContacts(cs, id) > 0
  }

  /** `hasMeeting(id)`: id 0 is never present; otherwise some stored
      meeting has the id. */
  function MeetingKnown(ms: seq<Meeting>, id: Int32): (b: bool)
    ensures b <==> id != 0 && exists k :: 0 <= k < |ms| && ms[k].id == id
  {
    id != 0 && CountMeetings(ms, id) > 0
  }

  /** Appending a meeting leaves every lookup that already succeeded
      alone, and makes the appended meeting visible for a new id. */
  lemma {:induction false} LookupAppend(ms: seq<Meeting>, m: Meeting, id: Int32)
    ensures Lookup(ms + [m], id) ==
            if Lookup(ms, id).Some? then Lookup(ms, id)
            else if m.id == id then Some(m)
            else None
  {
    var s := ms + [m];
    assert forall k :: 0 <= k < |ms| ==> s[k] == ms[k];
    assert s[|ms|] == m;
  }

  // ---------------------------------------------------------------------
  // Reading a meeting as past or future

  /** `getPastMeeting(id)`: null when no meeting has the id;
      IllegalArgumentException when its date is strictly after now, so a
      meeting at this very moment counts as past; otherwise a past meeting
      with the stored id, date and participants, and the stored notes when
      the stored meeting is already past. */
  function PastView(ms: seq<Meeting>, id: Int32, now: Date): (r: Result<Option<Meeting>>)
    ensures Lookup(ms, id).None? <==> r == Ok(None)
    ensures r.Err? <==> Lookup(ms, id).Some? && After(Lookup(ms, id).value.date, now)
    ensures r.Err? ==> r.error == IllegalArgument
    ensures r.Ok? && r.value.Some? ==>
              var m := Lookup(ms, id).value;
              && r.value.value.PastMeeting?
              && r.value.value.id == m.id
              && r.value.value.date == m.date
              && r.value.value.contacts == m.contacts
              && r.value.value.notes == (if m.PastMeeting? then m.notes else "")
  {
    match Lookup(ms, id)
    case None => Ok(None)
    case Some(m) =>
      if After(m.date, now) then Err(IllegalArgument)
      else Ok(Some(NewPastMeeting(id, m.date, m.contacts, Some(if m.PastMeeting? then m.notes else ""))))
  }

  // ---------------------------------------------------------------------
  // Adding notes: the one transition on the meeting list

  /** The list with element k taken out and p appended: what
      `remove(meeting)` followed by `add(newPastMeeting)` leaves. */
  function MoveToEnd(ms: seq<Meeting>, k: nat, p: Meeting): (r: seq<Meeting>)
    requires k < |ms|
    ensures |r| == |ms| && r[|r| - 1] == p
    ensures forall i :: 0 <= i < k ==> r[i] == ms[i]
    ensures forall i :: k <= i < |ms| - 1 ==> r[i] == ms[i + 1]
    ensures multiset(r) == multiset(ms) - multiset{ms[k]} + multiset{p}
  {
    assert ms == ms[..k] + [ms[k]] + ms[k + 1..];
    ms[..k] + ms[k + 1..] + [p]
  }

  /** No two meetings share an id other than 0, which `hasMeeting` never
      reports as present. */
  ghost predicate MeetingIdsUnique(ms: seq<Meeting>) {
    forall i, j :: 0 <= i < j < |ms| && ms[i].id == ms[j].id ==> ms[i].id == 0
  }

  /** Replacing a meeting by one with the same id keeps the ids unique. */
  lemma MoveToEndKeepsIdsUnique(ms: seq<Meeting>, k: nat, p: Meeting)
    requires k < |ms| && p.id == ms[k].id && MeetingIdsUnique(ms)
    ensures MeetingIdsUnique(MoveToEnd(ms, k, p))
  {
    var r := MoveToEnd(ms, k, p);
    forall i, j | 0 <= i < j < |r| && r[i].id == r[j].id
      ensures r[i].id == 0
    {
      var i' := if i < k then i else i + 1;
      if j == |r| - 1 {
        assert r[i] == ms[i'] && i' != k;
      } else {
        var j' := if j < k then j else j + 1;
        assert r[i] == ms[i'] && r[j] == ms[j'] && i' < j';
      }
    }
  }

  /** At most one meeting holds the id. */
  ghost predicate HeldOnce(ms: seq<Meeting>, id: Int32) {
    forall i, j :: 0 <= i < j < |ms| && ms[i].id == id ==> ms[j].id != id
  }

  /** After the replacement, the id finds the new meeting, provided the id
      was held by that meeting alone. */
  lemma MoveToEndThenLookup(ms: seq<Meeting>, id: Int32, k: nat, p: Meeting)
    requires HeldOnce(ms, id)
    requires FirstIndex(ms, id) == Some(k) && p.id == id
    ensures Lookup(MoveToEnd(ms, k, p), id) == Some(p)
  {
    var r := MoveToEnd(ms, k, p);
    forall i | 0 <= i < |r| - 1
      ensures r[i].id != id
    {
      if i >= k {
        assert r[i] == ms[i + 1] && ms[k].id == id;
      }
    }
    FirstIndexIs(r, id, |r| - 1);
  }

  /** An id held by no meeting is still held by none after the replacement. */
  lemma MoveToEndKeepsMissing(ms: seq<Meeting>, k: nat, p: Meeting, other: Int32)
    requires k < |ms| && p.id != other
    requires forall i :: 0 <= i < |ms| ==> ms[i].id != other
    ensures FirstIndex(MoveToEnd(ms, k, p), other).None?
  {
    var r := MoveToEnd(ms, k, p);
    forall i | 0 <= i < |r|
      ensures r[i].id != other
    {
      if i < k {
        assert r[i] == ms[i];
      } else if i < |r| - 1 {
        assert r[i] == ms[i + 1];
      }
    }
  }

  /** An id first held at position j, other than the replaced one, is
      first held by the same meeting after the replacement. */
  lemma MoveToEndKeepsFound(ms: seq<Meeting>, k: nat, p: Meeting, other: Int32, j: nat)
    requires k < |ms| && j < |ms| && j != k
    requires ms[j].id == other && forall i :: 0 <= i < j ==> ms[i].id != other
    ensures var r := MoveToEnd(ms, k, p);
            var j' := if j < k then j else j - 1;
            j' < |r| && r[j'] == ms[j] && FirstIndex(r, other) == Some(j')
  {
    var r := MoveToEnd(ms, k, p);
    var j' := if j < k then j else j - 1;
    assert r[j'] == ms[j];
    forall i | 0 <= i < j'
      ensures r[i].id != other
    {
      if i < k {
        assert r[i] == ms[i];
      } else {
        assert r[i] == ms[i + 1];
      }
    }
    FirstIndexIs(r, other, j');
  }

  /** The replacement changes no lookup of any other id. */
  lemma MoveToEndKeepsOtherLookups(ms: seq<Meeting>, id: Int32, k: nat, p: Meeting, other: Int32)
    requires FirstIndex(ms, id) == Some(k) && p.id == id && other != id
    ensures Lookup(MoveToEnd(ms, k, p), other) == Lookup(ms, other)
  {
    match FirstIndex(ms, other)
    case None =>
      MoveToEndKeepsMissing(ms, k, p, other);
    case Some(j) =>
      MoveToEndKeepsFound(ms, k, p, other, j);
  }

  /** `addMeetingNotes(id, text)` as a transition on the meeting list:
      null text throws NullPointerException, an unknown id
      IllegalArgumentException, a date strictly after now
      IllegalStateException; otherwise the first meeting with the id is
      taken out and a past meeting with its id, date and participants and
      the given notes is appended. */
  function WithNotes(ms: seq<Meeting>, id: Int32, text: Option<string>, now: Date): (r: Result<seq<Meeting>>)
    ensures text.None? ==> r == Err(NullPointer)
    ensures text.Some? && Lookup(ms, id).None? ==> r == Err(IllegalArgument)
    ensures text.Some? && Lookup(ms, id).Some? ==>
              (r == Err(IllegalState) <==> After(Lookup(ms, id).value.date, now))
    ensures r.Err? ==> r.error in {NullPointer, IllegalArgument, IllegalState}
    ensures r.Ok? ==> |r.value| == |ms| && text.Some? && Lookup(ms, id).Some?
  {
    if text.None? then Err(NullPointer)
    else match FirstIndex(ms, id)
      case None => Err(IllegalArgument)
      case Some(k) =>
        var m := ms[k];
        if After(m.date, now) then Err(IllegalState)
        else Ok(MoveToEnd(ms, k, NewPastMeeting(id, m.date, m.contacts, text)))
  }

  /** After notes are added, the last meeting is a past meeting with the
      date and participants the id's meeting had and the given notes, and
      `getPastMeeting` returns it, provided one meeting alone held the id. */
  lemma WithNotesThenPastView(ms: seq<Meeting>, id: Int32, text: string, now: Date)
    requires WithNotes(ms, id, Some(text), now).Ok?
    ensures var m := Lookup(ms, id).value;
            var p := PastMeeting(id, m.date, m.contacts, text);
            WithNotes(ms, id, Some(text), now).value[|ms| - 1] == p
    ensures var m := Lookup(ms, id).value;
            var p := PastMeeting(id, m.date, m.contacts, text);
            HeldOnce(ms, id) ==> PastView(WithNotes(ms, id, Some(text), now).value, id, now) == Ok(Some(p))
  {
    var k := FirstIndex(ms, id).value;
    if HeldOnce(ms, id) {
      MoveToEndThenLookup(ms, id, k, PastMeeting(id, ms[k].date, ms[k].contacts, text));
    }
  }

  /** In a store with unique nonzero ids every nonzero id is held at most
      once. */
  lemma UniqueIdsHeldOnce(ms: seq<Meeting>, id: Int32)
    requires MeetingIdsUnique(ms) && id != 0
    ensures HeldOnce(ms, id)
  {
  }

  /** Adding notes changes no lookup of another id, and keeps ids unique. */
  lemma WithNotesKeepsTheRest(ms: seq<Meeting>, id: Int32, text: string, now: Date, other: Int32)
    requires WithNotes(ms, id, Some(text), now).Ok? && other != id
    ensures Lookup(WithNotes(ms, id, Some(text), now).value, other) == Lookup(ms, other)
    ensures MeetingIdsUnique(ms) ==> MeetingIdsUnique(WithNotes(ms, id, Some(text), now).value)
  {
    var k := FirstIndex(ms, id).value;
    var p := PastMeeting(id, ms[k].date, ms[k].contacts, text);
    MoveToEndKeepsOtherLookups(ms, id, k, p, other);
    if MeetingIdsUnique(ms) {
      MoveToEndKeepsIdsUnique(ms, k, p);
    }
  }

  // ---------------------------------------------------------------------
  // Past meetings of a contact

  /** The meeting is a stored past meeting one of whose participants has
      the contact's id. */
  predicate Attended(m: Meeting, cid: Int32) {
    m.PastMeeting? && CountContacts(m.contacts, cid) > 0
  }

  /** The meetings `getPastMeetingList` collects before sorting: the past
      meetings with a participant of that id, in list order. */
  function PastMeetingsOf(ms: seq<Meeting>, cid: Int32): (r: seq<Meeting>)
    ensures forall m :: multiset(r)[m] == if Attended(m, cid) then multiset(ms)[m] else 0
  {
    if ms == [] then []
    else
      var front := ms[..|ms| - 1];
      var last := ms[|ms| - 1];
      assert ms == front + [last];
      PastMeetingsOf(front, cid) + if Attended(last, cid) then [last] else []
  }

  // ---------------------------------------------------------------------
  // Contacts by id and by name

  /** The stored contacts whose id is one of `ids`. */
  function ContactsWithIds(cs: set<Contact>, ids: seq<Int32>): set<Contact> {
    set c | c in cs && c.id in ids
  }

  /** t occurs in s starting at position i. */
  predicate OccursAt(s: string, t: string, i: int) {
    0 <= i <= |s| - |t| && s[i..i + |t|] == t
  }

  /** `s.contains(t)`: t occurs in s at some position. */
  function Contains(s: string, t: string): (b: bool)
    ensures b <==> exists i :: OccursAt(s, t, i)
    decreases |s|
  {
    if |t| > |s| then false
    else if s[..|t|] == t then assert OccursAt(s, t, 0); true
    else
      var rest := Contains(s[1..], t);
      assert forall i :: OccursAt(s[1..], t, i) ==> OccursAt(s, t, i + 1);
      assert forall i :: OccursAt(s, t, i) ==> OccursAt(s[1..], t, i - 1);
      rest
  }

  /** Every string contains the empty string. */
  lemma ContainsEmpty(s: string)
    ensures Contains(s, "")
  {
    assert OccursAt(s, "", 0);
  }

  // ---------------------------------------------------------------------
  // The load loops

  /** No two stored contacts share an id other than 0. */
  ghost predicate ContactIdsUnique(cs: set<Contact>) {
    forall c, d :: c in cs && d in cs && c.id == d.id && c.id != 0 ==> c == d
  }

  /** One step of the contact loop of `loadData`: a record whose id is
      already present is skipped; any other is added and the counter
      moves on. */
  function LoadContact(cs: set<Contact>, counter: Int32, c: Contact): (r: (set<Contact>, Int32))
    ensures cs <= r.0 <= cs + {c}
    ensures c.id != 0 ==> ContactKnown(r.0, c.id)
    ensures ContactKnown(cs, c.id) ==> r == (cs, counter)
    ensures !ContactKnown(cs, c.id) ==> c in r.0 && r.1 == Inc(counter)
  {
    if ContactKnown(cs, c.id) then (cs, counter) else (cs + {c}, Inc(counter))
  }

  /** The contact loop of `loadData` over already decoded records. */
  function FoldContacts(cs: set<Contact>, counter: Int32, rs: seq<Contact>): (r: (set<Contact>, Int32))
    ensures cs <= r.0 && |r.0| <= |cs| + |rs|
  {
    if rs == [] then (cs, counter)
    else
      var (cs', counter') := FoldContacts(cs, counter, rs[..|rs| - 1]);
      LoadContact(cs', counter', rs[|rs| - 1])
  }

  /** The fold over one more record is one more step. */
  lemma FoldContactsStep(cs: set<Contact>, counter: Int32, rs: seq<Contact>, i: nat)
    requires i < |rs|
    ensures FoldContacts(cs, counter, rs[..i + 1]) ==
            LoadContact(FoldContacts(cs, counter, rs[..i]).0, FoldContacts(cs, counter, rs[..i]).1, rs[i])
  {
    assert rs[..i + 1][..i] == rs[..i];
  }

  /** Loading keeps contact ids unique, keeps every contact already
      stored, and adds only loaded records. */
  lemma {:induction false} FoldContactsKeepsIdsUnique(cs: set<Contact>, counter: Int32, rs: seq<Contact>)
    requires ContactIdsUnique(cs)
    ensures ContactIdsUnique(FoldContacts(cs, counter, rs).0)
    ensures cs <= FoldContacts(cs, counter, rs).0
    ensures forall c :: c in FoldContacts(cs, counter, rs).0 ==> c in cs || c in rs
  {
    if rs != [] {
      var front := rs[..|rs| - 1];
      FoldContactsKeepsIdsUnique(cs, counter, front);
    }
    FoldContactsIdsFrom(cs, counter, rs);
  }

  /** The first record with a given id wins: it is loaded unless a stored
      contact already has the id. */
  lemma {:induction false} FoldContactsFirstWins(cs: set<Contact>, counter: Int32, rs: seq<Contact>, k: nat)
    requires k < |rs| && !ContactKnown(cs, rs[k].id)
    requires forall j :: 0 <= j < k ==> rs[j].id != rs[k].id
    ensures rs[k] in FoldContacts(cs, counter, rs).0
  {
    var front := rs[..|rs| - 1];
    if k < |front| {
      FoldContactsFirstWins(cs, counter, front, k);
      assert forall j :: 0 <= j < k ==> front[j] == rs[j];
      FoldContactsKeepsContents(cs, counter, front, rs[|rs| - 1]);
    } else {
      FoldContactsIdsFrom(cs, counter, front);
      assert forall j :: 0 <= j < |front| ==> front[j] == rs[j];
    }
  }

  /** A load step never drops a contact. */
  lemma FoldContactsKeepsContents(cs: set<Contact>, counter: Int32, front: seq<Contact>, c: Contact)
    ensures FoldContacts(cs, counter, front).0 <= FoldContacts(cs, counter, front + [c]).0
  {
    assert (front + [c])[..|front|] == front;
  }

  /** Every contact the load added is one of the records. */
  lemma {:induction false} FoldContactsIdsFrom(cs: set<Contact>, counter: Int32, rs: seq<Contact>)
    ensures forall c :: c in FoldContacts(cs, counter, rs).0 ==> c in cs || exists j :: 0 <= j < |rs| && rs[j] == c
  {
    if rs != [] {
      var front := rs[..|rs| - 1];
      FoldContactsIdsFrom(cs, counter, front);
      assert forall j :: 0 <= j < |front| ==> front[j] == rs[j];
    }
  }

  /** The counter moves on by one per accepted record: when no record has
      id 0 and the counter cannot wrap, it grows exactly as much as the
      contact set. */
  lemma {:induction false} FoldContactsCounter(cs: set<Contact>, counter: Int32, rs: seq<Contact>)
    requires forall k :: 0 <= k < |rs| ==> rs[k].id != 0
    requires counter as int + |rs| <= MAX_INT
    ensures |FoldContacts(cs, counter, rs).0| - |cs| == FoldContacts(cs, counter, rs).1 - counter
    ensures FoldContacts(cs, counter, rs).1 - counter <= |rs|
  {
    if rs != [] {
      var front := rs[..|rs| - 1];
      assert forall k :: 0 <= k < |front| ==> front[k] == rs[k];
      FoldContactsCounter(cs, counter, front);
      var (r, n) := FoldContacts(cs, counter, front);
      var c := rs[|rs| - 1];
      if !ContactKnown(r, c.id) {
        assert c !in r;
      }
    }
  }

  /** The decoded meeting records before the first null: the records the
      meeting loop gets through before `m.getId()` throws on a null that
      `toMeeting` returned. */
  function Present(rs: seq<Option<Meeting>>): (ms: seq<Meeting>)
    ensures |ms| <= |rs|
    ensures forall k :: 0 <= k < |ms| ==> rs[k] == Some(ms[k])
    ensures |ms| < |rs| ==> rs[|ms|].None?
  {
    if rs == [] || rs[0].None? then []
    else [rs[0].value] + Present(rs[1..])
  }

  /** One step of the meeting loop of `loadData`. */
  function LoadMeeting(ms: seq<Meeting>, counter: Int32, m: Meeting): (r: (seq<Meeting>, Int32))
    ensures r.0 == ms || r.0 == ms + [m]
    ensures m.id != 0 ==> MeetingKnown(r.0, m.id)
    ensures MeetingKnown(ms, m.id) ==> r == (ms, counter)
    ensures !MeetingKnown(ms, m.id) ==> r == (ms + [m], Inc(counter))
  {
    if MeetingKnown(ms, m.id) then (ms, counter)
    else
      assert (ms + [m])[|ms|] == m;
      (ms + [m], Inc(counter))
  }

  /** The meeting loop of `loadData` over already decoded records. */
  function FoldMeetings(ms: seq<Meeting>, counter: Int32, rs: seq<Meeting>): (r: (seq<Meeting>, Int32))
    ensures |ms| <= |r.0| <= |ms| + |rs| && r.0[..|ms|] == ms
  {
    if rs == [] then (ms, counter)
    else
      var (ms', counter') := FoldMeetings(ms, counter, rs[..|rs| - 1]);
      LoadMeeting(ms', counter', rs[|rs| - 1])
  }

  /** The fold over one more record is one more step. */
  lemma FoldMeetingsStep(ms: seq<Meeting>, counter: Int32, rs: seq<Meeting>, i: nat)
    requires i < |rs|
    ensures FoldMeetings(ms, counter, rs[..i + 1]) ==
            LoadMeeting(FoldMeetings(ms, counter, rs[..i]).0, FoldMeetings(ms, counter, rs[..i]).1, rs[i])
  {
    assert rs[..i + 1][..i] == rs[..i];
  }

  /** The first occurrence wins: after loading, every id finds the meeting
      it finds in the stored list followed by all the records. */
  lemma {:induction false} FoldMeetingsFirstWins(ms: seq<Meeting>, counter: Int32, rs: seq<Meeting>, id: Int32)
    ensures Lookup(FoldMeetings(ms, counter, rs).0, id) == Lookup(ms + rs, id)
  {
    if rs == [] {
      assert ms + rs == ms;
    } else {
      var front := rs[..|rs| - 1];
      var m := rs[|rs| - 1];
      var r := FoldMeetings(ms, counter, front).0;
      assert ms + rs == (ms + front) + [m];
      FoldMeetingsFirstWins(ms, counter, front, id);
      LookupAppend(ms + front, m, id);
      if MeetingKnown(r, m.id) {
        FoldMeetingsFirstWins(ms, counter, front, m.id);
        LookupAppend(ms + front, m, m.id);
        assert Lookup(r, m.id).Some?;
      } else {
        LookupAppend(r, m, id);
        if m.id == id {
          FoldMeetingsFirstWins(ms, counter, front, m.id);
          assert Lookup(r, m.id).None? || m.id == 0;
          if m.id == 0 && Lookup(r, 0).Some? {
            var k := FirstIndex(r, 0).value;
            assert r[k].id == 0;
          }
        }
      }
    }
  }

  /** Loading keeps meeting ids unique and only appends to the list. */
  lemma {:induction false} FoldMeetingsKeepsIdsUnique(ms: seq<Meeting>, counter: Int32, rs: seq<Meeting>)
    requires MeetingIdsUnique(ms)
    ensures MeetingIdsUnique(FoldMeetings(ms, counter, rs).0)
    ensures ms <= FoldMeetings(ms, counter, rs).0
  {
    if rs != [] {
      var front := rs[..|rs| - 1];
      FoldMeetingsKeepsIdsUnique(ms, counter, front);
      var r := FoldMeetings(ms, counter, front).0;
      var m := rs[|rs| - 1];
      if !MeetingKnown(r, m.id) {
        var s := r + [m];
        forall i, j | 0 <= i < j < |s| && s[i].id == s[j].id
          ensures s[i].id == 0
        {
          if j == |r| {
            assert r[i].id == m.id;
          } else {
            assert s[i] == r[i] && s[j] == r[j];
          }
        }
      }
    }
  }

  /** The counter moves on by one per accepted record, unless it wraps. */
  lemma {:induction false} FoldMeetingsCounter(ms: seq<Meeting>, counter: Int32, rs: seq<Meeting>)
    requires counter as int + |rs| <= MAX_INT
    ensures FoldMeetings(ms, counter, rs).1 - counter == |FoldMeetings(ms, counter, rs).0| - |ms| <= |rs|
  {
    if rs != [] {
      FoldMeetingsCounter(ms, counter, rs[..|rs| - 1]);
    }
  }

  /** Loading into an empty store records with distinct nonzero ids keeps
      every record, in order, and counts them. */
  lemma {:induction false} FoldMeetingsOfDistinct(rs: seq<Meeting>)
    requires forall i :: 0 <= i < |rs| ==> rs[i].id != 0
    requires forall i, j :: 0 <= i < j < |rs| ==> rs[i].id != rs[j].id
    requires |rs| <= MAX_INT
    ensures FoldMeetings([], 0, rs) == (rs, |rs|)
  {
    if rs != [] {
      var front := rs[..|rs| - 1];
      FoldMeetingsOfDistinct(front);
      var m := rs[|rs| - 1];
      assert !MeetingKnown(front, m.id);
      assert front + [m] == rs;
    }
  }

  /** Loading into an empty store an enumeration of a set of contacts with
      distinct nonzero ids gives back the set, and counts it. */
  lemma {:induction false} FoldContactsOfDistinct(rs: seq<Contact>)
    requires forall i :: 0 <= i < |rs| ==> rs[i].id != 0
    requires forall i, j :: 0 <= i < j < |rs| ==> rs[i].id != rs[j].id
    requires |rs| <= MAX_INT
    ensures FoldContacts({}, 0, rs).0 == set c | c in rs
    ensures FoldContacts({}, 0, rs).1 == |rs|
  {
    if rs != [] {
      var front := rs[..|rs| - 1];
      FoldContactsOfDistinct(front);
      var m := rs[|rs| - 1];
      assert (set c | c in rs) == (set c | c in front) + {m};
    }
  }

  /** The counter counts accepted records and does not move past the ids
      they carry. Loading one contact with id 5 into an empty store leaves
      the counter at 1, so the fourth contact `addNewContact` adds after the
      load gets id 5 as well, and two contacts then share it. */
  lemma LoadedIdReissued()
    ensures var loaded := FoldContacts({}, 0, [Contact(5, "a", "")]);
            && loaded == ({Contact(5, "a", "")}, 1)
            && Inc(Inc(Inc(Inc(loaded.1)))) == 5
            && !ContactIdsUnique(loaded.0 + {Contact(5, "b", "")})
  {
    var rs := [Contact(5, "a", "")];
    assert rs[..0] == [];
    var both := {Contact(5, "a", ""), Contact(5, "b", "")};
    assert Contact(5, "a", "") in both && Contact(5, "b", "") in both;
  }
}
