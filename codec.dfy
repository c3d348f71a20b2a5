/** The record codec (JSONUtilsImpl): contacts, meetings and dates to JSON
    records and back. Every decoder reads its keys in the order the Java
    code does, so the first key that is missing or malformed decides which
    exception is thrown. */
module Codec {
  import opened Common
  import opened Dates
  import opened Contacts
  import opened Meetings
  import opened Json

  // ---------------------------------------------------------------------
  // Contacts

  /** The three fields a contact is written as, both by `toJSONObject` and
      inline for each participant of a meeting. */
  function ContactFields(c: Contact): Record {
    map["id" := JInt(c.id), "name" := JStr(c.name), "notes" := JStr(c.notes)]
  }

  function ContactJson(c: Contact): Json {
    JObj(ContactFields(c))
  }

  /** `toJSONObject(Contact)`: a null contact gives an empty record. */
  function EncodeContact(c: Option<Contact>): (r: Record)
    ensures c.None? ==> r == map[]
    ensures c.Some? ==> r.Keys == {"id", "name", "notes"}
  {
    match c
    case None => map[]
    case Some(x) => ContactFields(x)
  }

  /** `toContact` on a record that is not null: the id, then the name, then
      the notes, each through `toString`. */
  function ContactOfFields(r: Record): Result<Contact> {
    var id :- IntAt(r, "id");
    var name :- StringAt(r, "name");
    var notes :- StringAt(r, "notes");
    Ok(Contact(id, name, notes))
  }

  /** `toContact(jObject)`: null gives null; a record without an id throws
      NullPointerException; a contact comes back only from a record that has
      all three keys. */
  function ToContact(jo: Option<Record>): (r: Result<Option<Contact>>)
    ensures jo.None? <==> r == Ok(None)
    ensures jo.Some? && "id" !in jo.value ==> r == Err(NullPointer)
    ensures jo.Some? && r.Ok? ==> {"id", "name", "notes"} <= jo.value.Keys
  {
    match jo
    case None => Ok(None)
    case Some(f) =>
      var c :- ContactOfFields(f);
      Ok(Some(c))
  }

  /** Writing a contact and reading the record back gives the same id, name
      and notes. */
  lemma ContactRoundTrip(c: Contact)
    ensures ToContact(Some(EncodeContact(Some(c)))) == Ok(Some(c))
  {
  }

  // ---------------------------------------------------------------------
  // Dates

  const DATE_KEYS: set<string> := {"year", "month", "day", "hour", "minute", "second"}

  /** `toJSONObject(Calendar)`: six number fields, the month zero-based; a
      null date gives an empty record. */
  function EncodeDate(d: Option<Date>): (r: Record)
    ensures d.None? ==> r == map[]
    ensures d.Some? ==> r.Keys == DATE_KEYS && forall k :: k in r ==> r[k].JInt?
  {
    match d
    case None => map[]
    case Some(x) =>
      map["year" := JInt(x.year), "month" := JInt(x.month), "day" := JInt(x.day),
          "hour" := JInt(x.hour), "minute" := JInt(x.minute), "second" := JInt(x.second)]
  }

  /** `toCalendar(jObject)`. For null the Java code returns the current
      time, which this model does not read. */
  function ToCalendar(jo: Option<Record>): (r: Result<Date>)
    ensures jo.None? ==> r == Err(Unmodelled)
    ensures jo.Some? && r.Ok? ==> DATE_KEYS <= jo.value.Keys
  {
    match jo
    case None => Err(Unmodelled)
    case Some(f) =>
      var year :- IntAt(f, "year");
      var month :- IntAt(f, "month");
      var day :- IntAt(f, "day");
      var hour :- IntAt(f, "hour");
      var minute :- IntAt(f, "minute");
      var second :- IntAt(f, "second");
      Ok(Date(year, month, day, hour, minute, second))
  }

  /** Writing a date and reading it back gives the same six fields. */
  lemma DateRoundTrip(d: Date)
    ensures ToCalendar(Some(EncodeDate(Some(d)))) == Ok(d)
  {
  }

  // ---------------------------------------------------------------------
  // Meetings: encoding

  /** The keys of a meeting record: notes only for a past meeting. */
  function MeetingKeys(m: Meeting): set<string> {
    if m.PastMeeting? then {"type", "id", "date", "notes", "contacts"}
    else {"type", "id", "date", "contacts"}
  }

  /** The contact records of a sequence of participants, in that order. */
  function ContactJsons(order: seq<Contact>): (items: seq<Json>)
    ensures |items| == |order|
    ensures forall k :: 0 <= k < |order| ==> items[k] == ContactJson(order[k])
  {
    if order == [] then []
    else ContactJsons(order[..|order| - 1]) + [ContactJson(order[|order| - 1])]
  }

  /** `order` lists every element of `cs` exactly once: an iteration order
      of the set. */
  ghost predicate Enumerates(order: seq<Contact>, cs: set<Contact>) {
    && (forall c :: c in order <==> c in cs)
    && (forall i, j :: 0 <= i < j < |order| ==> order[i] != order[j])
  }

  /** `items` holds one contact record per participant of `cs`, in the
      iteration order of the HashSet, which the model leaves open. */
  ghost predicate ListsContacts(items: seq<Json>, cs: set<Contact>) {
    exists order :: Enumerates(order, cs) && items == ContactJsons(order)
  }

  /** `r` is a record `toJSONObject(m)` can return. */
  ghost predicate IsMeetingRecord(m: Meeting, r: Record) {
    && r.Keys == MeetingKeys(m)
    && r["type"] == JStr(TypeTag(m))
    && r["id"] == JInt(m.id)
    && r["date"] == JObj(EncodeDate(Some(m.date)))
    && (m.PastMeeting? ==> r["notes"] == JStr(m.notes))
    && r["contacts"].JArr?
    && ListsContacts(r["contacts"].items, m.contacts)
  }

  /** `toJSONObject(Meeting)`: a null meeting gives an empty record;
      otherwise the type tag, id, date, notes for a past meeting, and one
      contact record per participant. */
  method EncodeMeeting(m: Option<Meeting>) returns (r: Record)
    ensures m.None? ==> r == map[]
    ensures m.Some? ==> IsMeetingRecord(m.value, r)
  {
    if m.None? {
      return map[];
    }
    var meeting := m.value;
    r := map["type" := JStr(TypeTag(meeting)), "id" := JInt(meeting.id),
             "date" := JObj(EncodeDate(Some(meeting.date)))];
    if meeting.PastMeeting? {
      r := r["notes" := JStr(meeting.notes)];
    }
    var items: seq<Json> := [];
    var rest := meeting.contacts;
    ghost var order: seq<Contact> := [];
    while rest != {}
      invariant forall c :: c in order <==> c in meeting.contacts && c !in rest
      invariant rest <= meeting.contacts
      invariant forall i, j :: 0 <= i < j < |order| ==> order[i] != order[j]
      invariant items == ContactJsons(order)
      decreases rest
    {
      var c :| c in rest;
      items := items + [ContactJson(c)];
      order := order + [c];
      rest := rest - {c};
    }
    assert Enumerates(order, meeting.contacts);
    r := r["contacts" := JArr(items)];
  }

  /** A meeting record has a notes key exactly when its tag is
      "PastMeeting". */
  lemma NotesKeyIffPastTag(m: Meeting, r: Record)
    requires IsMeetingRecord(m, r)
    ensures "notes" in r <==> r["type"] == JStr(PAST_MEETING_TAG)
  {
  }

  // ---------------------------------------------------------------------
  // Meetings: decoding

  /** One element of the contacts array: the iterator's cast to
      JSONObject, then `toContact`. */
  function ItemContact(v: Json): Result<Contact> {
    match v
    case JObj(f) => ContactOfFields(f)
    case _ => Err(ClassCast)
  }

  /** The set a loop builds by adding `decode(x)` for each element x in
      turn; the first element that fails stops it with that failure. */
  function Collect<X, Y>(xs: seq<X>, decode: X -> Result<Y>): Result<set<Y>> {
    if xs == [] then Ok({})
    else
      var s :- Collect(xs[..|xs| - 1], decode);
      var y :- decode(xs[|xs| - 1]);
      Ok(s + {y})
  }

  /** Some element of xs decodes to y. */
  ghost predicate DecodesTo<X, Y>(xs: seq<X>, decode: X -> Result<Y>, y: Y) {
    exists k :: 0 <= k < |xs| && decode(xs[k]) == Ok(y)
  }

  /** The collection succeeds when every element decodes, and holds exactly
      the decoded elements. */
  lemma {:induction false} CollectDecodesEach<X, Y>(xs: seq<X>, decode: X -> Result<Y>)
    ensures Collect(xs, decode).Ok? <==> forall k :: 0 <= k < |xs| ==> decode(xs[k]).Ok?
    ensures Collect(xs, decode).Ok? ==> forall y :: y in Collect(xs, decode).value <==> DecodesTo(xs, decode, y)
  {
    if xs != [] {
      var front := xs[..|xs| - 1];
      var last := xs[|xs| - 1];
      CollectDecodesEach(front, decode);
      assert forall k :: 0 <= k < |front| ==> front[k] == xs[k];
      if Collect(front, decode).Ok? && decode(last).Ok? {
        var r := Collect(xs, decode).value;
        assert r == Collect(front, decode).value + {decode(last).value};
        forall y | y in r
          ensures DecodesTo(xs, decode, y)
        {
          if y != decode(last).value {
            assert DecodesTo(front, decode, y);
            var k :| 0 <= k < |front| && decode(front[k]) == Ok(y);
            assert decode(xs[k]) == Ok(y);
          } else {
            assert decode(xs[|xs| - 1]) == Ok(y);
          }
        }
        forall y | DecodesTo(xs, decode, y)
          ensures y in r
        {
          var k :| 0 <= k < |xs| && decode(xs[k]) == Ok(y);
          if k < |front| {
            assert decode(front[k]) == Ok(y);
            assert DecodesTo(front, decode, y);
          }
        }
      } else if Collect(front, decode).Err? {
        var k :| 0 <= k < |front| && decode(front[k]).Err?;
        assert decode(xs[k]).Err?;
      } else {
        assert decode(xs[|xs| - 1]).Err?;
      }
    }
  }

  /** The set the private `getContacts` loop builds from an array: the
      `toContact` result of every element. */
  function ContactsOf(items: seq<Json>): Result<set<Contact>> {
    Collect(items, ItemContact)
  }

  /** Once a prefix fails, the whole sequence fails the same way: the
      loop stops at the first element that throws. */
  lemma {:induction false} CollectStopsAtError<X, Y>(xs: seq<X>, decode: X -> Result<Y>, n: nat)
    requires n <= |xs| && Collect(xs[..n], decode).Err?
    ensures Collect(xs, decode) == Collect(xs[..n], decode)
    decreases |xs| - n
  {
    if n < |xs| {
      assert xs[..n + 1][..n] == xs[..n];
      CollectStopsAtError(xs, decode, n + 1);
    } else {
      assert xs[..n] == xs;
    }
  }

  /** One more element: the collection of a longer prefix is the shorter
      one's plus the new decoding, or the first failure. */
  lemma CollectStep<X, Y>(xs: seq<X>, decode: X -> Result<Y>, i: nat)
    requires i < |xs|
    ensures Collect(xs[..i + 1], decode) ==
            if Collect(xs[..i], decode).Err? then Collect(xs[..i], decode)
            else if decode(xs[i]).Err? then Err(decode(xs[i]).error)
            else Ok(Collect(xs[..i], decode).value + {decode(xs[i]).value})
  {
    assert xs[..i + 1][..i] == xs[..i];
  }

  /** `getContacts(jObject)`: a missing array is null, whose iterator
      throws NullPointerException; a value that is not an array fails the
      cast to JSONArray. */
  function ContactsField(r: Record): Result<set<Contact>> {
    if "contacts" !in r then Err(NullPointer)
    else match r["contacts"]
      case JArr(items) => ContactsOf(items)
      case _ => Err(ClassCast)
  }

  /** The private `getContacts`, as the loop it is. */
  method GetContacts(r: Record) returns (res: Result<set<Contact>>)
    ensures res == ContactsField(r)
  {
    if "contacts" !in r {
      return Err(NullPointer);
    }
    if !r["contacts"].JArr? {
      return Err(ClassCast);
    }
    var items := r["contacts"].items;
    var contacts: set<Contact> := {};
    var i := 0;
    while i < |items|
      invariant 0 <= i <= |items|
      invariant ContactsOf(items[..i]) == Ok(contacts)
    {
      CollectStep(items, ItemContact, i);
      var c := ItemContact(items[i]);
      if c.Err? {
        CollectStopsAtError(items, ItemContact, i + 1);
        return Err(c.error);
      }
      contacts := contacts + {c.value};
      i := i + 1;
    }
    assert items[..|items|] == items;
    res := Ok(contacts);
  }

  /** The part that `toMeeting`, `toPastMeeting` and `toFutureMeeting`
      share, read in their order: type, id, date, contacts. */
  datatype Header = Header(tag: Option<string>, id: Int32, date: Date, contacts: set<Contact>)

  /** The date: a missing key is null, which `toCalendar` turns into the
      current time; a value that is not an object fails the cast. */
  function DateField(r: Record): Result<Date> {
    if "date" !in r then ToCalendar(None)
    else match r["date"]
      case JObj(f) => ToCalendar(Some(f))
      case _ => Err(ClassCast)
  }

  /** The shared header: a missing type is null, whose `toString` throws
      NullPointerException; a header read in full carries the record's tag
      and id and comes from a record with a contacts array. */
  function ReadHeader(r: Record): (h: Result<Header>)
    ensures "type" !in r ==> h == Err(NullPointer)
    ensures h.Ok? ==> h.value.tag == TagOf(r) && IntAt(r, "id") == Ok(h.value.id)
    ensures h.Ok? ==> "contacts" in r && r["contacts"].JArr? && ContactsField(r) == Ok(h.value.contacts)
  {
    if "type" !in r then Err(NullPointer)
    else
      var tag := ReadTag(r["type"]);
      var id :- IntAt(r, "id");
      var date :- DateField(r);
      var contacts :- ContactsField(r);
      Ok(Header(tag, id, date, contacts))
  }

  /** The tag a record carries, when it has one that could be compared. */
  function TagOf(r: Record): Option<string> {
    if "type" in r then ReadTag(r["type"]) else None
  }

  /** `toMeeting(jObject)`: only the "Meeting" tag is accepted; any other
      tag throws IllegalArgumentException once the rest of the record has
      been read. The constructor's exception for an empty contact set is
      caught, and null is returned instead. */
  function ToMeeting(jo: Option<Record>): (r: Result<Option<Meeting>>)
    ensures jo.None? ==> r == Ok(None)
    ensures jo.Some? && r.Ok? ==> TagOf(jo.value) == Some(MEETING_TAG)
    ensures jo.Some? && ReadHeader(jo.value).Ok? && TagOf(jo.value) != Some(MEETING_TAG) ==>
              r == Err(IllegalArgument)
    ensures r.Ok? && r.value.Some? ==> r.value.value.PlainMeeting? && r.value.value.contacts != {}
  {
    match jo
    case None => Ok(None)
    case Some(f) =>
      var h :- ReadHeader(f);
      if h.tag != Some(MEETING_TAG) then Err(IllegalArgument)
      else match NewMeeting(h.id, h.date, Some(h.contacts))
        case Ok(m) => Ok(Some(m))
        case Err(_) => Ok(None)
  }

  /** `toPastMeeting(jObject)`: only the "PastMeeting" tag is accepted; the
      notes are read after the tag check. */
  function ToPastMeeting(jo: Option<Record>): (r: Result<Option<Meeting>>)
    ensures jo.None? <==> r == Ok(None)
    ensures jo.Some? && r.Ok? ==> TagOf(jo.value) == Some(PAST_MEETING_TAG) && "notes" in jo.value
    ensures jo.Some? && ReadHeader(jo.value).Ok? && TagOf(jo.value) != Some(PAST_MEETING_TAG) ==>
              r == Err(IllegalArgument)
    ensures r.Ok? && r.value.Some? ==> r.value.value.PastMeeting?
  {
    match jo
    case None => Ok(None)
    case Some(f) =>
      var h :- ReadHeader(f);
      if h.tag != Some(PAST_MEETING_TAG) then Err(IllegalArgument)
      else
        var notes :- StringAt(f, "notes");
        Ok(Some(NewPastMeeting(h.id, h.date, h.contacts, Some(notes))))
  }

  /** `toFutureMeeting(jObject)`: only the "FutureMeeting" tag is accepted. */
  function ToFutureMeeting(jo: Option<Record>): (r: Result<Option<Meeting>>)
    ensures jo.None? <==> r == Ok(None)
    ensures jo.Some? && r.Ok? ==> TagOf(jo.value) == Some(FUTURE_MEETING_TAG)
    ensures jo.Some? && ReadHeader(jo.value).Ok? && TagOf(jo.value) != Some(FUTURE_MEETING_TAG) ==>
              r == Err(IllegalArgument)
    ensures r.Ok? && r.value.Some? ==> r.value.value.FutureMeeting?
  {
    match jo
    case None => Ok(None)
    case Some(f) =>
      var h :- ReadHeader(f);
      if h.tag != Some(FUTURE_MEETING_TAG) then Err(IllegalArgument)
      else Ok(Some(NewFutureMeeting(h.id, h.date, h.contacts)))
  }

  // ---------------------------------------------------------------------
  // Round trips

  lemma ItemContactOfJson(c: Contact)
    ensures ItemContact(ContactJson(c)) == Ok(c)
  {
  }

  /** Collecting the decodings of an enumeration of a set gives the set. */
  lemma CollectEnumeration<X, Y>(xs: seq<X>, decode: X -> Result<Y>, order: seq<Y>, ys: set<Y>)
    requires |xs| == |order| && forall k :: 0 <= k < |xs| ==> decode(xs[k]) == Ok(order[k])
    requires forall y :: y in order <==> y in ys
    ensures Collect(xs, decode) == Ok(ys)
  {
    CollectDecodesEach(xs, decode);
    var r := Collect(xs, decode).value;
    forall y | y in ys
      ensures y in r
    {
      var k :| 0 <= k < |order| && order[k] == y;
      assert decode(xs[k]) == Ok(y);
      assert DecodesTo(xs, decode, y);
    }
    forall y | y in r
      ensures y in ys
    {
      assert DecodesTo(xs, decode, y);
      var k :| 0 <= k < |xs| && decode(xs[k]) == Ok(y);
      assert order[k] == y;
    }
    assert r == ys;
  }

  /** Decoding the contacts array of a meeting record gives back exactly the
      participants, whatever order they were written in. */
  lemma ContactsRoundTrip(items: seq<Json>, cs: set<Contact>)
    requires ListsContacts(items, cs)
    ensures ContactsOf(items) == Ok(cs)
  {
    var order :| Enumerates(order, cs) && items == ContactJsons(order);
    forall k | 0 <= k < |items|
      ensures ItemContact(items[k]) == Ok(order[k])
    {
      ItemContactOfJson(order[k]);
    }
    CollectEnumeration(items, ItemContact, order, cs);
  }

  /** The shared part of a written meeting record reads back as the
      meeting's tag, id, date and participants. */
  lemma HeaderRoundTrip(m: Meeting, r: Record)
    requires IsMeetingRecord(m, r)
    ensures ReadHeader(r) == Ok(Header(Some(TypeTag(m)), m.id, m.date, m.contacts))
  {
    DateRoundTrip(m.date);
    ContactsRoundTrip(r["contacts"].items, m.contacts);
  }

  /** `toMeeting(toJSONObject(m))` for a plain meeting keeps its id, date and
      participants; it is null only when there are no participants. */
  lemma MeetingRoundTrip(m: Meeting, r: Record)
    requires m.PlainMeeting? && IsMeetingRecord(m, r)
    ensures ToMeeting(Some(r)) == if m.contacts == {} then Ok(None) else Ok(Some(m))
  {
    HeaderRoundTrip(m, r);
  }

  /** `toPastMeeting(toJSONObject(m))` for a past meeting also keeps its
      notes. */
  lemma PastMeetingRoundTrip(m: Meeting, r: Record)
    requires m.PastMeeting? && IsMeetingRecord(m, r)
    ensures ToPastMeeting(Some(r)) == Ok(Some(m))
  {
    HeaderRoundTrip(m, r);
  }

  lemma FutureMeetingRoundTrip(m: Meeting, r: Record)
    requires m.FutureMeeting? && IsMeetingRecord(m, r)
    ensures ToFutureMeeting(Some(r)) == Ok(Some(m))
  {
    HeaderRoundTrip(m, r);
  }

  /** Each decoder rejects the records written for the other two kinds. */
  lemma DecodersRejectOtherKinds(m: Meeting, r: Record)
    requires IsMeetingRecord(m, r)
    ensures !m.PlainMeeting? ==> ToMeeting(Some(r)) == Err(IllegalArgument)
    ensures !m.PastMeeting? ==> ToPastMeeting(Some(r)) == Err(IllegalArgument)
    ensures !m.FutureMeeting? ==> ToFutureMeeting(Some(r)) == Err(IllegalArgument)
  {
    HeaderRoundTrip(m, r);
  }

  // ---------------------------------------------------------------------
  // Reloading a saved meeting list

  /** The values a loop gets by decoding each element in turn, stopping at
      the first element that throws. */
  function DecodeEach<X, Y>(xs: seq<X>, decode: X -> Result<Y>): (r: Result<seq<Y>>)
    ensures r.Ok? ==> |r.value| == |xs| &&
                      forall k :: 0 <= k < |xs| ==> decode(xs[k]) == Ok(r.value[k])
  {
    if xs == [] then Ok([])
    else
      var front :- DecodeEach(xs[..|xs| - 1], decode);
      var y :- decode(xs[|xs| - 1]);
      assert forall k :: 0 <= k < |xs| - 1 ==> xs[..|xs| - 1][k] == xs[k];
      Ok(front + [y])
  }

  /** When every element decodes, the loop yields the decodings in order. */
  lemma {:induction false} DecodeEachOk<X, Y>(xs: seq<X>, decode: X -> Result<Y>, ys: seq<Y>)
    requires |xs| == |ys| && forall k :: 0 <= k < |xs| ==> decode(xs[k]) == Ok(ys[k])
    ensures DecodeEach(xs, decode) == Ok(ys)
  {
    if xs != [] {
      DecodeEachOk(xs[..|xs| - 1], decode, ys[..|ys| - 1]);
      assert ys[..|ys| - 1] + [ys[|ys| - 1]] == ys;
    }
  }

  /** When the only exception any element can raise is e, the loop either
      succeeds or ends with e, and it ends with e when element k raises it. */
  lemma {:induction false} DecodeEachFails<X, Y>(xs: seq<X>, decode: X -> Result<Y>, e: ErrorKind, k: nat)
    requires forall i :: 0 <= i < |xs| ==> decode(xs[i]).Ok? || decode(xs[i]) == Err(e)
    ensures DecodeEach(xs, decode).Ok? || DecodeEach(xs, decode) == Err(e)
    ensures k < |xs| && decode(xs[k]).Err? ==> DecodeEach(xs, decode) == Err(e)
  {
    if xs != [] {
      var front := xs[..|xs| - 1];
      assert forall i :: 0 <= i < |front| ==> front[i] == xs[i];
      DecodeEachFails(front, decode, e, k);
    }
  }

  /** What `loadData` does with each saved meeting record: `toMeeting`,
      whatever the record's tag. */
  function ReloadAsWritten(r: Record): (res: Result<Option<Meeting>>)
    ensures res.Ok? && res.value.Some? ==> res.value.value.PlainMeeting?
    ensures ReadHeader(r).Ok? && TagOf(r) != Some(MEETING_TAG) ==> res == Err(IllegalArgument)
  {
    ToMeeting(Some(r))
  }

  /** The decoder a reload needs: the record's own tag picks the decoder
      that accepts it. */
  function DecodeStoredMeeting(r: Record): (res: Result<Option<Meeting>>)
    ensures res.Ok? && res.value.Some? ==> TagOf(r) == Some(TypeTag(res.value.value))
    ensures ReadHeader(r).Ok? && TagOf(r) in {Some(MEETING_TAG), Some(FUTURE_MEETING_TAG)} ==> res.Ok?
    ensures ReadHeader(r).Ok? && TagOf(r) == Some(PAST_MEETING_TAG) ==>
              ("notes" in r && r["notes"].JStr? ==> res.Ok?)
    ensures ReadHeader(r).Ok? &&
            TagOf(r) !in {Some(MEETING_TAG), Some(FUTURE_MEETING_TAG), Some(PAST_MEETING_TAG)} ==>
              res == Err(IllegalArgument)
  {
    var tag := TagOf(r);
    if tag == Some(PAST_MEETING_TAG) then ToPastMeeting(Some(r))
    else if tag == Some(FUTURE_MEETING_TAG) then ToFutureMeeting(Some(r))
    else ToMeeting(Some(r))
  }

  /** Every meeting record reads back through the tag-directed decoder as
      the meeting that was written, for a plain meeting as long as it has
      participants, which every MeetingImpl has. */
  lemma StoredMeetingRoundTrip(m: Meeting, r: Record)
    requires IsMeetingRecord(m, r)
    requires m.PlainMeeting? ==> m.contacts != {}
    ensures DecodeStoredMeeting(r) == Ok(Some(m))
  {
    HeaderRoundTrip(m, r);
  }

  /** `rs[k]` is a record `toJSONObject(ms[k])` can return, for every k:
      the meeting array `saveData` writes. */
  ghost predicate AreMeetingRecords(ms: seq<Meeting>, rs: seq<Record>) {
    |ms| == |rs| && forall k :: 0 <= k < |ms| ==> IsMeetingRecord(ms[k], rs[k])
  }

  /** The meetings a store can hold: plain meetings come from MeetingImpl
      and so have participants. */
  predicate Constructible(ms: seq<Meeting>) {
    forall k :: 0 <= k < |ms| ==> ms[k].PlainMeeting? ==> ms[k].contacts != {}
  }

  /** As written, reloading a saved meeting list throws
      IllegalArgumentException as soon as it holds a past or a future
      meeting, since `toMeeting` rejects their tags. Every plain meeting in
      the list has participants, so no earlier record decodes to null and
      makes `m.getId()` throw NullPointerException first. */
  lemma ReloadAsWrittenRejectsSavedKinds(ms: seq<Meeting>, rs: seq<Record>, k: nat)
    requires AreMeetingRecords(ms, rs) && Constructible(ms)
    requires k < |ms| && !ms[k].PlainMeeting?
    ensures DecodeEach(rs, ReloadAsWritten) == Err(IllegalArgument)
  {
    forall i | 0 <= i < |rs|
      ensures ReloadAsWritten(rs[i]).Ok? || ReloadAsWritten(rs[i]) == Err(IllegalArgument)
    {
      HeaderRoundTrip(ms[i], rs[i]);
    }
    DecodersRejectOtherKinds(ms[k], rs[k]);
    DecodeEachFails(rs, ReloadAsWritten, IllegalArgument, k);
  }

  /** With the tag-directed decoder, reloading a saved meeting list gives
      back every meeting, in list order. */
  lemma StoredMeetingsRoundTrip(ms: seq<Meeting>, rs: seq<Record>)
    requires AreMeetingRecords(ms, rs) && Constructible(ms)
    ensures DecodeEach(rs, DecodeStoredMeeting) == Ok(seq(|ms|, k requires 0 <= k < |ms| => Some(ms[k])))
  {
    var ys := seq(|ms|, k requires 0 <= k < |ms| => Some(ms[k]));
    forall k | 0 <= k < |rs|
      ensures DecodeStoredMeeting(rs[k]) == Ok(ys[k])
    {
      StoredMeetingRoundTrip(ms[k], rs[k]);
    }
    DecodeEachOk(rs, DecodeStoredMeeting, ys);
  }
}
