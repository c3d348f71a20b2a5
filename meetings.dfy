/** The meeting family (MeetingImpl, FutureMeetingImpl, PastMeetingImpl).
    The three Java classes become the three constructors of one datatype;
    the constructor says which class a value belongs to, where the Java code
    asks reflection. Nothing in the program changes a meeting after it is
    built (the notes field of PastMeetingImpl is not final, but no method
    assigns it), so a meeting is a value. */
module Meetings {
  import opened Common
  import opened Dates
  import opened Contacts

  datatype Meeting =
    | PlainMeeting(id: Int32, date: Date, contacts: set<Contact>)
    | FutureMeeting(id: Int32, date: Date, contacts: set<Contact>)
    | PastMeeting(id: Int32, date: Date, contacts: set<Contact>, notes: string)

  const MEETING_TAG: string := "Meeting"
  const FUTURE_MEETING_TAG: string := "FutureMeeting"
  const PAST_MEETING_TAG: string := "PastMeeting"

  /** The simple name of the interface a meeting's class implements: the
      type tag the codec writes. */
  function TypeTag(m: Meeting): (tag: string)
    ensures tag in {MEETING_TAG, FUTURE_MEETING_TAG, PAST_MEETING_TAG}
  {
    match m
    case PlainMeeting(_, _, _) => MEETING_TAG
    case FutureMeeting(_, _, _) => FUTURE_MEETING_TAG
    case PastMeeting(_, _, _, _) => PAST_MEETING_TAG
  }

  /** Different kinds of meeting carry different tags. */
  lemma TypeTagIdentifiesKind(m: Meeting, n: Meeting)
    ensures TypeTag(m) == TypeTag(n) <==>
            (m.PlainMeeting? && n.PlainMeeting?) ||
            (m.FutureMeeting? && n.FutureMeeting?) ||
            (m.PastMeeting? && n.PastMeeting?)
  {
  }

  /** `new MeetingImpl(id, date, contacts)`: null contacts throw
      NullPointerException at `contacts.isEmpty()`, and an empty contact set
      throws before any field is set, so no meeting without participants
      exists; otherwise the getters give back the arguments. */
  function NewMeeting(id: Int32, date: Date, contacts: Option<set<Contact>>): (r: Result<Meeting>)
    ensures r.Ok? <==> contacts.Some? && contacts.value != {}
    ensures contacts.None? ==> r == Err(NullPointer)
    ensures contacts == Some({}) ==> r == Err(EmptyParticipants)
    ensures r.Ok? ==> r.value.PlainMeeting? && r.value.id == id &&
                      r.value.date == date && Some(r.value.contacts) == contacts
  {
    match contacts
    case None => Err(NullPointer)
    case Some(cs) =>
      if cs == {} then Err(EmptyParticipants)
      else Ok(PlainMeeting(id, date, cs))
  }

  /** `new PastMeetingImpl(id, date, contacts, notes)`: always succeeds,
      whatever the contacts and the date; null notes become "". */
  function NewPastMeeting(id: Int32, date: Date, contacts: set<Contact>,
                          notes: Option<string>): (m: Meeting)
    ensures m.PastMeeting? && m.id == id && m.date == date && m.contacts == contacts
    ensures notes.None? ==> m.notes == ""
    ensures notes.Some? ==> m.notes == notes.value
  {
    PastMeeting(id, date, contacts, match notes case Some(s) => s case None => "")
  }

  /** `new FutureMeetingImpl(id, date, contacts)`: a plain holder that, unlike
      the plain meeting, accepts an empty contact set and any date. */
  function NewFutureMeeting(id: Int32, date: Date, contacts: set<Contact>): (m: Meeting)
    ensures m.FutureMeeting? && m.id == id && m.date == date && m.contacts == contacts
  {
    FutureMeeting(id, date, contacts)
  }
}
