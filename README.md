# cw4 contact manager — a Dafny model

This project models the core of the cw4 contact manager, a small Java
program that keeps contacts and meetings in memory and saves them as JSON
records. It models three parts:

- **The store** (`ContactManagerImpl`). It holds a set of contacts, an
  ordered list of meetings and two counters. It hands out contact ids
  sequentially, looks meetings up by id, and reads a meeting as past
  against the current time. Its one state change replaces a meeting by a
  past meeting carrying notes. It also filters contacts by id or by name
  substring, lists the past meetings of a contact, and loads decoded
  records while skipping ids it already holds.
- **The record codec** (`JSONUtilsImpl`). It maps contacts, meetings and
  six-field dates to key/value records and back. Each meeting record
  carries a type tag, and each decoder accepts only its own tag.
- **The value types and orderings**: `MeetingImpl`, `PastMeetingImpl`,
  `FutureMeetingImpl`, `ContactImpl`, `MeetingComparator` and
  `PastMeetingComparator`.

Modelling choices:

- A Java `int` is `Common.Int32`. Incrementing a counter wraps around, as
  in Java (`Common.Inc`).
- Each exception becomes an `ErrorKind` carried by `Result` or `Status`,
  and a Java null that the store or the codec passes or returns becomes
  `Option`. The null fields the value classes can hold are not modelled
  (see "## Left out").
- The three meeting classes are the three constructors of one datatype.
  The constructor replaces the reflection the Java code uses to tell
  meetings apart.
- A `Calendar` is six integer fields ordered lexicographically, with the
  month zero-based.
- A JSON object is a map from keys to values. A value is an integer, a
  string, an object or an array.
- The current time is a parameter, `now`.
- Contacts are values, and the store matches them by id, as its code does.
  `Contacts.ContactObject` models the mutable Java object and its
  `addNotes`.

The files, in dependency order:

| file | module | holds |
|---|---|---|
| `common.dfy` | Common | `Int32`, `Inc`, `ErrorKind`, `Option`, `Result`, `Status` |
| `dates.dfy` | Dates | dates and `after`/`before` |
| `contacts.dfy` | Contacts | the contact value and the `ContactImpl` object |
| `meetings.dfy` | Meetings | the meeting family and its constructors |
| `meeting_order.dfy` | MeetingOrder | `MeetingComparator` |
| `past_meeting_order.dfy` | PastMeetingOrder | `PastMeetingComparator` and the sort |
| `json.dfy` | Json | JSON values, `toString` and `Integer.valueOf` on them |
| `codec.dfy` | Codec | `JSONUtilsImpl` |
| `store_spec.dfy` | StoreSpec | the store's lookups, filters, transition and load folds, as functions |
| `store.dfy` | Store | the `ContactManager` class |
| `reload.dfy` | Reload | saving and reloading a store, as records |

Two behaviours of the code about null values:

- `addNewContact` throws NullPointerException on null notes
  (ContactManagerImpl.java:305). The model does the same.
- When a meeting record has no `date` key, the decoders do not throw. They
  read the current time instead (JSONUtilsImpl.java:119-120 with 260). The
  model does not follow that case: it gives `Unmodelled`, as the
  `Codec.ToCalendar` line under "## Left out" says.

The code also has two behaviours a cleaned-up design would not. The model
keeps both:

- `getPastMeetingList` sorts by id, highest first, not by date.
- `getFutureMeeting` does no date check.

## Model

| member | source | states |
|---|---|---|
| Common.Inc | cw4/src/contactManager/ContactManagerImpl.java:307-308 | `counter + 1` on an `int`: one more below the maximum, and the minimum after the maximum |
| Dates.AfterIrreflexive | cw4/src/contactManager/MeetingComparator.java:17-19 | no date is after itself |
| Dates.AfterAsymmetric | cw4/src/contactManager/MeetingComparator.java:17-19 | at most one of two dates is after the other |
| Dates.AfterTransitive | cw4/src/contactManager/MeetingComparator.java:17-19 | `after` is transitive |
| Dates.AfterTotal | cw4/src/contactManager/MeetingComparator.java:17-19 | two dates are equal exactly when neither is after the other |
| Contacts.ContactObject.constructor | cw4/src/contactManager/ContactImpl.java:23-33 | a new contact has the given id and name and empty notes |
| Contacts.ContactObject.WithNotes | cw4/src/contactManager/JSONUtilsImpl.java:101 | the three-argument constructor the callers use keeps id, name and notes |
| Contacts.ContactObject.AddNotes | cw4/src/contactManager/ContactImpl.java:63-65 | the notes are replaced by the argument, not appended to; id and name stay |
| Meetings.TypeTag | cw4/src/contactManager/JSONUtilsImpl.java:69-70 | a meeting's tag is one of "Meeting", "FutureMeeting", "PastMeeting" |
| Meetings.TypeTagIdentifiesKind | cw4/src/contactManager/JSONUtilsImpl.java:69-76 | two meetings have the same tag exactly when they are of the same kind |
| Meetings.NewMeeting | cw4/src/contactManager/MeetingImpl.java:36-43 | null participants throw NullPointerException, an empty set throws; construction succeeds exactly on a non-empty set, and then the getters return the arguments |
| Meetings.NewPastMeeting | cw4/src/contactManager/PastMeetingImpl.java:43-51 | always succeeds, keeps id, date and participants; null notes become "", other notes are kept |
| Meetings.NewFutureMeeting | cw4/src/contactManager/FutureMeetingImpl.java:35-39 | always succeeds, whatever the participants or the date, and keeps all three |
| MeetingOrder.Compare | cw4/src/contactManager/MeetingComparator.java:16-20 | 1 exactly when o1's date is after o2's, -1 exactly when before, 0 exactly when the dates are equal |
| MeetingOrder.CompareAntisymmetric | cw4/src/contactManager/MeetingComparator.java:16-20 | `compare(a, b) == -compare(b, a)` |
| MeetingOrder.CompareTransitive | cw4/src/contactManager/MeetingComparator.java:16-20 | `compare(a, b) <= 0` and `compare(b, c) <= 0` give `compare(a, c) <= 0` |
| PastMeetingOrder.Compare | cw4/src/contactManager/ContactManagerImpl.java:252-259 | 1 exactly when o1's id is smaller, -1 exactly when larger, 0 exactly when equal |
| PastMeetingOrder.Insert | cw4/src/contactManager/ContactManagerImpl.java:247 | inserting adds exactly one occurrence of the element and nothing else |
| PastMeetingOrder.InsertSorted | cw4/src/contactManager/ContactManagerImpl.java:247 | inserting into a list sorted by the comparator keeps it sorted |
| PastMeetingOrder.Sort | cw4/src/contactManager/ContactManagerImpl.java:247 | `Collections.sort` with the comparator: sorted by id, highest first, and a permutation of its input |
| Json.ParseInt32 | cw4/src/contactManager/JSONUtilsImpl.java:97 | `Integer.valueOf` fails only with NumberFormatException, and on plain digits gives their value |
| Json.NaturalValue | cw4/src/contactManager/JSONUtilsImpl.java:97 | the digits printed for a natural number denote it |
| Json.DecimalRoundTrip | cw4/src/contactManager/JSONUtilsImpl.java:97 | parsing a printed number gives it back when it fits in an `int`, NumberFormatException otherwise |
| Json.ReadInt | cw4/src/contactManager/JSONUtilsImpl.java:97 | reading a value as an `int` fails only with NumberFormatException |
| Json.ReadIntOfNumberText | cw4/src/contactManager/JSONUtilsImpl.java:97 | reading a number is `Integer.valueOf` of its decimal text |
| Json.ReadString | cw4/src/contactManager/JSONUtilsImpl.java:98-99 | a string reads as itself; only strings and numbers have modelled text |
| Json.ReadTag | cw4/src/contactManager/JSONUtilsImpl.java:113 | a string tag reads as itself |
| Codec.EncodeContact | cw4/src/contactManager/JSONUtilsImpl.java:43-53 | null gives the empty record; a contact gives exactly the keys id, name, notes |
| Codec.ToContact | cw4/src/contactManager/JSONUtilsImpl.java:95-102 | null exactly gives null; a record without an id throws NullPointerException; a contact needs all three keys |
| Codec.ContactRoundTrip | cw4/src/contactManager/JSONUtilsImpl.java:95-102 | decoding an encoded contact gives the same id, name and notes |
| Codec.EncodeDate | cw4/src/contactManager/JSONUtilsImpl.java:227-249 | null gives the empty record; a date gives exactly six integer fields |
| Codec.ToCalendar | cw4/src/contactManager/JSONUtilsImpl.java:255-272 | a decoded date needs all six keys |
| Codec.DateRoundTrip | cw4/src/contactManager/JSONUtilsImpl.java:255-272 | decoding an encoded date restores its six fields |
| Codec.ContactJsons | cw4/src/contactManager/JSONUtilsImpl.java:78-85 | one contact record per participant, in iteration order |
| Codec.EncodeMeeting | cw4/src/contactManager/JSONUtilsImpl.java:60-89 | null gives the empty record; a meeting gives type tag, id, date, notes for a past meeting, and one contact record for each participant in some iteration order |
| Codec.NotesKeyIffPastTag | cw4/src/contactManager/JSONUtilsImpl.java:73-76 | a meeting record has a notes key exactly when its tag is "PastMeeting" |
| Codec.CollectDecodesEach | cw4/src/contactManager/JSONUtilsImpl.java:286-290 | the loop succeeds exactly when every element decodes, and then holds exactly the decoded elements |
| Codec.CollectStopsAtError | cw4/src/contactManager/JSONUtilsImpl.java:286-290 | the first element that throws decides the loop's exception |
| Codec.CollectStep | cw4/src/contactManager/JSONUtilsImpl.java:286-290 | one more element adds its decoding or stops the loop |
| Codec.GetContacts | cw4/src/contactManager/JSONUtilsImpl.java:280-293 | the loop computes the participant set the record denotes; a missing array throws NullPointerException, a non-array ClassCastException |
| Codec.ToMeeting | cw4/src/contactManager/JSONUtilsImpl.java:108-140 | null gives null; success needs tag "Meeting"; any other tag throws IllegalArgumentException; a meeting returned has participants |
| Codec.ToPastMeeting | cw4/src/contactManager/JSONUtilsImpl.java:146-182 | null exactly gives null; success needs tag "PastMeeting" and a notes key; any other tag throws IllegalArgumentException |
| Codec.ToFutureMeeting | cw4/src/contactManager/JSONUtilsImpl.java:188-220 | null exactly gives null; success needs tag "FutureMeeting"; any other tag throws IllegalArgumentException |
| Codec.ItemContactOfJson | cw4/src/contactManager/JSONUtilsImpl.java:287-288 | a participant's record decodes to the participant |
| Codec.CollectEnumeration | cw4/src/contactManager/JSONUtilsImpl.java:280-293 | decoding an enumeration of a set gives back the set |
| Codec.ContactsRoundTrip | cw4/src/contactManager/JSONUtilsImpl.java:280-293 | the decoded participant set is exactly the encoded one, whatever the iteration order |
| Codec.ReadHeader | cw4/src/contactManager/JSONUtilsImpl.java:113-123 | a missing type throws NullPointerException; a header read in full carries the record's tag and id, and the record has a contacts array whose participants it holds |
| Codec.HeaderRoundTrip | cw4/src/contactManager/JSONUtilsImpl.java:113-123 | the tag, id, date and participants of a meeting record read back unchanged |
| Codec.MeetingRoundTrip | cw4/src/contactManager/JSONUtilsImpl.java:108-136 | `toMeeting(toJSONObject(m))` of a plain meeting keeps it, and gives null only for an empty participant set |
| Codec.PastMeetingRoundTrip | cw4/src/contactManager/JSONUtilsImpl.java:146-178 | `toPastMeeting` of a past meeting's record keeps id, date, participants and notes |
| Codec.FutureMeetingRoundTrip | cw4/src/contactManager/JSONUtilsImpl.java:188-216 | `toFutureMeeting` of a future meeting's record keeps it |
| Codec.DecodersRejectOtherKinds | cw4/src/contactManager/JSONUtilsImpl.java:108-220 | each decoder throws IllegalArgumentException on the records of the other two kinds |
| Codec.DecodeEach | cw4/src/contactManager/ContactManagerImpl.java:466-473 | when the decoding loop over the saved array gets through, it holds one decoding per record, in order |
| Codec.ReloadAsWritten | cw4/src/contactManager/ContactManagerImpl.java:468 | the as-written reload of one record yields only plain meetings, and throws IllegalArgumentException on any other tag once the header reads |
| Codec.DecodeStoredMeeting | cw4/src/contactManager/JSONUtilsImpl.java:108-220 | the tag-directed decoder: what it yields has the record's tag as its kind; a readable header with a known tag decodes (a past meeting needs string notes), and an unknown tag throws IllegalArgumentException |
| Codec.DecodeEachOk | cw4/src/contactManager/ContactManagerImpl.java:466-473 | decoding every element of the array gives the decodings in order |
| Codec.DecodeEachFails | cw4/src/contactManager/ContactManagerImpl.java:466-473 | when every element either decodes or throws e, the loop succeeds or throws e |
| Codec.ReloadAsWrittenRejectsSavedKinds | cw4/src/contactManager/ContactManagerImpl.java:468 | as written, reloading a saved meeting array whose plain meetings all have participants throws IllegalArgumentException once it holds a past or future meeting |
| Codec.StoredMeetingRoundTrip | cw4/src/contactManager/JSONUtilsImpl.java:108-220 | each saved meeting record reads back as its meeting through the decoder its tag names |
| Codec.StoredMeetingsRoundTrip | cw4/src/contactManager/ContactManagerImpl.java:466-473 | with that decoder, a saved meeting array reads back as the list, in order |
| StoreSpec.Lookup | cw4/src/contactManager/ContactManagerImpl.java:194-202 | `getMeeting`: null exactly when no meeting has the id; otherwise a stored meeting with that id |
| StoreSpec.FirstIndex | cw4/src/contactManager/ContactManagerImpl.java:194-202 | the position of the first meeting with the id; none exactly when no meeting has it |
| StoreSpec.FirstIndexIs | cw4/src/contactManager/ContactManagerImpl.java:194-202 | the first position holding the id is the one the search finds |
| StoreSpec.CountMeetings | cw4/src/contactManager/ContactManagerImpl.java:397-398 | the count is positive exactly when some meeting has the id |
| StoreSpec.CountContacts | cw4/src/contactManager/ContactManagerImpl.java:383-384 | the count is positive exactly when some contact has the id |
| StoreSpec.ContactKnown | cw4/src/contactManager/ContactManagerImpl.java:380-389 | false for id 0; otherwise true exactly when some contact has the id |
| StoreSpec.MeetingKnown | cw4/src/contactManager/ContactManagerImpl.java:394-403 | false for id 0; otherwise true exactly when some meeting has the id |
| StoreSpec.LookupAppend | cw4/src/contactManager/ContactManagerImpl.java:194-202 | appending a meeting keeps existing lookups and exposes the new one for a new id |
| StoreSpec.PastView | cw4/src/contactManager/ContactManagerImpl.java:142-171 | null exactly for an unknown id; IllegalArgumentException exactly for a date strictly after now; otherwise a past meeting with the stored id, date, participants, and the stored notes of a past meeting or "" |
| StoreSpec.MoveToEnd | cw4/src/contactManager/ContactManagerImpl.java:296-297 | removing a meeting and appending one keeps the length, keeps the others in order, and changes the multiset by exactly that swap |
| StoreSpec.MoveToEndKeepsIdsUnique | cw4/src/contactManager/ContactManagerImpl.java:296-297 | swapping in a meeting with the same id keeps ids unique |
| StoreSpec.MoveToEndThenLookup | cw4/src/contactManager/ContactManagerImpl.java:296-297 | after the swap, an id that one meeting alone held finds the new meeting |
| StoreSpec.UniqueIdsHeldOnce | cw4/src/contactManager/ContactManagerImpl.java:394-403 | in a store whose nonzero ids are unique, each nonzero id is held by at most one meeting |
| StoreSpec.MoveToEndKeepsMissing | cw4/src/contactManager/ContactManagerImpl.java:296-297 | an id no meeting holds is still held by none after the swap |
| StoreSpec.MoveToEndKeepsFound | cw4/src/contactManager/ContactManagerImpl.java:296-297 | another id's first meeting stays its first meeting after the swap, one place earlier if it came after the removed one |
| StoreSpec.MoveToEndKeepsOtherLookups | cw4/src/contactManager/ContactManagerImpl.java:296-297 | the swap changes the lookup of no other id |
| StoreSpec.WithNotes | cw4/src/contactManager/ContactManagerImpl.java:272-298 | null text gives NullPointerException, an unknown id IllegalArgumentException, a date strictly after now exactly IllegalStateException; success keeps the length |
| StoreSpec.WithNotesThenPastView | cw4/src/contactManager/ContactManagerImpl.java:272-298 | after notes are added, the last meeting is the past meeting with the date and participants the id's meeting had and the given notes; and, provided one meeting alone held the id, `getPastMeeting` returns it |
| StoreSpec.WithNotesKeepsTheRest | cw4/src/contactManager/ContactManagerImpl.java:272-298 | adding notes leaves every other id's meeting as it was and keeps ids unique |
| StoreSpec.PastMeetingsOf | cw4/src/contactManager/ContactManagerImpl.java:235-245 | exactly the past meetings with a participant of that id, each as often as it is stored |
| StoreSpec.Contains | cw4/src/contactManager/ContactManagerImpl.java:341 | `s.contains(t)` exactly when t occurs in s at some position |
| StoreSpec.ContainsEmpty | cw4/src/contactManager/ContactManagerImpl.java:341 | every name contains the empty string |
| StoreSpec.LoadContact | cw4/src/contactManager/ContactManagerImpl.java:454-459 | one iteration of the contact loop: the set grows by at most the record; afterwards a nonzero id is held; a known id changes nothing; an unknown one adds the record and moves the counter on |
| StoreSpec.FoldContacts | cw4/src/contactManager/ContactManagerImpl.java:452-460 | the contact loop only adds, and adds at most one contact per record |
| StoreSpec.FoldContactsStep | cw4/src/contactManager/ContactManagerImpl.java:452-460 | one more record is one more loop step |
| StoreSpec.FoldContactsKeepsIdsUnique | cw4/src/contactManager/ContactManagerImpl.java:452-460 | loading keeps contact ids unique, keeps stored contacts and adds only records |
| StoreSpec.FoldContactsFirstWins | cw4/src/contactManager/ContactManagerImpl.java:452-460 | the first record with an id not yet stored is loaded |
| StoreSpec.FoldContactsKeepsContents | cw4/src/contactManager/ContactManagerImpl.java:452-460 | a step never drops a contact |
| StoreSpec.FoldContactsIdsFrom | cw4/src/contactManager/ContactManagerImpl.java:452-460 | every contact after loading was stored or is a record |
| StoreSpec.FoldContactsCounter | cw4/src/contactManager/ContactManagerImpl.java:452-460 | with no id 0 and no wrap-around, the counter grows exactly as much as the contact set |
| StoreSpec.LoadedIdReissued | cw4/src/contactManager/ContactManagerImpl.java:456-458 | loading one contact with id 5 into an empty store leaves the counter at 1, so the fourth contact added afterwards gets id 5 too, and ids stop being unique |
| StoreSpec.FoldContactsOfDistinct | cw4/src/contactManager/ContactManagerImpl.java:452-460 | records with distinct nonzero ids load into an empty store as their set, counted |
| StoreSpec.Present | cw4/src/contactManager/ContactManagerImpl.java:468-469 | the decoded records before the first null, which makes `m.getId()` throw |
| StoreSpec.LoadMeeting | cw4/src/contactManager/ContactManagerImpl.java:468-472 | one iteration of the meeting loop: the list stays or gains the record at its end; afterwards a nonzero id is held; a known id changes nothing; an unknown one is appended and moves the counter on |
| StoreSpec.FoldMeetings | cw4/src/contactManager/ContactManagerImpl.java:466-473 | the meeting loop keeps the stored list as a prefix and appends at most one meeting per record |
| StoreSpec.FoldMeetingsStep | cw4/src/contactManager/ContactManagerImpl.java:466-473 | one more record is one more loop step |
| StoreSpec.FoldMeetingsFirstWins | cw4/src/contactManager/ContactManagerImpl.java:466-473 | after loading, every id finds the meeting it finds in the stored list followed by the records: the first occurrence wins |
| StoreSpec.FoldMeetingsKeepsIdsUnique | cw4/src/contactManager/ContactManagerImpl.java:466-473 | loading keeps meeting ids unique and only appends |
| StoreSpec.FoldMeetingsCounter | cw4/src/contactManager/ContactManagerImpl.java:466-473 | without wrap-around, the counter advances by one per accepted record |
| StoreSpec.FoldMeetingsOfDistinct | cw4/src/contactManager/ContactManagerImpl.java:466-473 | records with distinct nonzero ids load into an empty store unchanged and in order, counted |
| Store.ContactManager.constructor | cw4/src/contactManager/ContactManagerImpl.java:82-86 | counters 0, both collections empty, invariants hold |
| Store.ContactManager.LoadContacts | cw4/src/contactManager/ContactManagerImpl.java:452-460 | the loop computes the contact fold and keeps ids unique |
| Store.ContactManager.LoadMeetings | cw4/src/contactManager/ContactManagerImpl.java:466-473 | the loop computes the meeting fold up to the first null, and then throws NullPointerException; ids stay unique |
| Store.ContactManager.GetMeeting | cw4/src/contactManager/ContactManagerImpl.java:194-202 | the loop returns the first meeting with the id, or null |
| Store.ContactManager.GetPastMeeting | cw4/src/contactManager/ContactManagerImpl.java:142-171 | computes the past view of the store |
| Store.ContactManager.GetFutureMeeting | cw4/src/contactManager/ContactManagerImpl.java:177-188 | null exactly for an unknown id; otherwise a future meeting with the stored date and participants, whatever the date |
| Store.ContactManager.GetPastMeetingList | cw4/src/contactManager/ContactManagerImpl.java:224-250 | empty for null; IllegalArgumentException exactly when no stored contact has the id; otherwise the contact's past meetings, each as often as stored, highest id first |
| Store.ContactManager.AddMeetingNotes | cw4/src/contactManager/ContactManagerImpl.java:272-298 | performs the notes transition, or throws its exception and leaves the list; ids stay unique |
| Store.ContactManager.AddNewContact | cw4/src/contactManager/ContactManagerImpl.java:304-310 | null notes or name throw NullPointerException and change nothing; otherwise adds the contact with id counter + 1 and moves the counter on; while every contact id is at most the counter and the counter is below the maximum, the new id exceeds all others and ids stay unique |
| Store.ContactManager.GetContactsById | cw4/src/contactManager/ContactManagerImpl.java:316-332 | a null array throws NullPointerException; otherwise exactly the contacts whose id is listed, and IllegalArgumentException exactly when there are none |
| Store.ContactManager.GetContactsByName | cw4/src/contactManager/ContactManagerImpl.java:338-343 | null throws NullPointerException; otherwise exactly the contacts whose name contains the string |
| Store.NameSearchEmpty | cw4/src/contactManager/ContactManagerImpl.java:338-343 | searching for "" gives every contact |
| Reload.EnumerationSize | cw4/src/contactManager/ContactManagerImpl.java:525-529 | the saved contact array is as long as the set |
| Reload.ContactsSurviveReload | cw4/src/contactManager/ContactManagerImpl.java:452-460 | saved contacts with unique nonzero ids reload as the same set, counted |
| Reload.MeetingsSurviveReload | cw4/src/contactManager/ContactManagerImpl.java:466-473 | saved meetings with unique nonzero ids reload, through the tag-directed decoder, as the same list, counted |

## Left out

- File handling in `loadData` and `saveData` is I/O and is not modelled: file existence, deletion and creation, readers and writers, and the catching of ParseException and IOException. The load loops take already decoded records, and saving is the record predicate `Codec.AreMeetingRecords`.
- JSON text is not modelled. That covers json-simple parsing and printing, the re-parsing of each array in `loadData`, and JSON null.
- `Json.ReadString`: the `toString` text of a nested object or array is not modelled and gives `Unmodelled`.
- `Codec.ToCalendar`: `toCalendar(null)` returns the current time, and the model gives `Unmodelled` instead. So a meeting record without a `date` key decodes to `Unmodelled` in `Codec.ToMeeting`, `Codec.ToPastMeeting` and `Codec.ToFutureMeeting`, where the code gives a meeting dated now. The model also leaves out the rest of the calendar: lenient normalisation of out-of-range fields, milliseconds, time zones and the time of the setting.
- `Json.ParseInt32` accepts ASCII digits only. `Integer.valueOf` also accepts other Unicode digits.
- The shutdown hook thread is runtime plumbing, and the stubs `addFutureMeeting`, `getFutureMeetingList` and `addNewPastMeeting` have no behaviour. Neither is modelled.
- Store.ContactManager.GetContactsByName returns contact values, where the code returns the stored `ContactImpl` objects themselves (ContactManagerImpl.java:338-343), with the same consequence as for the id search on the next line.
- Store.ContactManager.GetContactsById returns contact values. The code returns the stored `ContactImpl` objects themselves (ContactManagerImpl.java:316-332). So a caller's `addNotes` on a returned contact changes the store's contact, and the next `saveData` writes the new notes (ContactManagerImpl.java:525-529, JSONUtilsImpl.java:51). This is the only way to change a stored contact's notes after creation. The model's store never holds a `Contacts.ContactObject` and does not capture this aliasing.
- Contacts are values. A Java `HashSet` of `ContactImpl`, which has no `equals`, holds two equal-looking contacts as two entries, and the model holds them as one.
- `Codec.EncodeMeeting` leaves the iteration order of the participant `HashSet` open: any enumeration is allowed.
- `PastMeetingOrder.Sort` is proved sorted and a permutation. That it keeps equal ids in input order is not proved. Only id 0 can repeat in a store whose ids are otherwise unique.
- `Store.ContactManager.LoadMeetings` takes the decoded records. A decoding exception is modelled by `Codec.DecodeEach` ahead of the loop, not interleaved with it.
- AddNotes: `Contacts.ContactObject.AddNotes` takes a string. `addNotes(null)` stores null, after which `toJSONObject(contact)` throws NullPointerException at `getNotes().toString()` (JSONUtilsImpl.java:51). The model cannot express a contact with null notes.
- NewMeeting: `Meetings.NewMeeting` copies the participant set. `MeetingImpl` keeps the caller's `Set<Contact>` by reference, and `getContacts()` hands that same set out (MeetingImpl.java:42). So a caller can empty the participants of a constructed meeting afterwards, and the model does not capture this aliasing.
- NewPastMeeting: `Meetings.NewPastMeeting` takes a date and a participant set. `PastMeetingImpl` also accepts and stores a null date or null contacts (PastMeetingImpl.java:43-47). The model cannot express a meeting holding either null, and it does not capture the aliasing of the participant set.
- NewFutureMeeting: `Meetings.NewFutureMeeting` takes a date and a participant set. `FutureMeetingImpl` also accepts and stores a null date or null contacts (FutureMeetingImpl.java:35-39). The model cannot express a meeting holding either null, and it does not capture the aliasing of the participant set.
- Store.ContactManager.AddNewContact: its uniqueness promise holds only while every contact id is at most the counter. The load loop moves the counter by one per accepted record, not past the largest id loaded (ContactManagerImpl.java:456-458). So after loading n contacts whose ids are not exactly 1 to n, `addNewContact` can issue an id that a loaded contact already holds (`StoreSpec.LoadedIdReissued`). The model keeps this behaviour of the code, and `Store.ContactManager.LoadContacts` does not promise that every id stays at most the counter.
- Java `Integer` boxing, and the order in which `loadData` visits the keys of the top-level object, make no difference and are not modelled.

## Findings

| source | as written | input that shows it | evidently intended | confidence | as-written member | corrected member |
|---|---|---|---|---|---|---|
| cw4/src/contactManager/ContactManagerImpl.java:468 | `loadData` decodes every saved meeting record with `toMeeting`, which throws IllegalArgumentException on the "PastMeeting" and "FutureMeeting" tags that `saveData` writes | a store whose one meeting has had notes added, so it is saved as a "PastMeeting" record; constructing a store on that file throws | each record is decoded by the decoder its tag names, so a saved store reloads as it was | not executed | Codec.ReloadAsWrittenRejectsSavedKinds | Codec.StoredMeetingsRoundTrip |
