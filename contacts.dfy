/** Contacts (ContactImpl). The store and the codec handle a contact as a
    value `Contact(id, name, notes)`; `ContactObject` is the Java object
    itself, whose id and name are final and whose notes can be overwritten. */
module Contacts {
  import opened Common

  datatype Contact = Contact(id: Int32, name: string, notes: string)

  class ContactObject {
    const id: Int32
    const name: string
    var notes: string

    /** The value this object holds right now. */
    function Value(): (c: Contact)
      reads this
    {
      Contact(id, name, notes)
    }

    /** `new ContactImpl(id, name)`: notes start out empty. */
    constructor (id: Int32, name: string)
      ensures Value() == Contact(id, name, "")
    {
      this.id := id;
      this.name := name;
      this.notes := "";
    }

    /** `new ContactImpl(id, name, notes)`, the form the store and the
        codec call. */
    constructor WithNotes(id: Int32, name: string, notes: string)
      ensures Value() == Contact(id, name, notes)
    {
      this.id := id;
      this.name := name;
      this.notes := notes;
    }

    /** `addNotes(s)` replaces the notes with s; it does not append. */
    method AddNotes(s: string)
      modifies this
      ensures Value() == old(Value()).(notes := s)
    {
      notes := s;
    }
  }
}
