/** The `AddressBook` of main.py: records keyed by contact name, in
    insertion order, with add (last write wins), find and delete. */
module AddressBooks {
  import opened Outcomes
  import opened OrderedMap
  import opened Phonebook

  const ContactNotFound := "Contact not found"

  type AddressBook = Dict<Record>

  /** `add_record`: files the record under its own name, replacing any
      earlier record of that name. */
  function AddRecord(book: AddressBook, rec: Record): (r: AddressBook)
    requires book.Valid()
    ensures r.Valid()
  {
    Put(book, rec.name, rec)
  }

  /** `find`: the record filed under the name, or None. */
  function Find(book: AddressBook, name: string): (r: Option<Record>)
    ensures r.None? <==> name !in book.values
    ensures r.Some? ==> r.value == book.values[name]
  {
    Get(book, name)
  }

  /** `delete`: removes a present name, the others keeping their order, and
      confirms; an absent name leaves
      the book unchanged and reports ContactNotFound. */
  function Delete(book: AddressBook, name: string): (u: Updated<AddressBook>)
    requires book.Valid()
    ensures u.state.Valid()
    ensures name !in u.state.values
    ensures forall other :: other != name ==> Find(u.state, other) == Find(book, other)
    ensures name in book.values ==> u.message == "Contact " + name + " deleted"
    ensures name in book.values ==>
      exists i :: 0 <= i < |book.keys| && book.keys[i] == name && u.state.keys == book.keys[..i] + book.keys[i + 1..]
    ensures name !in book.values ==> u.state == book && u.message == ContactNotFound
  {
    if name in book.values then Updated(Remove(book, name), "Contact " + name + " deleted")
    else Updated(book, ContactNotFound)
  }

  /** After `add_record(r)`, `find(r.name)` gives r back and every other
      name finds what it found before; a known name keeps its place in the
      order, a new one goes last. */
  lemma AddRecordThenFind(book: AddressBook, rec: Record)
    requires book.Valid()
    ensures Find(AddRecord(book, rec), rec.name) == Some(rec)
    ensures forall other :: other != rec.name ==> Find(AddRecord(book, rec), other) == Find(book, other)
    ensures rec.name in book.values ==> AddRecord(book, rec).keys == book.keys
    ensures rec.name !in book.values ==> AddRecord(book, rec).keys == book.keys + [rec.name]
  {
  }

  /** Adding a record under a new name and deleting that name restores the
      book exactly, order included. */
  lemma AddThenDelete(book: AddressBook, rec: Record)
    requires book.Valid() && rec.name !in book.values
    ensures Delete(AddRecord(book, rec), rec.name) == Updated(book, "Contact " + rec.name + " deleted")
  {
    PutThenRemove(book, rec.name, rec);
  }

  /** Every record in a book keeps the name it is filed under when books
      are built with `add_record` and `delete` only. */
  ghost predicate Filed(book: AddressBook) {
    forall k :: k in book.values ==> book.values[k].name == k
  }

  lemma BookOperationsKeepFiling(book: AddressBook, rec: Record, name: string)
    requires book.Valid() && Filed(book)
    ensures Filed(AddRecord(book, rec))
    ensures Filed(Delete(book, name).state)
  {
    var added := AddRecord(book, rec);
    forall k | k in added.values ensures added.values[k].name == k {
      if k != rec.name {
        assert Find(added, k) == Find(book, k);
      } else {
        assert Find(added, k) == Some(rec);
      }
    }
    var deleted := Delete(book, name).state;
    forall k | k in deleted.values ensures deleted.values[k].name == k {
      assert Find(deleted, k) == Find(book, k);
    }
  }
}
