/** `Phone` validation and the per-contact `Record` of main.py: an ordered
    list of validated phone numbers with add, remove, edit, find and a
    printable form. Every operation returns a status line and never fails. */
module Phonebook {
  import opened Outcomes
  import opened Text

  const PhoneLength := 10
  const InvalidPhone := "Phone number must be 10 digits long"
  const PhoneNotFound := "Phone number not found"

  /** The accepted phone format: exactly ten decimal digits. */
  predicate IsValidPhone(s: string) {
    |s| == PhoneLength && forall i :: 0 <= i < |s| ==> IsDigit(s[i])
  }

  /** `s.isdigit()`: true of a non-empty string of digits only. */
  function IsDigitString(s: string): (b: bool)
    ensures b <==> |s| > 0 && forall i :: 0 <= i < |s| ==> IsDigit(s[i])
    decreases |s|
  {
    |s| > 0 && IsDigit(s[0]) && (|s| == 1 || IsDigitString(s[1..]))
  }

  /** The `Phone` constructor: the number itself, or the ValueError message. */
  function ValidatePhone(value: string): (r: Result<string, string>)
    ensures r.Ok? <==> IsValidPhone(value)
    ensures r.Ok? ==> r.value == value
    ensures r.Err? ==> r.error == InvalidPhone
  {
    if |value| != PhoneLength || !IsDigitString(value) then Err(InvalidPhone)
    else Ok(value)
  }

  datatype Record = Record(name: string, phones: seq<string>)

  /** `Record(name)`: a contact with no phones yet. */
  function NewRecord(name: string): (r: Record)
    ensures r.name == name && |r.phones| == 0
  {
    Record(name, [])
  }

  /** Only validated numbers ever enter a record's list. */
  ghost predicate WellFormed(r: Record) {
    forall i :: 0 <= i < |r.phones| ==> IsValidPhone(r.phones[i])
  }

  /** The index of the first phone equal to x, as the `for` loops find it. */
  function FirstIndex(phones: seq<string>, x: string): (r: Option<nat>)
    ensures r.None? <==> x !in phones
    ensures r.Some? ==> r.value < |phones| && phones[r.value] == x && x !in phones[..r.value]
    decreases |phones|
  {
    if |phones| == 0 then None
    else if phones[0] == x then Some(0)
    else match FirstIndex(phones[1..], x)
      case None => None
      case Some(i) =>
        assert phones[..i + 1] == [phones[0]] + phones[1..][..i];
        Some(i + 1)
  }

  /** `add_phone`: a valid number is appended (duplicates included); an
      invalid one leaves the record as it was and reports the validation error. */
  function AddPhone(rec: Record, number: string): (u: Updated<Record>)
    ensures u.state.name == rec.name
    ensures IsValidPhone(number) ==>
      u.state.phones == rec.phones + [number] && u.message == "Phone number " + number + " added"
    ensures !IsValidPhone(number) ==> u.state == rec && u.message == InvalidPhone
  {
    match ValidatePhone(number)
    case Ok(p) => Updated(rec.(phones := rec.phones + [p]), "Phone number " + number + " added")
    case Err(e) => Updated(rec, e)
  }

  /** `remove_phone`: drops the first phone equal to the number, keeping the
      others in order; reports PhoneNotFound and changes nothing otherwise. */
  function RemovePhone(rec: Record, number: string): (u: Updated<Record>)
    ensures u.state.name == rec.name
    ensures multiset(u.state.phones) == multiset(rec.phones) - multiset{number}
    ensures number in rec.phones ==>
      && |u.state.phones| == |rec.phones| - 1
      && u.message == "Phone number " + number + " removed"
      && exists i :: 0 <= i < |rec.phones| && rec.phones[i] == number && number !in rec.phones[..i]
                     && u.state.phones == rec.phones[..i] + rec.phones[i + 1..]
    ensures number !in rec.phones ==> u.state == rec && u.message == PhoneNotFound
  {
    match FirstIndex(rec.phones, number)
    case None => Updated(rec, PhoneNotFound)
    case Some(i) =>
      assert rec.phones == rec.phones[..i] + [number] + rec.phones[i + 1..];
      Updated(rec.(phones := rec.phones[..i] + rec.phones[i + 1..]), "Phone number " + number + " removed")
  }

  /** `edit_phone`: the first phone equal to `old` becomes `new` in place,
      provided `new` is valid; the list length never changes. */
  function EditPhone(rec: Record, oldNumber: string, newNumber: string): (u: Updated<Record>)
    ensures u.state.name == rec.name
    ensures |u.state.phones| == |rec.phones|
    ensures oldNumber in rec.phones && IsValidPhone(newNumber) ==>
      && u.message == "Phone number " + oldNumber + " changed to " + newNumber
      && exists i :: 0 <= i < |rec.phones| && rec.phones[i] == oldNumber && oldNumber !in rec.phones[..i]
                     && u.state.phones == rec.phones[i := newNumber]
    ensures oldNumber in rec.phones && !IsValidPhone(newNumber) ==> u.state == rec && u.message == InvalidPhone
    ensures oldNumber !in rec.phones ==> u.state == rec && u.message == PhoneNotFound
  {
    match FirstIndex(rec.phones, oldNumber)
    case None => Updated(rec, PhoneNotFound)
    case Some(i) =>
      match ValidatePhone(newNumber)
      case Ok(p) => Updated(rec.(phones := rec.phones[i := p]), "Phone number " + oldNumber + " changed to " + newNumber)
      case Err(e) => Updated(rec, e)
  }

  /** `find_phone`: the number itself when the record holds it. */
  function FindPhone(rec: Record, number: string): (r: string)
    ensures number in rec.phones ==> r == number
    ensures number !in rec.phones ==> r == PhoneNotFound
  {
    match FirstIndex(rec.phones, number)
    case Some(i) => rec.phones[i]
    case None => PhoneNotFound
  }

  const RenderPrefix := "Contact name: "
  const PhonesLabel := ", phones: "

  /** `str(record)`: always opens with "Contact name: " and the name; the
      rest of the layout is RenderLayout. */
  function Render(rec: Record): (r: string)
    ensures |RenderPrefix| + |rec.name| <= |r|
    ensures r[..|RenderPrefix| + |rec.name|] == RenderPrefix + rec.name
  {
    RenderPrefix + rec.name + PhonesLabel + Join("; ", rec.phones)
  }

  // ----- properties relating the operations -----

  /** No operation lets an unvalidated number into a well-formed record. */
  lemma AddPhoneKeepsWellFormed(rec: Record, number: string)
    requires WellFormed(rec)
    ensures WellFormed(AddPhone(rec, number).state)
  {
  }

  lemma RemovePhoneKeepsWellFormed(rec: Record, number: string)
    requires WellFormed(rec)
    ensures WellFormed(RemovePhone(rec, number).state)
  {
    var removed := RemovePhone(rec, number).state;
    forall j | 0 <= j < |removed.phones| ensures IsValidPhone(removed.phones[j]) {
      assert removed.phones[j] in multiset(removed.phones);
      assert removed.phones[j] in multiset(rec.phones);
    }
  }

  lemma EditPhoneKeepsWellFormed(rec: Record, oldNumber: string, newNumber: string)
    requires WellFormed(rec)
    ensures WellFormed(EditPhone(rec, oldNumber, newNumber).state)
  {
    if oldNumber in rec.phones && IsValidPhone(newNumber) {
      var j := FirstIndex(rec.phones, oldNumber).value;
      assert EditPhone(rec, oldNumber, newNumber).state.phones == rec.phones[j := newNumber];
    }
  }

  /** A number just added is found. */
  lemma AddThenFind(rec: Record, number: string)
    requires IsValidPhone(number)
    ensures FindPhone(AddPhone(rec, number).state, number) == number
  {
    assert AddPhone(rec, number).state.phones[|rec.phones|] == number;
  }

  /** Removing the only copy of a number makes it unfindable. */
  lemma RemoveThenFind(rec: Record, number: string)
    requires multiset(rec.phones)[number] == 1
    ensures FindPhone(RemovePhone(rec, number).state, number) == PhoneNotFound
  {
    assert number in multiset(rec.phones);
    assert multiset(RemovePhone(rec, number).state.phones)[number] == 0;
  }

  /** After a successful edit the new number is found; after an edit with
      an invalid new number the old one is still there. */
  lemma EditThenFind(rec: Record, oldNumber: string, newNumber: string)
    requires oldNumber in rec.phones
    ensures IsValidPhone(newNumber) ==> FindPhone(EditPhone(rec, oldNumber, newNumber).state, newNumber) == newNumber
    ensures !IsValidPhone(newNumber) ==> FindPhone(EditPhone(rec, oldNumber, newNumber).state, oldNumber) == oldNumber
  {
    var edited := EditPhone(rec, oldNumber, newNumber).state;
    if IsValidPhone(newNumber) {
      var j := FirstIndex(rec.phones, oldNumber).value;
      assert edited.phones == rec.phones[j := newNumber];
      assert edited.phones[j] == newNumber;
    } else {
      assert edited == rec;
    }
  }

  /** With ten-character phones, the joined list puts phone i at offset
      12*i, with "; " in the two characters after every phone but the last. */
  lemma {:induction false} JoinPhonesLayout(ps: seq<string>)
    requires forall i :: 0 <= i < |ps| ==> |ps[i]| == PhoneLength
    ensures |Join("; ", ps)| == if |ps| == 0 then 0 else 12 * |ps| - 2
    ensures forall i :: 0 <= i < |ps| ==> Join("; ", ps)[12 * i .. 12 * i + 10] == ps[i]
    ensures forall i :: 0 <= i < |ps| - 1 ==> Join("; ", ps)[12 * i + 10 .. 12 * i + 12] == "; "
    decreases |ps|
  {
    if |ps| > 1 {
      JoinPhonesLayout(ps[1..]);
      var j := Join("; ", ps);
      var t := Join("; ", ps[1..]);
      assert j == ps[0] + "; " + t;
      forall i | 0 <= i < |ps| ensures j[12 * i .. 12 * i + 10] == ps[i] {
        if i == 0 {
          assert j[..10] == ps[0];
        } else {
          assert ps[1..][i - 1] == ps[i];
          assert j[12 * i .. 12 * i + 10] == t[12 * (i - 1) .. 12 * (i - 1) + 10];
        }
      }
      forall i | 0 <= i < |ps| - 1 ensures j[12 * i + 10 .. 12 * i + 12] == "; " {
        if i > 0 {
          assert j[12 * i + 10 .. 12 * i + 12] == t[12 * (i - 1) + 10 .. 12 * (i - 1) + 12];
        }
      }
    } else if |ps| == 1 {
      assert Join("; ", ps)[0 .. 10] == ps[0];
    }
  }

  /** The printed form names the contact, then the phones label, then the
      phones in order: phone i occupies ten characters starting 12*i after
      the label, "; " follows every phone but the last, and nothing else. */
  lemma RenderLayout(rec: Record)
    requires WellFormed(rec)
    ensures Render(rec)[..|RenderPrefix|] == RenderPrefix
    ensures Render(rec)[|RenderPrefix| .. |RenderPrefix| + |rec.name|] == rec.name
    ensures Render(rec)[|RenderPrefix| + |rec.name| .. |RenderPrefix| + |rec.name| + |PhonesLabel|] == PhonesLabel
    ensures |Render(rec)| == |RenderPrefix| + |rec.name| + |PhonesLabel| +
      (if |rec.phones| == 0 then 0 else 12 * |rec.phones| - 2)
    ensures forall i :: 0 <= i < |rec.phones| ==>
      var at := |RenderPrefix| + |rec.name| + |PhonesLabel| + 12 * i;
      at + 10 <= |Render(rec)| && Render(rec)[at .. at + 10] == rec.phones[i]
    ensures forall i :: 0 <= i < |rec.phones| - 1 ==>
      var at := |RenderPrefix| + |rec.name| + |PhonesLabel| + 12 * i;
      Render(rec)[at + 10 .. at + 12] == "; "
  {
    var j := Join("; ", rec.phones);
    JoinPhonesLayout(rec.phones);
    var base := |RenderPrefix| + |rec.name| + |PhonesLabel|;
    assert Render(rec) == RenderPrefix + rec.name + PhonesLabel + j;
    forall i | 0 <= i < |rec.phones|
      ensures base + 12 * i + 10 <= |Render(rec)| && Render(rec)[base + 12 * i .. base + 12 * i + 10] == rec.phones[i]
    {
      assert Render(rec)[base + 12 * i .. base + 12 * i + 10] == j[12 * i .. 12 * i + 10];
    }
    forall i | 0 <= i < |rec.phones| - 1
      ensures Render(rec)[base + 12 * i + 10 .. base + 12 * i + 12] == "; "
    {
      assert Render(rec)[base + 12 * i + 10 .. base + 12 * i + 12] == j[12 * i + 10 .. 12 * i + 12];
    }
  }

  /** Two well-formed records of the same contact print alike only when
      they hold the same phones in the same order. */
  lemma RenderDeterminesPhones(a: Record, b: Record)
    requires WellFormed(a) && WellFormed(b) && a.name == b.name
    requires Render(a) == Render(b)
    ensures a.phones == b.phones
  {
    JoinPhonesLayout(a.phones);
    JoinPhonesLayout(b.phones);
    RenderLayout(a);
    RenderLayout(b);
    var base := |RenderPrefix| + |a.name| + |PhonesLabel|;
    assert |Render(a)| == base + |Join("; ", a.phones)|;
    assert |Render(b)| == base + |Join("; ", b.phones)|;
    assert |a.phones| == |b.phones|;
    forall i | 0 <= i < |a.phones| ensures a.phones[i] == b.phones[i] {
      assert Render(a)[base + 12 * i .. base + 12 * i + 10] == a.phones[i];
      assert Render(b)[base + 12 * i .. base + 12 * i + 10] == b.phones[i];
    }
  }
}
