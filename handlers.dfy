/** The command handlers (task.py, `add_contact` … `delete_contact` and
    `show_all`). Each takes the argument words and the book and returns the
    text shown to the user; the `input_error` decorator is `InputError`, a
    match over the failure the handler's body produced. */
module Handlers {
  import opened Results
  import opened Fields
  import opened Contacts

  const AskNameAndPhone := "Give me name and phone please."
  const AskContactName := "Enter the contact name please."
  const NoSuchContact := "This contact is not exist :("
  const ContactAdded := "Contact added."
  const ContactUpdated := "Contact updated."
  const ContactRemoved := "Contact removed."
  const ContactNotFound := "Contact not found."
  /** `change_contact` writes it without the full stop. */
  const ContactNotFoundNoStop := "Contact not found"
  /** What `show_birthday` writes after the name when no birthday is set. */
  const NotRecorded := "date not recorded."

  /** `input_error`: the handler's own answer, or the fixed text for the
      exception it raised. */
  function InputError(r: Result<string>): (msg: string)
    ensures r.Ok? ==> msg == r.value
    ensures r.Err? && r.error.ValueError? ==> msg == AskNameAndPhone
    ensures r == Err(IndexError) ==> msg == AskContactName
    ensures r == Err(KeyError) ==> msg == NoSuchContact
  {
    match r
    case Ok(m) => m
    case Err(ValueError(_)) => AskNameAndPhone
    case Err(IndexError) => AskContactName
    case Err(KeyError) => NoSuchContact
  }

  /** Unpacking fewer arguments than a handler names raises `ValueError`. */
  const TooFewArguments: Result<string> := Err(ValueError(NotEnoughValues))

  /** `add_contact`: `name, phone, *_ = args`; a new name gets an empty
      record first, then a non-empty phone is added. An invalid phone still
      leaves the new, empty record in the book. */
  method AddContact(args: seq<string>, book: AddressBook) returns (msg: string)
    requires book.Valid()
    modifies book, book.data.Values
    ensures book.Valid()
    ensures fresh(book.data.Values - old(book.data.Values))
    ensures |args| < 2 ==> msg == AskNameAndPhone && unchanged(book) && unchanged(book.data.Values)
    ensures |args| >= 2 ==>
      var name, phone := args[0], args[1];
      var existed := name in old(book.data);
      var before := if existed then old(book.Snapshot())[name] else Entry([], None);
      var rejected := phone != "" && !IsValidPhone(phone);
      var after := if phone != "" && !rejected then before.(phones := before.phones + [Phone(phone)]) else before;
      && msg == (if rejected then AskNameAndPhone else if existed then ContactUpdated else ContactAdded)
      && book.Snapshot() == old(book.Snapshot())[name := after]
      && book.keys == if existed then old(book.keys) else old(book.keys) + [name]
  {
    if |args| < 2 {
      return InputError(TooFewArguments);
    }
    var name, phone := args[0], args[1];
    var record, added := RecordFor(name, book);
    var message := if added then ContactAdded else ContactUpdated;
    ghost var entry := record.View();
    var outcome := PhoneFor(record, phone, book);
    msg := InputError(if outcome.Pass? then Ok(message) else Err(outcome.error));
    Overwrite(old(book.Snapshot()), name, entry, record.View());
  }

  /** The start of `add_contact`: the record under name, created empty
      and added to the book when there is none. */
  method RecordFor(name: string, book: AddressBook) returns (record: Record, added: bool)
    requires book.Valid()
    modifies book
    ensures book.Valid()
    ensures added <==> name !in old(book.data)
    ensures record.name == name && book.data == old(book.data)[name := record]
    ensures added ==> fresh(record)
    ensures !added ==> record == old(book.data)[name]
    ensures fresh(book.data.Values - old(book.data.Values))
    ensures record.View() == if added then Entry([], None) else old(book.Snapshot())[name]
    ensures book.Snapshot() == old(book.Snapshot())[name := record.View()]
    ensures book.keys == if added then old(book.keys) + [name] else old(book.keys)
  {
    var found := book.Find(name);
    added := found.None?;
    if added {
      record := new Record(name);
      book.AddRecord(record);
    } else {
      record := found.value;
    }
    SnapshotAfterUpdate(book, old(book.data), old(book.Snapshot()), record);
  }

  /** The end of `add_contact`: a non-empty phone is added to the record,
      which is stored in the book under its name. */
  method PhoneFor(record: Record, phone: string, book: AddressBook) returns (outcome: Outcome)
    requires book.Valid() && record.name in book.data && book.data[record.name] == record
    modifies record
    ensures outcome == if phone == "" then Pass else Validate(phone)
    ensures record.phones == if phone != "" && outcome.Pass? then old(record.phones) + [Phone(phone)] else old(record.phones)
    ensures record.birthday == old(record.birthday)
    ensures book.Snapshot() == old(book.Snapshot())[record.name := record.View()]
  {
    outcome := Pass;
    if phone != "" {
      outcome := record.AddPhone(phone);
    }
    SnapshotAfterUpdate(book, old(book.data), old(book.Snapshot()), record);
  }

  lemma Overwrite(m: map<string, Entry>, k: string, a: Entry, b: Entry)
    ensures m[k := a][k := b] == m[k := b]
  {
  }

  /** The book after one record, stored under its name, was changed and no
      other record was. */
  lemma SnapshotAfterUpdate(book: AddressBook, data0: map<string, Record>, snap0: map<string, Entry>, record: Record)
    requires book.Valid() && record.name in book.data && book.data[record.name] == record
    requires book.data == data0[record.name := record]
    requires snap0.Keys == data0.Keys
    requires forall k :: k in data0 && k != record.name ==> snap0[k] == book.data[k].View()
    ensures book.Snapshot() == snap0[record.name := record.View()]
  {
  }

  /** `change_contact`: `name, old_phone, new_phone, *_ = args`; edits the
      phones of a known name. */
  method ChangeContact(args: seq<string>, book: AddressBook) returns (msg: string)
    requires book.Valid()
    modifies book.data.Values
    ensures book.Valid()
    ensures |args| < 3 ==> msg == AskNameAndPhone && unchanged(book.data.Values)
    ensures |args| >= 3 && args[0] !in book.data ==> msg == ContactNotFoundNoStop && unchanged(book.data.Values)
    ensures |args| >= 3 && args[0] in book.data ==>
      var name, oldPhone, newPhone := args[0], args[1], args[2];
      var before := old(book.Snapshot())[name];
      var fails := HasPhone(before.phones, oldPhone) && !IsValidPhone(newPhone);
      var after := if fails then before else before.(phones := ReplaceAll(before.phones, oldPhone, Phone(newPhone)));
      && msg == (if fails then AskNameAndPhone else ContactUpdated)
      && book.Snapshot() == old(book.Snapshot())[name := after]
  {
    if |args| < 3 {
      return InputError(TooFewArguments);
    }
    var name, oldPhone, newPhone := args[0], args[1], args[2];
    var found := book.Find(name);
    var message := ContactUpdated;
    if found.Some? {
      var outcome := found.value.EditPhone(oldPhone, newPhone);
      msg := InputError(if outcome.Pass? then Ok(message) else Err(outcome.error));
      SnapshotAfterUpdate(book, old(book.data), old(book.Snapshot()), found.value);
    } else {
      message := ContactNotFoundNoStop;
      msg := InputError(Ok(message));
    }
  }

  /** `show_phone`: `name, *_ = args`; the name and its phones joined
      with "; ". */
  function ShowPhone(args: seq<string>, book: AddressBook): (msg: string)
    reads book, book.data.Values
    requires book.Valid()
    ensures args == [] ==> msg == AskNameAndPhone
    ensures args != [] && args[0] !in book.data ==> msg == ContactNotFound
    ensures args != [] && args[0] in book.data && book.data[args[0]].phones == [] ==> msg == args[0] + " - "
    ensures args != [] && args[0] in book.data ==>
      msg == args[0] + " - " + JoinValues(book.data[args[0]].phones)
  {
    if args == [] then InputError(TooFewArguments)
    else
      match book.Find(args[0])
      case None => InputError(Ok(ContactNotFound))
      case Some(record) => InputError(Ok(record.name + " - " + JoinValues(record.phones)))
  }

  /** `add_birthday`: `name, birthday, *_ = args`; sets the birthday of a
      known name. */
  method AddBirthday(args: seq<string>, book: AddressBook) returns (msg: string)
    requires book.Valid()
    modifies book.data.Values
    ensures book.Valid()
    ensures |args| < 2 ==> msg == AskNameAndPhone && unchanged(book.data.Values)
    ensures |args| >= 2 && args[0] !in book.data ==> msg == ContactNotFound && unchanged(book.data.Values)
    ensures |args| >= 2 && args[0] in book.data ==>
      var name, raw := args[0], args[1];
      var before := old(book.Snapshot())[name];
      var parsed := NewBirthday(raw);
      && msg == (if parsed.Ok? then ContactUpdated else AskNameAndPhone)
      && book.Snapshot() == old(book.Snapshot())[name := if parsed.Ok? then before.(birthday := Some(parsed.value)) else before]
  {
    if |args| < 2 {
      return InputError(TooFewArguments);
    }
    var name, raw := args[0], args[1];
    var found := book.Find(name);
    var message := ContactUpdated;
    if found.Some? {
      var outcome := found.value.AddBirthday(raw);
      msg := InputError(if outcome.Pass? then Ok(message) else Err(outcome.error));
      SnapshotAfterUpdate(book, old(book.data), old(book.Snapshot()), found.value);
    } else {
      message := ContactNotFound;
      msg := InputError(Ok(message));
    }
  }

  /** `show_birthday`: `name, *_ = args`; the raw birthday string, or a
      note that none was recorded. */
  function ShowBirthday(args: seq<string>, book: AddressBook): (msg: string)
    reads book, book.data.Values
    requires book.Valid()
    ensures args == [] ==> msg == AskNameAndPhone
    ensures args != [] && args[0] !in book.data ==> msg == ContactNotFound
    ensures args != [] && args[0] in book.data ==>
      msg == args[0] + " - " + match book.data[args[0]].birthday
        case Some(b) => b.value
        case None => NotRecorded
  {
    if args == [] then InputError(TooFewArguments)
    else
      var name := args[0];
      match book.Find(name)
      case None => InputError(Ok(ContactNotFound))
      case Some(record) =>
        match record.birthday
        case Some(b) => InputError(Ok(name + " - " + b.value))
        case None => InputError(Ok(name + " - " + NotRecorded))
  }

  /** `delete_contact`: `name, *_ = args`; removes a known name. */
  method DeleteContact(args: seq<string>, book: AddressBook) returns (msg: string)
    requires book.Valid()
    modifies book
    ensures book.Valid()
    ensures args == [] ==> msg == AskNameAndPhone && unchanged(book)
    ensures args != [] && args[0] !in old(book.data) ==> msg == ContactNotFound && unchanged(book)
    ensures args != [] && args[0] in old(book.data) ==>
      && msg == ContactRemoved
      && book.data == old(book.data) - {args[0]}
      && book.keys == Erase(old(book.keys), args[0])
  {
    if args == [] {
      return InputError(TooFewArguments);
    }
    var name := args[0];
    var found := book.Find(name);
    var message := ContactNotFound;
    if found.Some? {
      book.Delete(name);
      message := ContactRemoved;
    }
    msg := InputError(Ok(message));
  }

  /** The text `show_all` builds for a book listed as es: one line per
      contact, in order. */
  function AllText(es: seq<(string, Entry)>): (r: string)
    ensures r == "" <==> es == []
    ensures es != [] ==> r[|r| - 1] == '\n'
  {
    if es == [] then "" else AllText(es[..|es| - 1]) + (Describe(es[|es| - 1].0, es[|es| - 1].1) + "\n")
  }

  lemma AllTextStep(es: seq<(string, Entry)>, i: nat)
    requires i < |es|
    ensures AllText(es[..i + 1]) == AllText(es[..i]) + (Describe(es[i].0, es[i].1) + "\n")
  {
    assert es[..i + 1][..i] == es[..i];
  }

  /** `show_all`: one `Record.__str__` line per contact, in book order. */
  method ShowAll(book: AddressBook) returns (res: string)
    requires book.Valid()
    ensures res == AllText(book.Listing())
    ensures book.keys == [] ==> res == ""
  {
    ghost var es := book.Listing();
    res := "";
    var i := 0;
    while i < |book.keys|
      invariant 0 <= i <= |book.keys|
      invariant res == AllText(es[..i])
    {
      var name := book.keys[i];
      assert name in book.keys;
      var record := book.data[name];
      AllTextStep(es, i);
      var birthday := match record.birthday case Some(b) => b.value case None => "None";
      var line := "Contact name: " + name + ", phones: " + JoinValues(record.phones) + ", birthday: " + birthday + "\n";
      assert line == Describe(name, record.View()) + "\n";
      res := res + line;
      i := i + 1;
    }
    assert es[..i] == es;
  }

  /** Line i of the listing is the `Record.__str__` of the i-th contact,
      after the lines of the contacts before it. */
  lemma AllTextLines(book: AddressBook, i: nat)
    requires book.Valid() && i < |book.keys|
    ensures AllText(book.Listing()[..i + 1])
      == AllText(book.Listing()[..i]) + (book.data[book.keys[i]].ToString() + "\n")
  {
    assert book.keys[i] in book.keys;
    AllTextStep(book.Listing(), i);
  }
}
