/** A contact `Record` (task.py, class Record) and the `AddressBook` that
    maps names to records (class AddressBook). Both are updated in place,
    so both are classes; the dictionary's insertion order, which listing
    and the birthday report follow, is kept as a sequence of keys. */
module Contacts {
  import opened Results
  import opened Fields

  /** The value a record holds at one moment. */
  datatype Entry = Entry(phones: seq<Phone>, birthday: Option<Birthday>)

  // ------------------------------------------- phone lists, as values

  /** Some phone in ps has exactly the raw text v. */
  predicate HasPhone(ps: seq<Phone>, v: string) {
    exists i :: 0 <= i < |ps| && ps[i].value == v
  }

  /** What `edit_phone` makes of a list: every entry whose raw text is
      target becomes p. */
  function ReplaceAll(ps: seq<Phone>, target: string, p: Phone): (r: seq<Phone>)
    ensures |r| == |ps|
  {
    if ps == [] then []
    else [if ps[0].value == target then p else ps[0]] + ReplaceAll(ps[1..], target, p)
  }

  /** What `remove_phone` makes of a list: deleting while `enumerate` keeps
      counting, so the entry right after each deleted one is passed over
      and kept whatever it holds. */
  function RemoveSkipping(ps: seq<Phone>, v: string): (r: seq<Phone>)
    ensures |r| <= |ps|
  {
    if ps == [] then []
    else if ps[0].value != v then [ps[0]] + RemoveSkipping(ps[1..], v)
    else if |ps| == 1 then []
    else [ps[1]] + RemoveSkipping(ps[2..], v)
  }

  /** The entries whose raw text is not v, in order. */
  function Others(ps: seq<Phone>, v: string): seq<Phone> {
    if ps == [] then []
    else (if ps[0].value != v then [ps[0]] else []) + Others(ps[1..], v)
  }

  /** `'; '.join(p.value for p in ps)`. */
  function JoinValues(ps: seq<Phone>): (r: string)
    ensures ps == [] ==> r == ""
    ensures |ps| == 1 ==> r == ps[0].value
  {
    if ps == [] then ""
    else if |ps| == 1 then ps[0].value
    else ps[0].value + "; " + JoinValues(ps[1..])
  }

  /** Each further phone is written after "; ". */
  lemma {:induction false} JoinValuesSnoc(ps: seq<Phone>, p: Phone)
    requires ps != []
    ensures JoinValues(ps + [p]) == JoinValues(ps) + "; " + p.value
    decreases |ps|
  {
    var qs := ps + [p];
    assert qs[0] == ps[0];
    assert qs[1..] == ps[1..] + [p];
    if |ps| > 1 {
      JoinValuesSnoc(ps[1..], p);
    }
  }

  /** `Record.__str__`; `show_all` writes the same text, since `str(None)`
      is `None` and a birthday prints as its raw string. */
  function Describe(name: string, e: Entry): (r: string)
    ensures |r| >= 14 + |name| && r[..14 + |name|] == "Contact name: " + name
  {
    "Contact name: " + name + ", phones: " + JoinValues(e.phones) + ", birthday: "
      + (match e.birthday case Some(b) => b.value case None => "None")
  }

  lemma {:induction false} ReplaceAllAt(ps: seq<Phone>, target: string, p: Phone, i: nat)
    requires i < |ps|
    ensures ReplaceAll(ps, target, p)[i] == if ps[i].value == target then p else ps[i]
  {
    if i > 0 {
      ReplaceAllAt(ps[1..], target, p, i - 1);
    }
  }

  /** Without a match, editing changes nothing. */
  lemma {:induction false} ReplaceAllNoMatch(ps: seq<Phone>, target: string, p: Phone)
    requires !HasPhone(ps, target)
    ensures ReplaceAll(ps, target, p) == ps
  {
    if ps != [] {
      NoPhoneTail(ps, target);
      ReplaceAllNoMatch(ps[1..], target, p);
    }
  }

  lemma NoPhoneTail(ps: seq<Phone>, v: string)
    requires ps != [] && !HasPhone(ps, v)
    ensures !HasPhone(ps[1..], v)
  {
    forall i | 0 <= i < |ps[1..]| ensures ps[1..][i].value != v {
      assert ps[1..][i] == ps[i + 1];
    }
  }

  /** Every entry that does not match survives, in its order. */
  lemma {:induction false} RemoveKeepsOthers(ps: seq<Phone>, v: string)
    ensures Others(RemoveSkipping(ps, v), v) == Others(ps, v)
  {
    if ps != [] {
      if ps[0].value != v {
        RemoveKeepsOthers(ps[1..], v);
        OthersCons(ps[0], RemoveSkipping(ps[1..], v), v);
      } else if |ps| > 1 {
        RemoveKeepsOthers(ps[2..], v);
        OthersCons(ps[1], RemoveSkipping(ps[2..], v), v);
        assert ps[1..][1..] == ps[2..];
      }
    }
  }

  lemma OthersCons(x: Phone, ps: seq<Phone>, v: string)
    ensures Others([x] + ps, v) == (if x.value != v then [x] else []) + Others(ps, v)
  {
    assert ([x] + ps)[1..] == ps;
  }

  /** Without a match, removing changes nothing. */
  lemma {:induction false} RemoveNoMatch(ps: seq<Phone>, v: string)
    requires !HasPhone(ps, v)
    ensures RemoveSkipping(ps, v) == ps
  {
    if ps != [] {
      assert ps[0].value != v;
      NoPhoneTail(ps, v);
      RemoveNoMatch(ps[1..], v);
    }
  }

  /** A match at the front is removed, and its successor kept. */
  lemma RemoveAtHead(x: Phone, b: seq<Phone>)
    requires !HasPhone(b, x.value)
    ensures RemoveSkipping([x] + b, x.value) == b
  {
    var s := [x] + b;
    if b != [] {
      assert s[0] == x && s[1] == b[0] && s[2..] == b[1..];
      assert b[0].value != x.value;
      NoPhoneTail(b, x.value);
      RemoveNoMatch(b[1..], x.value);
      assert [b[0]] + b[1..] == b;
    }
  }

  /** A single match is removed, and only it. */
  lemma {:induction false} RemoveSingle(a: seq<Phone>, x: Phone, b: seq<Phone>)
    requires !HasPhone(a, x.value) && !HasPhone(b, x.value)
    ensures RemoveSkipping(a + [x] + b, x.value) == a + b
  {
    if a == [] {
      assert a + [x] + b == [x] + b && a + b == b;
      RemoveAtHead(x, b);
    } else {
      var s := a + [x] + b;
      assert s[0] == a[0] && s[0].value != x.value;
      assert s[1..] == a[1..] + [x] + b;
      NoPhoneTail(a, x.value);
      RemoveSingle(a[1..], x, b);
      assert [a[0]] + (a[1..] + b) == a + b;
    }
  }

  /** Of two matching entries side by side, the second survives. */
  lemma {:induction false} RemoveAdjacentSurvives(a: seq<Phone>, x: Phone, b: seq<Phone>)
    requires !HasPhone(a, x.value)
    ensures RemoveSkipping(a + [x, x] + b, x.value) == a + [x] + RemoveSkipping(b, x.value)
  {
    if a == [] {
      assert a + [x, x] + b == [x, x] + b;
      assert ([x, x] + b)[2..] == b;
    } else {
      assert (a + [x, x] + b)[0] == a[0];
      assert (a + [x, x] + b)[1..] == a[1..] + [x, x] + b;
      NoPhoneTail(a, x.value);
      RemoveAdjacentSurvives(a[1..], x, b);
    }
  }

  // ------------------------------------------------------------ Record

  class Record {
    const name: string
    var phones: seq<Phone>
    var birthday: Option<Birthday>

    /** `Record(name)`: no phones and no birthday yet. */
    constructor (name: string)
      ensures this.name == name && phones == [] && birthday == None
    {
      this.name := name;
      phones := [];
      birthday := None;
    }

    function View(): Entry
      reads this
    {
      Entry(phones, birthday)
    }

    /** `Record.__str__`. */
    function ToString(): (s: string)
      reads this
      ensures birthday.None? ==>
        s == "Contact name: " + name + ", phones: " + JoinValues(phones) + ", birthday: " + "None"
      ensures birthday.Some? ==>
        s == "Contact name: " + name + ", phones: " + JoinValues(phones) + ", birthday: " + birthday.value.value
    {
      Describe(name, View())
    }

    /** `add_phone`: append on success; an invalid phone raises and the
        list stays as it was. */
    method AddPhone(raw: string) returns (r: Outcome)
      modifies this
      ensures r == Validate(raw)
      ensures phones == if r.Pass? then old(phones) + [Phone(raw)] else old(phones)
      ensures birthday == old(birthday)
    {
      match NewPhone(raw)
      case Ok(p) =>
        phones := phones + [p];
        r := Pass;
      case Err(e) =>
        r := Fail(e);
    }

    /** `add_birthday`: overwrite on success; on failure the previous
        birthday stays. */
    method AddBirthday(raw: string) returns (r: Outcome)
      modifies this
      ensures r.Pass? <==> NewBirthday(raw).Ok?
      ensures r.Fail? ==> r.error == ValueError(DateFormat)
      ensures birthday == if r.Pass? then Some(Birthday(raw, ParseDate(raw).value)) else old(birthday)
      ensures phones == old(phones)
    {
      match NewBirthday(raw)
      case Ok(b) =>
        birthday := Some(b);
        r := Pass;
      case Err(e) =>
        r := Fail(e);
    }

    /** `edit_phone`: each entry whose raw text equals oldPhone is replaced
        by `Phone(newPhone)`. Building that phone raises at the first match
        when newPhone is invalid, before anything was replaced; without a
        match nothing is built and nothing raises. */
    method EditPhone(oldPhone: string, newPhone: string) returns (r: Outcome)
      modifies this
      ensures r.Fail? <==> HasPhone(old(phones), oldPhone) && !IsValidPhone(newPhone)
      ensures r.Fail? ==> r == Validate(newPhone)
      ensures phones == if r.Pass? then ReplaceAll(old(phones), oldPhone, Phone(newPhone)) else old(phones)
      ensures birthday == old(birthday)
    {
      ghost var before := phones;
      var i := 0;
      while i < |phones|
        invariant 0 <= i <= |phones| == |before|
        invariant forall j :: 0 <= j < i ==>
          phones[j] == if before[j].value == oldPhone then Phone(newPhone) else before[j]
        invariant forall j :: i <= j < |phones| ==> phones[j] == before[j]
        invariant !IsValidPhone(newPhone) ==> forall j :: 0 <= j < i ==> before[j].value != oldPhone
        invariant birthday == old(birthday)
      {
        if phones[i].value == oldPhone {
          match NewPhone(newPhone)
          case Err(e) =>
            assert phones == before;
            return Fail(e);
          case Ok(p) =>
            phones := phones[i := p];
        }
        i := i + 1;
      }
      forall j | 0 <= j < |before|
        ensures ReplaceAll(before, oldPhone, Phone(newPhone))[j] == phones[j]
      {
        ReplaceAllAt(before, oldPhone, Phone(newPhone), j);
      }
      r := Pass;
    }

    /** `find_phone`: the first phone whose raw text is v, or None. */
    method FindPhone(v: string) returns (r: Option<Phone>)
      ensures r.Some? <==> HasPhone(phones, v)
      ensures r.Some? ==> r.value in phones && r.value.value == v
    {
      var i := 0;
      while i < |phones|
        invariant 0 <= i <= |phones|
        invariant forall j :: 0 <= j < i ==> phones[j].value != v
      {
        if phones[i].value == v {
          return Some(phones[i]);
        }
        i := i + 1;
      }
      return None;
    }

    /** `remove_phone`: `del phones[i]` inside `for i, _ in enumerate(phones)`. */
    method RemovePhone(v: string)
      modifies this
      ensures phones == RemoveSkipping(old(phones), v)
      ensures birthday == old(birthday)
    {
      var i := 0;
      assert phones[0..] == phones;
      while i < |phones|
        invariant RemoveSkipping(old(phones), v) == Pending(phones, i, v)
        invariant birthday == old(birthday)
        decreases |phones| + 1 - i
      {
        if phones[i].value == v {
          RemoveStepDelete(phones, i, v);
          phones := phones[..i] + phones[i + 1..];
        } else {
          RemoveStepKeep(phones, i, v);
        }
        i := i + 1;
      }
      PendingDone(phones, i, v);
    }
  }

  /** What the list of `remove_phone` will be once its loop finishes, when
      it has the contents s and the loop index is i: the part before i is
      final and the rest is still to be scanned. An index past the end
      means the loop is over. */
  function Pending(s: seq<Phone>, i: nat, v: string): seq<Phone> {
    if i <= |s| then s[..i] + RemoveSkipping(s[i..], v) else s
  }

  lemma PendingDone(s: seq<Phone>, i: nat, v: string)
    requires i >= |s|
    ensures Pending(s, i, v) == s
  {
    if i == |s| {
      assert s[..i] == s && s[i..] == [];
    }
  }

  /** One pass of the `remove_phone` loop over an entry that does not match. */
  lemma RemoveStepKeep(s: seq<Phone>, i: nat, v: string)
    requires i < |s| && s[i].value != v
    ensures Pending(s, i, v) == Pending(s, i + 1, v)
  {
    assert s[i..][0] == s[i];
    assert s[i..][1..] == s[i + 1..];
    assert s[..i + 1] == s[..i] + [s[i]];
  }

  /** One pass of the `remove_phone` loop over a matching entry: it is
      deleted and the loop index still moves on by one. */
  lemma RemoveStepDelete(s: seq<Phone>, i: nat, v: string)
    requires i < |s| && s[i].value == v
    ensures Pending(s, i, v) == Pending(s[..i] + s[i + 1..], i + 1, v)
  {
    var t := s[..i] + s[i + 1..];
    assert s[i..][0] == s[i];
    if i + 1 < |s| {
      assert s[i..][1] == s[i + 1];
      assert s[i..][2..] == s[i + 2..] == t[i + 1..];
      assert t[..i + 1] == s[..i] + [s[i + 1]];
    } else {
      assert s[i..] == [s[i]];
      assert t == s[..i];
    }
  }

  // ------------------------------------------------------- AddressBook

  /** s without x; the relative order of the rest is kept. */
  function Erase(s: seq<string>, x: string): (r: seq<string>)
    ensures forall k :: k in r <==> k in s && k != x
    ensures x !in s ==> r == s
    ensures |r| <= |s|
  {
    if s == [] then []
    else (if s[0] == x then [] else [s[0]]) + Erase(s[1..], x)
  }

  predicate Distinct(s: seq<string>) {
    forall i, j :: 0 <= i < j < |s| ==> s[i] != s[j]
  }

  lemma DistinctTail(s: seq<string>)
    requires s != [] && Distinct(s)
    ensures Distinct(s[1..])
  {
    forall i, j | 0 <= i < j < |s[1..]| ensures s[1..][i] != s[1..][j] {
      assert s[1..][i] == s[i + 1] && s[1..][j] == s[j + 1];
    }
  }

  /** Erasing a key of a sequence of distinct keys takes out exactly its
      position: the keys before and after it stay, in their order. */
  lemma {:induction false} EraseAt(s: seq<string>, i: nat)
    requires Distinct(s) && i < |s|
    ensures Erase(s, s[i]) == s[..i] + s[i + 1..]
    decreases |s|
  {
    if i == 0 {
      EraseHead(s);
    } else {
      DistinctTail(s);
      assert s[1..][i - 1] == s[i] && s[0] != s[i];
      EraseAt(s[1..], i - 1);
      EraseStep(s, i);
    }
  }

  lemma EraseHead(s: seq<string>)
    requires Distinct(s) && s != []
    ensures Erase(s, s[0]) == s[1..]
  {
    var t := s[1..];
    assert s[0] !in t by {
      forall j | 0 <= j < |t| ensures t[j] != s[0] {
        assert t[j] == s[j + 1];
      }
    }
  }

  lemma EraseStep(s: seq<string>, i: nat)
    requires 0 < i < |s| && s[0] != s[i]
    requires Erase(s[1..], s[i]) == s[1..][..i - 1] + s[1..][i..]
    ensures Erase(s, s[i]) == s[..i] + s[i + 1..]
  {
    EraseKeep(s, s[i]);
    SpliceTail(s, i);
  }

  lemma EraseKeep(s: seq<string>, x: string)
    requires s != [] && s[0] != x
    ensures Erase(s, x) == [s[0]] + Erase(s[1..], x)
  {
  }

  lemma SpliceTail(s: seq<string>, i: nat)
    requires 0 < i < |s|
    ensures [s[0]] + (s[1..][..i - 1] + s[1..][i..]) == s[..i] + s[i + 1..]
  {
    assert s[1..][..i - 1] == s[1..i] && s[1..][i..] == s[i + 1..];
    assert s[..i] == [s[0]] + s[1..i];
  }

  lemma {:induction false} EraseDistinct(s: seq<string>, x: string)
    requires Distinct(s)
    ensures Distinct(Erase(s, x))
  {
    if s != [] {
      DistinctTail(s);
      EraseDistinct(s[1..], x);
      var rest := Erase(s[1..], x);
      assert s[0] !in s[1..];
      assert s[0] !in rest;
    }
  }

  class AddressBook {
    var data: map<string, Record>
    /** The dictionary's keys in insertion order. */
    var keys: seq<string>

    ghost predicate Valid()
      reads this
    {
      && Distinct(keys)
      && (forall k :: k in data <==> k in keys)
      && (forall k :: k in data ==> data[k].name == k)
    }

    constructor ()
      ensures Valid() && data == map[] && keys == []
    {
      data := map[];
      keys := [];
    }

    /** What each name holds now. */
    ghost function Snapshot(): (m: map<string, Entry>)
      reads this, data.Values
      ensures m.Keys == data.Keys
      ensures forall k :: k in data ==> m[k] == data[k].View()
    {
      map k | k in data :: data[k].View()
    }

    /** `book.items()`, in dictionary order. */
    ghost function Listing(): (l: seq<(string, Entry)>)
      reads this, data.Values
      requires Valid()
      ensures |l| == |keys|
      ensures forall i :: 0 <= i < |keys| ==> l[i] == (keys[i], data[keys[i]].View())
    {
      assert forall i :: 0 <= i < |keys| ==> keys[i] in data by {
        forall i | 0 <= i < |keys| ensures keys[i] in data {
          assert keys[i] in keys;
        }
      }
      seq(|keys|, i requires 0 <= i < |keys| && keys[i] in data reads this, data.Values =>
        (keys[i], data[keys[i]].View()))
    }

    /** `add_record`: its membership test compares a `Name` object with
        string keys and never holds, so the record is always stored under
        its name; an existing name keeps its place in the order. */
    method AddRecord(record: Record)
      requires Valid()
      modifies this
      ensures Valid()
      ensures data == old(data)[record.name := record]
      ensures keys == if record.name in old(data) then old(keys) else old(keys) + [record.name]
      ensures Find(record.name) == Some(record)
    {
      if record.name !in data {
        keys := keys + [record.name];
      }
      data := data[record.name := record];
    }

    /** `find`: `data.get(name)`. */
    function Find(name: string): (r: Option<Record>)
      reads this
      requires Valid()
      ensures r.Some? <==> name in data
      ensures r.Some? ==> r.value == data[name] && r.value.name == name
    {
      if name in data then Some(data[name]) else None
    }

    /** `delete`: removes the name when present, otherwise nothing. */
    method Delete(name: string)
      requires Valid()
      modifies this
      ensures Valid()
      ensures data == old(data) - {name}
      ensures keys == Erase(old(keys), name)
      ensures name !in old(data) ==> data == old(data) && keys == old(keys)
    {
      if name in data {
        EraseDistinct(keys, name);
        keys := Erase(keys, name);
        data := data - {name};
      }
    }
  }
}
