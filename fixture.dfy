/** The demonstration contacts task.py adds at start-up, taken as the
    listing the book holds once they were added: their phones and birthdays
    are accepted as written, and the birthday report for them on Thursday
    1 August 2024 is the header followed by Pane, Cane and Dane. A short
    session of commands on one book shows the handlers working in turn. */
module Fixture {
  import opened Results
  import opened Calendar
  import opened Decimal
  import opened Fields
  import opened Contacts
  import opened Scheduler
  import opened Handlers

  const Today := Date(2024, 8, 1)
  const JohnMobile := "1234567855"
  const JohnWork := "5555555555"
  const SharedPhone := "9876543210"

  const JohnEntry := Entry([Phone(JohnMobile), Phone(JohnWork)], None)
  const JaneEntry := Entry([Phone(SharedPhone)], Some(Birthday("23.07.1989", Date(1989, 7, 23))))
  const PaneEntry := Entry([Phone(SharedPhone)], Some(Birthday("07.08.1989", Date(1989, 8, 7))))
  const CaneEntry := Entry([Phone(SharedPhone)], Some(Birthday("02.08.1989", Date(1989, 8, 2))))
  const DaneEntry := Entry([Phone(SharedPhone)], Some(Birthday("03.08.1989", Date(1989, 8, 3))))

  /** The demonstration book as `book.items()` lists it. */
  function SeedListing(): seq<(string, Entry)> {
    [("John", JohnEntry), ("Jane", JaneEntry), ("Pane", PaneEntry), ("Cane", CaneEntry), ("Dane", DaneEntry)]
  }

  // ------------------------------------------------------ the start-up code

  /** Ten digits and nothing else make a valid phone, kept as given. */
  lemma TenDigits(raw: string)
    requires |raw| == 10 && AllDigits(raw)
    ensures NewPhone(raw) == Ok(Phone(raw))
  {
    NormalizeDigits(raw);
  }

  /** The demonstration phones are accepted as they are written. */
  lemma JohnMobileValid()
    ensures NewPhone(JohnMobile) == Ok(Phone(JohnMobile))
  {
    TenDigits(JohnMobile);
  }

  lemma JohnWorkValid()
    ensures NewPhone(JohnWork) == Ok(Phone(JohnWork))
  {
    TenDigits(JohnWork);
  }

  lemma SharedPhoneValid()
    ensures NewPhone(SharedPhone) == Ok(Phone(SharedPhone))
  {
    TenDigits(SharedPhone);
  }

  lemma Show1989()
    ensures Show(1989) == "1989"
  {
    assert Show(1) == "1";
    assert Show(19) == "19";
    assert Show(198) == "198";
  }

  /** A demonstration birthday `DD.MM.1989` is accepted and names that
      date. */
  lemma Parse1989(a: string, b: string, s: string)
    requires AllDigits(a) && AllDigits(b) && |a| == 2 && |b| == 2
    requires s == a + "." + b + "." + "1989"
    requires ValidDate(Date(1989, Value(b), Value(a)))
    ensures ParseDate(s) == Some(Date(1989, Value(b), Value(a)))
  {
    Show1989();
    ValueShow(1989);
    Joined(a, b, "1989");
    ParseLayout(s, 2, 2);
  }

  lemma Value2(s: string)
    requires |s| == 2 && AllDigits(s)
    ensures Value(s) == 10 * DigitValue(s[0]) + DigitValue(s[1])
  {
    var t := s[..1];
    assert |t| == 1 && t[0] == s[0] && t[..0] == [];
    assert Value(t) == DigitValue(s[0]);
  }

  /** The demonstration birthdays are accepted as they are written and
      name the dates stored for them. */
  lemma JaneBirthday()
    ensures NewBirthday("23.07.1989") == Ok(JaneEntry.birthday.value)
  {
    Value2("23");
    Value2("07");
    Parse1989("23", "07", "23.07.1989");
  }

  lemma PaneBirthday()
    ensures NewBirthday("07.08.1989") == Ok(PaneEntry.birthday.value)
  {
    Value2("07");
    Value2("08");
    Parse1989("07", "08", "07.08.1989");
  }

  lemma CaneBirthday()
    ensures NewBirthday("02.08.1989") == Ok(CaneEntry.birthday.value)
  {
    Value2("02");
    Value2("08");
    Parse1989("02", "08", "02.08.1989");
  }

  lemma DaneBirthday()
    ensures NewBirthday("03.08.1989") == Ok(DaneEntry.birthday.value)
  {
    Value2("03");
    Value2("08");
    Parse1989("03", "08", "03.08.1989");
  }

  // ------------------------------------------------------------ the report

  /** 1 August 2024 is a Thursday; the 2nd a Friday, the 3rd a Saturday,
      the 5th a Monday and the 7th a Wednesday. */
  lemma SeedWeekdays()
    ensures Weekday(Today) == 3
    ensures Weekday(Date(2024, 8, 2)) == 4
    ensures Weekday(Date(2024, 8, 3)) == 5
    ensures Weekday(Date(2024, 8, 7)) == 2
    ensures Weekday(Date(2024, 8, 5)) == 0
  {
    assert DaysBeforeMonth(2024, 8) == 213;
  }

  lemma CandidatePane()
    ensures Candidate(Today, PaneEntry) == Ok(Some(Date(2024, 8, 7)))
  {
    SeedWeekdays();
    CandidateMeaning(Today, PaneEntry);
  }

  lemma CandidateCane()
    ensures Candidate(Today, CaneEntry) == Ok(Some(Date(2024, 8, 2)))
  {
    SeedWeekdays();
    CandidateMeaning(Today, CaneEntry);
  }

  /** Saturday the 3rd moves to Monday the 5th. */
  lemma DaneShifted()
    ensures Shifted(Date(2024, 8, 3)) == Date(2024, 8, 5)
  {
    SeedWeekdays();
    AddDaysWithinMonth(Date(2024, 8, 3), 2);
  }

  /** Dane's birthday falls on a Saturday and is reported for Monday. */
  lemma CandidateDane()
    ensures Candidate(Today, DaneEntry) == Ok(Some(Date(2024, 8, 5)))
  {
    DaneShifted();
    CandidateMeaning(Today, DaneEntry);
  }

  lemma Show2024()
    ensures Show(2024) == "2024"
  {
    assert Show(2) == "2";
    assert Show(20) == "20";
    assert Show(202) == "202";
  }

  /** `DD.08.2024` for a day below 10. */
  lemma FormatAugust(day: int)
    requires 1 <= day <= 9
    ensures FormatDate(Date(2024, 8, day)) == "0" + [DigitChar(day)] + ".08.2024"
  {
    Show2024();
    assert Pad(Show(8), 2) == "08";
    assert Pad(Show(day), 2) == "0" + [DigitChar(day)];
  }

  lemma PaneLine()
    ensures Line("Pane", Date(2024, 8, 7)) == "Pane - 07.08.2024\n"
  {
    FormatAugust(7);
  }

  lemma CaneLine()
    ensures Line("Cane", Date(2024, 8, 2)) == "Cane - 02.08.2024\n"
  {
    FormatAugust(2);
  }

  lemma DaneLine()
    ensures Line("Dane", Date(2024, 8, 5)) == "Dane - 05.08.2024\n"
  {
    FormatAugust(5);
  }

  lemma LinesSkip(today: Date, es: seq<(string, Entry)>, i: nat, ls: seq<string>)
    requires ValidDate(today) && i < |es|
    requires Lines(today, es[..i]) == Ok(ls) && Candidate(today, es[i].1) == Ok(None)
    ensures Lines(today, es[..i + 1]) == Ok(ls)
  {
    LinesStep(today, es, i);
  }

  lemma LinesTake(today: Date, es: seq<(string, Entry)>, i: nat, ls: seq<string>, d: Date)
    requires ValidDate(today) && i < |es|
    requires Lines(today, es[..i]) == Ok(ls) && Candidate(today, es[i].1) == Ok(Some(d)) && ValidDate(d)
    ensures Lines(today, es[..i + 1]) == Ok(ls + [Line(es[i].0, d)])
  {
    LinesStep(today, es, i);
  }

  lemma LinesFirst(today: Date, es: seq<(string, Entry)>, i: nat, d: Date)
    requires ValidDate(today) && i < |es|
    requires Lines(today, es[..i]) == Ok([]) && Candidate(today, es[i].1) == Ok(Some(d)) && ValidDate(d)
    ensures Lines(today, es[..i + 1]) == Ok([Line(es[i].0, d)])
  {
    var l := Line(es[i].0, d);
    LinesStep(today, es, i);
    assert [] + [l] == [l];
  }

  /** Two entries that are not reported give no lines. */
  lemma LinesOfTwo(today: Date, es: seq<(string, Entry)>)
    requires ValidDate(today) && |es| >= 2
    requires Candidate(today, es[0].1) == Ok(None) && Candidate(today, es[1].1) == Ok(None)
    ensures Lines(today, es[..2]) == Ok([])
  {
    assert es[..0] == [];
    LinesSkip(today, es, 0, []);
    LinesSkip(today, es, 1, []);
  }

  lemma LinesOfThree(today: Date, es: seq<(string, Entry)>, d2: Date)
    requires ValidDate(today) && |es| >= 3
    requires Candidate(today, es[0].1) == Ok(None) && Candidate(today, es[1].1) == Ok(None)
    requires Candidate(today, es[2].1) == Ok(Some(d2)) && ValidDate(d2)
    ensures Lines(today, es[..3]) == Ok([Line(es[2].0, d2)])
  {
    LinesOfTwo(today, es);
    LinesFirst(today, es, 2, d2);
  }

  lemma LinesOfFour(today: Date, es: seq<(string, Entry)>, d2: Date, d3: Date)
    requires ValidDate(today) && |es| >= 4
    requires Candidate(today, es[0].1) == Ok(None) && Candidate(today, es[1].1) == Ok(None)
    requires Candidate(today, es[2].1) == Ok(Some(d2)) && ValidDate(d2)
    requires Candidate(today, es[3].1) == Ok(Some(d3)) && ValidDate(d3)
    ensures Lines(today, es[..4]) == Ok([Line(es[2].0, d2)] + [Line(es[3].0, d3)])
  {
    LinesOfThree(today, es, d2);
    LinesTake(today, es, 3, [Line(es[2].0, d2)], d3);
  }

  /** The last entry, reported, adds its line to those before it. */
  lemma LinesLast(today: Date, es: seq<(string, Entry)>, ls: seq<string>, d: Date)
    requires ValidDate(today) && es != [] && ValidDate(d)
    requires Lines(today, es[..|es| - 1]) == Ok(ls) && Candidate(today, es[|es| - 1].1) == Ok(Some(d))
    ensures Lines(today, es) == Ok(ls + [Line(es[|es| - 1].0, d)])
  {
  }

  /** Five entries of which the last three are reported give those three
      lines, in order. */
  lemma LinesOfFive(today: Date, es: seq<(string, Entry)>, d2: Date, d3: Date, d4: Date)
    requires ValidDate(today) && |es| == 5
    requires Candidate(today, es[0].1) == Ok(None) && Candidate(today, es[1].1) == Ok(None)
    requires Candidate(today, es[2].1) == Ok(Some(d2)) && ValidDate(d2)
    requires Candidate(today, es[3].1) == Ok(Some(d3)) && ValidDate(d3)
    requires Candidate(today, es[4].1) == Ok(Some(d4)) && ValidDate(d4)
    ensures Lines(today, es) == Ok([Line(es[2].0, d2)] + [Line(es[3].0, d3)] + [Line(es[4].0, d4)])
  {
    LinesOfFour(today, es, d2, d3);
    LinesLast(today, es, [Line(es[2].0, d2)] + [Line(es[3].0, d3)], d4);
  }

  lemma Three(a: string, b: string, c: string)
    ensures [a] + [b] + [c] == [a, b, c]
  {
  }

  /** The report lines: John has no birthday and Jane's is in July; the
      other three follow in book order. */
  lemma SeedLines()
    ensures Lines(Today, SeedListing()) ==
      Ok(["Pane - 07.08.2024\n", "Cane - 02.08.2024\n", "Dane - 05.08.2024\n"])
  {
    var es := SeedListing();
    var pane, cane, dane := Date(2024, 8, 7), Date(2024, 8, 2), Date(2024, 8, 5);
    assert es[0].1 == JohnEntry && es[1].1 == JaneEntry;
    assert es[2] == ("Pane", PaneEntry) && es[3] == ("Cane", CaneEntry) && es[4] == ("Dane", DaneEntry);
    CandidatePane();
    CandidateCane();
    CandidateDane();
    LinesOfFive(Today, es, pane, cane, dane);
    PaneLine();
    CaneLine();
    DaneLine();
    Three(Line("Pane", pane), Line("Cane", cane), Line("Dane", dane));
  }

  /** Three lines make the header, which the second brought in, followed
      by the three. */
  lemma ReportOfThree(today: Date, es: seq<(string, Entry)>, a: string, b: string, c: string)
    requires ValidDate(today) && Lines(today, es) == Ok([a, b, c])
    ensures Report(today, es) == Ok(NextWeekHeader + a + b + c)
  {
    ConcatThree(a, b, c);
    assert Accumulate([a, b, c]) == NextWeekHeader + a + b + c;
  }

  lemma ConcatThree(a: string, b: string, c: string)
    ensures Concat([a, b, c]) == a + b + c
  {
    assert [a][..0] == [];
    assert Concat([a]) == "" + a == a;
    assert [a, b][..1] == [a];
    assert Concat([a, b]) == a + b;
    assert [a, b, c][..2] == [a, b];
  }

  /** The report for the demonstration book. */
  lemma SeedReport()
    ensures Report(Today, SeedListing()) == Ok(
      NextWeekHeader + "Pane - 07.08.2024\n" + "Cane - 02.08.2024\n" + "Dane - 05.08.2024\n")
  {
    SeedLines();
    ReportOfThree(Today, SeedListing(), "Pane - 07.08.2024\n", "Cane - 02.08.2024\n", "Dane - 05.08.2024\n");
  }

  /** Across a month boundary the report is empty even for a birthday five
      days ahead: 28 January against 2 February. */
  lemma MonthBoundaryExcluded()
    ensures Report(Date(2024, 1, 28), [("Jane", Entry([], Some(Birthday("02.02.1990", Date(1990, 2, 2)))))])
         == Ok(NoBirthdays)
  {
    var es := [("Jane", Entry([], Some(Birthday("02.02.1990", Date(1990, 2, 2)))))];
    assert es[..0] == [];
  }

  // ------------------------------------------------- commands on one book

  /** Handlers called one after another on one book, as the console loop
      calls them: John is added with a phone, that phone is changed, a
      second phone is added, and `phone John` lists both in order. */
  method Session() returns (replies: seq<string>)
    ensures replies == [ContactAdded, ContactUpdated, ContactUpdated, "John" + " - " + SharedPhone + "; " + JohnWork]
  {
    var book := new AddressBook();
    var added := AddJohn(book);
    var changed := ChangeJohn(book);
    var updated := AddJohnWork(book);
    var shown := ShowPhone(["John"], book);
    JoinTwo(Phone(SharedPhone), Phone(JohnWork));
    Assoc("John" + " - ", SharedPhone, "; ", JohnWork);
    replies := [added, changed, updated, shown];
  }

  /** `add John 1234567855` on an empty book. */
  method AddJohn(book: AddressBook) returns (reply: string)
    requires book.Valid() && book.data == map[]
    modifies book
    ensures fresh(book.data.Values - old(book.data.Values)) && book.Valid()
    ensures "John" in book.data && book.Snapshot()["John"] == Entry([Phone(JohnMobile)], None)
    ensures reply == ContactAdded
  {
    JohnMobileValid();
    One(Phone(JohnMobile));
    reply := AddContact(["John", JohnMobile], book);
  }

  /** `change John 1234567855 9876543210`. */
  method ChangeJohn(book: AddressBook) returns (reply: string)
    requires book.Valid() && "John" in book.data && book.Snapshot()["John"] == Entry([Phone(JohnMobile)], None)
    modifies book.data.Values
    ensures book.Valid() && "John" in book.data && book.Snapshot()["John"] == Entry([Phone(SharedPhone)], None)
    ensures reply == ContactUpdated
  {
    SharedPhoneValid();
    EditOnly(Phone(JohnMobile), Phone(SharedPhone));
    reply := ChangeContact(["John", JohnMobile, SharedPhone], book);
  }

  /** `add John 5555555555` for the existing contact. */
  method AddJohnWork(book: AddressBook) returns (reply: string)
    requires book.Valid() && "John" in book.data && book.Snapshot()["John"] == Entry([Phone(SharedPhone)], None)
    modifies book, book.data.Values
    ensures book.Valid() && "John" in book.data && book.data["John"].phones == [Phone(SharedPhone), Phone(JohnWork)]
    ensures reply == ContactUpdated
  {
    JohnWorkValid();
    Two(Phone(SharedPhone), Phone(JohnWork));
    reply := AddContact(["John", JohnWork], book);
    assert book.Snapshot()["John"].phones == [Phone(SharedPhone), Phone(JohnWork)];
  }

  /** Editing the only phone of a list replaces it. */
  lemma EditOnly(p: Phone, q: Phone)
    ensures HasPhone([p], p.value) && ReplaceAll([p], p.value, q) == [q]
  {
    assert [p][0].value == p.value;
    ReplaceAllAt([p], p.value, q, 0);
  }

  lemma One(a: Phone)
    ensures [] + [a] == [a]
  {
  }

  lemma Two(a: Phone, b: Phone)
    ensures [a] + [b] == [a, b]
  {
  }

  lemma JoinTwo(a: Phone, b: Phone)
    ensures JoinValues([a, b]) == a.value + "; " + b.value
  {
    JoinValuesSnoc([a], b);
    assert [a] + [b] == [a, b];
  }

  lemma Assoc(a: string, b: string, c: string, d: string)
    ensures a + (b + c + d) == a + b + c + d
  {
  }
}
