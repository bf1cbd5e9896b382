/** The upcoming-birthday report (task.py, function `birthdays`), with
    today's date passed in. Its policy is kept literally: only birthdays
    later in today's month are looked at, a Saturday or Sunday moves to the
    next Monday, "within a week" is a difference of days of the month of
    at most 6, and the next-week header goes in front once the second
    entry is found. */
module Scheduler {
  import opened Results
  import opened Calendar
  import opened Decimal
  import opened Fields
  import opened Contacts

  const NextWeekHeader := "\nНа следующей неделе поздравить:\n"
  const NoBirthdays := "На следующей неделе дней рождения нет."

  /** The birthday moved to today's year by re-parsing
      `str(day) + '.' + str(month) + '.' + str(year)`; None where
      `strptime` raises. */
  function Projected(today: Date, b: Date): (r: Option<Date>)
    requires ValidDate(today) && ValidDate(b)
    ensures r == if 1000 <= today.year <= 9999 && ValidDate(Date(today.year, b.month, b.day))
      then Some(Date(today.year, b.month, b.day)) else None
  {
    ReparseShown(today.year, b.month, b.day);
    ParseDate(Show(b.day) + "." + Show(b.month) + "." + Show(today.year))
  }

  /** A Saturday (5) or Sunday (6) moves forward 7 - weekday days. */
  function Shifted(d: Date): (e: Date)
    requires ValidDate(d)
    ensures ValidDate(e) && Weekday(e) < 5
    ensures Weekday(d) < 5 ==> e == d
    ensures Weekday(d) >= 5 ==> Weekday(e) == 0 && Ordinal(e) == Ordinal(d) + 7 - Weekday(d)
  {
    var w := Weekday(d);
    if w >= 5 then
      WeekendShift(d, w);
      AddDays(d, 7 - w)
    else d
  }

  /** Adding 7 - w days to a day of weekday w lands on a Monday. */
  lemma WeekendShift(d: Date, w: int)
    requires ValidDate(d) && w == Weekday(d) && w >= 5
    ensures Weekday(AddDays(d, 7 - w)) == 0 && Ordinal(AddDays(d, 7 - w)) == Ordinal(d) + 7 - w
  {
    var n: nat := 7 - w;
    var e := AddDays(d, n);
    AddDaysWeekday(d, n);
    AddDaysOrdinal(d, n);
    assert Weekday(e) == (w + n) % 7;
    assert (w + n) % 7 == 0 by {
      assert w + n == 7;
    }
  }

  /** Whether one entry is reported: Ok(Some(date shown)), Ok(None), or
      the error `strptime` raises on the projected date. */
  function Candidate(today: Date, e: Entry): (r: Result<Option<Date>>)
    requires ValidDate(today)
    ensures e.birthday.None? ==> r == Ok(None)
    ensures r.Err? ==> r.error == ValueError(DateFormat)
    ensures r.Ok? && r.value.Some? ==>
      var d := r.value.value;
      ValidDate(d) && Weekday(d) < 5 && d.day - today.day <= 6
  {
    match e.birthday
    case None => Ok(None)
    case Some(b) =>
      if b.date.month == today.month && b.date.day >= today.day then
        match Projected(today, b.date)
        case None => Err(ValueError(DateFormat))
        case Some(p) =>
          var s := Shifted(p);
          if s.day - today.day <= 6 then Ok(Some(s)) else Ok(None)
      else Ok(None)
  }

  /** `f"{name} - {strftime(d, '%d.%m.%Y')}\n"`. */
  function Line(name: string, d: Date): (l: string)
    requires ValidDate(d)
    ensures |l| >= |name| + 14 && l[..|name|] == name && l[|l| - 1] == '\n'
  {
    name + " - " + FormatDate(d) + "\n"
  }

  /** The report lines for es, scanned in order; the first error stops the
      scan. */
  function Lines(today: Date, es: seq<(string, Entry)>): (r: Result<seq<string>>)
    requires ValidDate(today)
    ensures r.Ok? ==> |r.value| <= |es|
    decreases |es|
  {
    if es == [] then Ok([])
    else
      var (name, e) := es[|es| - 1];
      match Lines(today, es[..|es| - 1])
      case Err(x) => Err(x)
      case Ok(ls) =>
        match Candidate(today, e)
        case Err(x) => Err(x)
        case Ok(None) => Ok(ls)
        case Ok(Some(d)) => Ok(ls + [Line(name, d)])
  }

  /** The value of `res` once the lines ls were appended: one line stands
      alone, two or more come after the header, which appears once. */
  function Accumulate(ls: seq<string>): string {
    if |ls| >= 2 then NextWeekHeader + Concat(ls) else Concat(ls)
  }

  /** One pass of the loop in `birthdays` that finds a line: the line is
      appended to `res`, and when it is the second one the header is first
      put in front. */
  lemma AccumulateSnoc(ls: seq<string>, l: string)
    ensures Accumulate(ls + [l]) == (if |ls| == 1 then NextWeekHeader + Accumulate(ls) else Accumulate(ls)) + l
  {
    var ms := ls + [l];
    assert ms[..|ms| - 1] == ls && ms[|ms| - 1] == l;
    assert Concat(ms) == Concat(ls) + l;
    if |ls| == 1 {
      assert ls[..0] == [];
    } else if |ls| >= 2 {
      assert NextWeekHeader + Concat(ms) == (NextWeekHeader + Concat(ls)) + l;
    }
  }

  function Concat(ls: seq<string>): string {
    if ls == [] then "" else Concat(ls[..|ls| - 1]) + ls[|ls| - 1]
  }

  /** What `birthdays` returns for a book listed as es. */
  function Report(today: Date, es: seq<(string, Entry)>): (r: Result<string>)
    requires ValidDate(today)
    ensures r.Ok? <==> Lines(today, es).Ok?
    ensures r.Err? ==> r.error == Lines(today, es).error
    ensures r.Ok? ==> r.value != ""
  {
    match Lines(today, es)
    case Err(x) => Err(x)
    case Ok(ls) => var res := Accumulate(ls); Ok(if |res| == 0 then NoBirthdays else res)
  }

  // --------------------------------------------------------------- proofs

  /** Each line names a contact, so it is never empty. */
  lemma {:induction false} LinesNonEmpty(today: Date, es: seq<(string, Entry)>)
    requires ValidDate(today) && Lines(today, es).Ok?
    ensures forall i :: 0 <= i < |Lines(today, es).value| ==> |Lines(today, es).value[i]| >= 4
    decreases |es|
  {
    if es != [] {
      LinesNonEmpty(today, es[..|es| - 1]);
    }
  }

  /** The report's three shapes: the no-birthdays message when nothing was
      found, the single line alone, or the header followed by all lines. */
  lemma ReportShape(today: Date, es: seq<(string, Entry)>)
    requires ValidDate(today) && Lines(today, es).Ok?
    ensures var ls := Lines(today, es).value;
      Report(today, es) == Ok(
        if ls == [] then NoBirthdays
        else if |ls| == 1 then ls[0]
        else NextWeekHeader + Concat(ls))
  {
    var ls := Lines(today, es).value;
    LinesNonEmpty(today, es);
    if |ls| == 1 {
      assert ls[..0] == [];
      assert Concat(ls) == ls[0];
    } else if |ls| >= 2 {
      assert |NextWeekHeader + Concat(ls)| > 0;
    }
  }

  /** One more entry: the report so far, then that entry's verdict. */
  lemma LinesStep(today: Date, es: seq<(string, Entry)>, i: nat)
    requires ValidDate(today) && i < |es|
    ensures Lines(today, es[..i + 1]) ==
      match Lines(today, es[..i])
      case Err(x) => Err(x)
      case Ok(ls) =>
        match Candidate(today, es[i].1)
        case Err(x) => Err(x)
        case Ok(None) => Ok(ls)
        case Ok(Some(d)) => Ok(ls + [Line(es[i].0, d)])
  {
    assert es[..i + 1][..i] == es[..i];
    assert es[..i + 1][i] == es[i];
  }

  /** The scan after entry i, given its verdict v: an error ends the whole
      report with it, a date adds the entry's line, nothing adds nothing. */
  lemma LinesAdvance(today: Date, es: seq<(string, Entry)>, i: nat, ls: seq<string>, v: Result<Option<Date>>)
    requires ValidDate(today) && i < |es| && Lines(today, es[..i]) == Ok(ls)
    requires v == Candidate(today, es[i].1)
    ensures v.Err? ==> Lines(today, es) == Err(v.error)
    ensures v == Ok(None) ==> Lines(today, es[..i + 1]) == Ok(ls)
    ensures v.Ok? && v.value.Some? ==>
      ValidDate(v.value.value) && Lines(today, es[..i + 1]) == Ok(ls + [Line(es[i].0, v.value.value)])
  {
    LinesStep(today, es, i);
    if v.Err? {
      LinesErrSticky(today, es, i + 1);
    }
  }

  /** An error anywhere stops the whole report with that error. */
  lemma {:induction false} LinesErrSticky(today: Date, es: seq<(string, Entry)>, j: nat)
    requires ValidDate(today) && j <= |es| && Lines(today, es[..j]).Err?
    ensures Lines(today, es) == Lines(today, es[..j])
    decreases |es| - j
  {
    if j < |es| {
      assert es[..j + 1][..j] == es[..j];
      LinesErrSticky(today, es, j + 1);
    } else {
      assert es[..j] == es;
    }
  }

  /** The report fails exactly when some entry's projected date fails to
      parse. */
  lemma {:induction false} LinesOk(today: Date, es: seq<(string, Entry)>)
    requires ValidDate(today)
    ensures Lines(today, es).Ok? <==> forall i :: 0 <= i < |es| ==> Candidate(today, es[i].1).Ok?
    decreases |es|
  {
    if es != [] {
      var n := |es| - 1;
      var init := es[..n];
      LinesOk(today, init);
      assert Lines(today, es).Ok? <==> Lines(today, init).Ok? && Candidate(today, es[n].1).Ok?;
      if forall i :: 0 <= i < |es| ==> Candidate(today, es[i].1).Ok? {
        assert forall i :: 0 <= i < |init| ==> Candidate(today, init[i].1).Ok? by {
          forall i | 0 <= i < |init| ensures Candidate(today, init[i].1).Ok? {
            assert init[i] == es[i];
          }
        }
      }
      if Lines(today, es).Ok? {
        assert Lines(today, init).Ok? && Candidate(today, es[n].1).Ok?;
        forall i | 0 <= i < |es| ensures Candidate(today, es[i].1).Ok? {
          if i < n {
            assert init[i] == es[i];
          } else {
            assert i == n;
          }
        }
      }
    }
  }

  /** Every reported entry has its line in the report ... */
  lemma {:induction false} ReportedHasLine(today: Date, es: seq<(string, Entry)>, i: nat, d: Date)
    requires ValidDate(today) && Lines(today, es).Ok? && i < |es|
    requires Candidate(today, es[i].1) == Ok(Some(d))
    ensures ValidDate(d) && Line(es[i].0, d) in Lines(today, es).value
    decreases |es|
  {
    if i < |es| - 1 {
      var init := es[..|es| - 1];
      assert init[i] == es[i];
      ReportedHasLine(today, init, i, d);
    }
  }

  /** ... and every line of the report belongs to a reported entry. */
  lemma {:induction false} LineIsReported(today: Date, es: seq<(string, Entry)>, l: string)
    requires ValidDate(today) && Lines(today, es).Ok? && l in Lines(today, es).value
    ensures exists i, d :: 0 <= i < |es| && Candidate(today, es[i].1) == Ok(Some(d)) && ValidDate(d) && l == Line(es[i].0, d)
    decreases |es|
  {
    var init := es[..|es| - 1];
    var ls := Lines(today, init).value;
    if l in ls {
      LineIsReported(today, init, l);
      var i, d :| 0 <= i < |init| && Candidate(today, init[i].1) == Ok(Some(d)) && ValidDate(d) && l == Line(init[i].0, d);
      assert init[i] == es[i];
    } else {
      var k := |es| - 1;
      assert Candidate(today, es[k].1).Ok? && Candidate(today, es[k].1).value.Some?;
      var d := Candidate(today, es[k].1).value.value;
      assert l == Line(es[k].0, d);
    }
  }

  /** When a birthday is reported, in plain terms: same month as today, not
      earlier in the month, the projected date exists in today's year (a
      four-digit year), and after the weekend shift the day of the month is
      at most 6 past today's. */
  lemma CandidateMeaning(today: Date, e: Entry)
    requires ValidDate(today) && e.birthday.Some?
    ensures var b := e.birthday.value; var p := Date(today.year, b.date.month, b.date.day);
      Candidate(today, e) ==
        if !(b.date.month == today.month && b.date.day >= today.day) then Ok(None)
        else if !(1000 <= today.year <= 9999 && ValidDate(p)) then Err(ValueError(DateFormat))
        else if Shifted(p).day - today.day <= 6 then Ok(Some(Shifted(p)))
        else Ok(None)
  {
  }

  /** A birthday in another month is never reported, even one a few days
      ahead (28 January against 3 February). */
  lemma OtherMonthExcluded(today: Date, e: Entry)
    requires ValidDate(today) && e.birthday.Some? && e.birthday.value.date.month != today.month
    ensures Candidate(today, e) == Ok(None)
  {
  }

  /** A shifted date that leaves the month lands on its 1st or 2nd, so the
      difference test always passes for it. */
  lemma ShiftAcrossMonthPasses(today: Date, p: Date)
    requires ValidDate(today) && ValidDate(p) && p.year == today.year && p.month == today.month
    requires Shifted(p).month != p.month
    ensures 1 <= Shifted(p).day <= 2 && Shifted(p).day - today.day <= 6
  {
    var w := Weekday(p);
    var n: nat := 7 - w;
    if p.day + n <= DaysInMonth(p.year, p.month) {
      AddDaysWithinMonth(p, n);
    } else {
      AddDaysAcrossMonth(p, n);
    }
  }

  /** The 29th of February, looked at on a February day of a common year,
      makes the report raise. */
  lemma LeapDayRaises(today: Date, e: Entry)
    requires ValidDate(today) && 1000 <= today.year <= 9999
    requires today.month == 2 && !IsLeap(today.year)
    requires e.birthday.Some? && e.birthday.value.date.month == 2 && e.birthday.value.date.day == 29
    ensures Candidate(today, e).Err?
  {
  }

  // --------------------------------------------------------------- method

  /** The body of the loop in `birthdays` for one record: the date it is
      reported under, None, or the error the re-parse raises. */
  method Examine(user: Record, today: Date) returns (r: Result<Option<Date>>)
    requires ValidDate(today)
    ensures r == Candidate(today, user.View())
    ensures r.Ok? && r.value.Some? ==> ValidDate(r.value.value)
  {
    if user.birthday.None? {
      return Ok(None);
    }
    var birthDate := user.birthday.value.date;
    var month := birthDate.month == today.month;
    var day := birthDate.day >= today.day;
    if !(month && day) {
      return Ok(None);
    }
    var parsed := Projected(today, birthDate);
    if parsed.None? {
      return Err(ValueError(DateFormat));
    }
    var shifted := parsed.value;
    var weekday := Weekday(shifted);
    if weekday >= 5 {
      var addDays := 7 - weekday;
      shifted := AddDays(shifted, addDays);
    }
    assert shifted == Shifted(parsed.value);
    if shifted.day - today.day <= 6 {
      return Ok(Some(shifted));
    }
    return Ok(None);
  }

  /** `birthdays(book)` with `dt.today()` replaced by `today`. */
  method Birthdays(book: AddressBook, today: Date) returns (r: Result<string>)
    requires book.Valid() && ValidDate(today)
    ensures r == Report(today, book.Listing())
  {
    ghost var es := book.Listing();
    ghost var ls: seq<string> := [];
    var count := 0;
    var res := "";
    var i := 0;
    while i < |book.keys|
      invariant 0 <= i <= |book.keys|
      invariant Lines(today, es[..i]) == Ok(ls)
      invariant count == |ls| && res == Accumulate(ls)
    {
      var name := book.keys[i];
      assert name in book.keys;
      var user := book.data[name];
      assert es[i] == (name, user.View());
      var verdict := Examine(user, today);
      LinesAdvance(today, es, i, ls, verdict);
      if verdict.Err? {
        return Err(verdict.error);
      }
      if verdict.value.Some? {
        var shifted := verdict.value.value;
        AccumulateSnoc(ls, Line(name, shifted));
        if count == 1 {
          res := NextWeekHeader + res;
        }
        var entry := name + " - " + FormatDate(shifted) + "\n";
        res := res + entry;
        count := count + 1;
        ls := ls + [Line(name, shifted)];
      }
      i := i + 1;
    }
    assert es[..i] == es;
    assert Lines(today, es) == Ok(ls);
    if |res| == 0 {
      res := NoBirthdays;
    }
    r := Ok(res);
  }
}
