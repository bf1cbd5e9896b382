/** The validated fields of a contact: `Phone` and `Birthday` (task.py,
    classes Phone and Birthday). Both keep the raw string they were built
    from; construction that raises is a `Result` that is an `Err`. */
module Fields {
  import opened Results
  import opened Decimal
  import opened Calendar

  /** A phone number; `value` is the string as given, not normalised. */
  datatype Phone = Phone(value: string)

  /** A birthday: the string as given and the date it parsed to. */
  datatype BirthdayField = Birthday(value: string, date: Date)

  /** Only real dates are ever stored. */
  type Birthday = b: BirthdayField | ValidDate(b.date)
    witness Birthday("01.01.2000", Date(2000, 1, 1))

  // ---------------------------------------------------------------- phones

  /** `Phone.normalize_phone`: delete every character outside 0-9
      (a leading `+` is deleted as well). */
  function NormalizePhone(s: string): (r: string)
    ensures AllDigits(r) && |r| <= |s|
  {
    if s == [] then []
    else (if IsDigit(s[0]) then [s[0]] else []) + NormalizePhone(s[1..])
  }

  /** `Phone.validate`: passes exactly when ten digits remain. */
  function Validate(phone: string): (r: Outcome)
    ensures r.Pass? <==> |NormalizePhone(phone)| == 10
    ensures r.Fail? ==> r.error == ValueError(PhoneLength(|NormalizePhone(phone)|))
  {
    var digits := NormalizePhone(phone);
    if |digits| != 10 then Fail(ValueError(PhoneLength(|digits|))) else Pass
  }

  /** `Phone(value)`: validates, then stores the raw string. */
  function NewPhone(raw: string): (r: Result<Phone>)
    ensures r.Ok? <==> |NormalizePhone(raw)| == 10
    ensures r.Ok? ==> r.value.value == raw
    ensures r.Err? ==> r.error == ValueError(PhoneLength(|NormalizePhone(raw)|))
  {
    match Validate(raw)
    case Pass => Ok(Phone(raw))
    case Fail(e) => Err(e)
  }

  predicate IsValidPhone(raw: string) {
    |NormalizePhone(raw)| == 10
  }

  /** Normalising distributes over concatenation ... */
  lemma {:induction false} NormalizeAppend(a: string, b: string)
    ensures NormalizePhone(a + b) == NormalizePhone(a) + NormalizePhone(b)
    decreases |a|
  {
    if a != [] {
      assert (a + b)[0] == a[0];
      assert (a + b)[1..] == a[1..] + b;
      NormalizeAppend(a[1..], b);
    } else {
      assert a + b == b;
    }
  }

  /** ... and keeps one character exactly when it is a digit; together
      these say the result is the input's digits, in their order. */
  lemma NormalizeChar(c: char)
    ensures NormalizePhone([c]) == if IsDigit(c) then [c] else []
  {
    assert [c][1..] == [];
  }

  /** A string of digits only is its own normal form. */
  lemma {:induction false} NormalizeDigits(s: string)
    requires AllDigits(s)
    ensures NormalizePhone(s) == s
    decreases |s|
  {
    if s != [] {
      NormalizeDigits(s[1..]);
    }
  }

  /** Normalising twice is normalising once. */
  lemma NormalizeIdempotent(s: string)
    ensures NormalizePhone(NormalizePhone(s)) == NormalizePhone(s)
  {
    NormalizeDigits(NormalizePhone(s));
  }

  /** Punctuation never counts towards the ten digits: the validity of a
      phone depends only on the digits it contains. */
  lemma ValidityIgnoresPunctuation(a: string, junk: string, b: string)
    requires forall i :: 0 <= i < |junk| ==> !IsDigit(junk[i])
    ensures IsValidPhone(a + junk + b) <==> IsValidPhone(a + b)
  {
    NormalizeNoDigits(junk);
    NormalizeAppend(a + junk, b);
    NormalizeAppend(a, junk);
    NormalizeAppend(a, b);
  }

  lemma {:induction false} NormalizeNoDigits(s: string)
    requires forall i :: 0 <= i < |s| ==> !IsDigit(s[i])
    ensures NormalizePhone(s) == []
    decreases |s|
  {
    if s != [] {
      NormalizeNoDigits(s[1..]);
    }
  }

  // ------------------------------------------------------------- birthdays

  /** `s` is laid out as `D.M.YYYY` with a day of dl digits, a month of ml
      digits and a year of exactly four digits. */
  predicate Layout(s: string, dl: nat, ml: nat) {
    && |s| == dl + ml + 6
    && AllDigits(s[..dl]) && s[dl] == '.'
    && AllDigits(s[dl + 1..dl + 1 + ml]) && s[dl + 1 + ml] == '.'
    && AllDigits(s[dl + ml + 2..])
  }

  /** The day, month and year read from a laid-out string. */
  function Pieces(s: string, dl: nat, ml: nat): Date
    requires Layout(s, dl, ml)
  {
    Date(Value(s[dl + ml + 2..]), Value(s[dl + 1..dl + 1 + ml]), Value(s[..dl]))
  }

  /** At most one layout fits a string: the dots sit where the digits end. */
  lemma LayoutUnique(s: string, dl: nat, ml: nat, dl': nat, ml': nat)
    requires Layout(s, dl, ml) && Layout(s, dl', ml')
    ensures dl == dl' && ml == ml'
  {
  }

  /** `datetime.strptime(s, "%d.%m.%Y").date()`: a day of one or two
      digits, a dot, a month of one or two digits, a dot, a year of four
      digits, and the three must name a real calendar date. */
  function ParseDate(s: string): (r: Option<Date>)
    ensures r.Some? ==> ValidDate(r.value)
  {
    var fields :=
      if Layout(s, 1, 1) then Some(Pieces(s, 1, 1))
      else if Layout(s, 1, 2) then Some(Pieces(s, 1, 2))
      else if Layout(s, 2, 1) then Some(Pieces(s, 2, 1))
      else if Layout(s, 2, 2) then Some(Pieces(s, 2, 2))
      else None;
    if fields.Some? && ValidDate(fields.value) then fields else None
  }

  /** A string that fits a layout parses to the date its pieces name, when
      that date is real, and to nothing otherwise. */
  lemma ParseLayout(s: string, dl: nat, ml: nat)
    requires 1 <= dl <= 2 && 1 <= ml <= 2 && Layout(s, dl, ml)
    ensures ParseDate(s) == if ValidDate(Pieces(s, dl, ml)) then Some(Pieces(s, dl, ml)) else None
  {
    if Layout(s, 1, 1) {
      LayoutUnique(s, 1, 1, dl, ml);
    } else if Layout(s, 1, 2) {
      LayoutUnique(s, 1, 2, dl, ml);
    } else if Layout(s, 2, 1) {
      LayoutUnique(s, 2, 1, dl, ml);
    }
  }

  /** A string that fits no layout is rejected; so whatever parses fits one. */
  lemma ParseNoLayout(s: string)
    ensures ParseDate(s).Some? ==> exists dl: nat, ml: nat :: 1 <= dl <= 2 && 1 <= ml <= 2 && Layout(s, dl, ml)
  {
    if ParseDate(s).Some? {
      if Layout(s, 1, 1) {
        assert Layout(s, 1, 1);
      } else if Layout(s, 1, 2) {
        assert Layout(s, 1, 2);
      } else if Layout(s, 2, 1) {
        assert Layout(s, 2, 1);
      } else {
        assert Layout(s, 2, 2);
      }
    }
  }

  /** `Birthday(value)`: keeps the raw string and the date it names. */
  function NewBirthday(raw: string): (r: Result<Birthday>)
    ensures r.Ok? <==> ParseDate(raw).Some?
    ensures r.Ok? ==> r.value.value == raw && r.value.date == ParseDate(raw).value
    ensures r.Err? ==> r.error == ValueError(DateFormat)
  {
    match ParseDate(raw)
    case Some(d) => Ok(Birthday(raw, d))
    case None => Err(ValueError(DateFormat))
  }

  /** `strftime(d, "%d.%m.%Y")` for four-digit years. */
  function FormatDate(d: Date): (s: string)
    requires ValidDate(d)
    ensures |s| >= 10 && (d.year <= 9999 ==> |s| == 10)
  {
    Pad(Show(d.day), 2) + "." + Pad(Show(d.month), 2) + "." + Pad(Show(d.year), 4)
  }

  /** Where the three runs of `a.b.c` sit in the joined string. */
  lemma JoinedSlices(a: string, b: string, c: string)
    ensures var s := a + "." + b + "." + c;
      && |s| == |a| + |b| + |c| + 2
      && s[..|a|] == a && s[|a|] == '.'
      && s[|a| + 1..|a| + 1 + |b|] == b && s[|a| + 1 + |b|] == '.'
      && s[|a| + |b| + 2..] == c
  {
    var p := a + ".";
    var q := p + b;
    var r := q + ".";
    var s := r + c;
    assert s[..|r|] == r && s[|r|..] == c;
    assert r[..|q|] == q && q[..|p|] == p && q[|p|..] == b;
    assert s[..|a|] == p[..|a|] == a;
    assert s[|a| + 1..|a| + 1 + |b|] == q[|p|..];
  }

  /** Three digit runs joined with dots fit exactly one layout, and it gives
      back their values. */
  lemma Joined(a: string, b: string, c: string)
    requires AllDigits(a) && AllDigits(b) && AllDigits(c)
    requires 1 <= |a| <= 2 && 1 <= |b| <= 2 && |c| == 4
    ensures var s := a + "." + b + "." + c;
      Layout(s, |a|, |b|) && Pieces(s, |a|, |b|) == Date(Value(c), Value(b), Value(a))
  {
    JoinedSlices(a, b, c);
  }

  /** With a year that is not four digits long no layout fits. */
  lemma JoinedWrongYear(a: string, b: string, c: string, dl: nat, ml: nat)
    requires AllDigits(a) && AllDigits(b) && AllDigits(c)
    requires 1 <= |a| <= 2 && 1 <= |b| <= 2 && |c| != 4
    ensures !Layout(a + "." + b + "." + c, dl, ml)
  {
    var s := a + "." + b + "." + c;
    if Layout(s, dl, ml) {
      assert false;
    }
  }

  /** Dates are written the way they are read: every valid date with a
      four-digit year survives formatting and parsing unchanged. */
  lemma FormatRoundTrip(d: Date)
    requires ValidDate(d) && d.year <= 9999
    ensures ParseDate(FormatDate(d)) == Some(d)
  {
    var a, b, c := Pad(Show(d.day), 2), Pad(Show(d.month), 2), Pad(Show(d.year), 4);
    Joined(a, b, c);
    ValueShowPadded(d.day, 2);
    ValueShowPadded(d.month, 2);
    ValueShowPadded(d.year, 4);
    ParseLayout(FormatDate(d), |a|, |b|);
  }

  /** Re-reading `str(day).str(month).str(year)`, as the birthday report
      does, gives the date back exactly when the year has four digits and
      the three name a real date. */
  lemma ReparseShown(y: nat, m: int, d: int)
    requires 1 <= m <= 12 && 1 <= d <= 31
    ensures ParseDate(Show(d) + "." + Show(m) + "." + Show(y))
         == if 1000 <= y <= 9999 && ValidDate(Date(y, m, d)) then Some(Date(y, m, d)) else None
  {
    var a, b, c := Show(d), Show(m), Show(y);
    var s := a + "." + b + "." + c;
    ValueShow(d);
    ValueShow(m);
    ValueShow(y);
    if |c| == 4 {
      Joined(a, b, c);
      ParseLayout(s, |a|, |b|);
    } else {
      forall dl: nat, ml: nat ensures !Layout(s, dl, ml) {
        JoinedWrongYear(a, b, c, dl, ml);
      }
      ParseNoLayout(s);
    }
  }

  /** The 29th of February parses exactly in leap years. */
  lemma LeapDay(y: nat)
    requires 1000 <= y <= 9999
    ensures NewBirthday("29.02." + Show(y)).Ok? <==> IsLeap(y)
  {
    var a, b, c := "29", "02", Show(y);
    assert a + "." + b + "." + c == "29.02." + c;
    Joined(a, b, c);
    assert Value(a) == 29 && Value(b) == 2 by {
      assert a[..1] == "2" && b[..1] == "0";
    }
    ValueShow(y);
    ParseLayout(a + "." + b + "." + c, 2, 2);
  }
}
