/** Naive proleptic Gregorian dates, as Python's `datetime.date` has them:
    validity, the day ordinal counted from 0001-01-01, the weekday
    (Monday = 0) and stepping forward by whole days. */
module Calendar {

  datatype Date = Date(year: int, month: int, day: int)

  predicate IsLeap(y: int) {
    y % 4 == 0 && (y % 100 != 0 || y % 400 == 0)
  }

  function DaysInMonth(y: int, m: int): (n: int)
    requires 1 <= m <= 12
    ensures 28 <= n <= 31
    ensures n == 29 <==> m == 2 && IsLeap(y)
  {
    if m == 2 then (if IsLeap(y) then 29 else 28)
    else if m == 4 || m == 6 || m == 9 || m == 11 then 30
    else 31
  }

  function DaysInYear(y: int): int {
    if IsLeap(y) then 366 else 365
  }

  /** A proleptic Gregorian date from year 1 on. Unlike `datetime.date`
      the model sets no upper bound on the year (Python stops at 9999). */
  predicate ValidDate(d: Date) {
    1 <= d.year && 1 <= d.month <= 12 && 1 <= d.day <= DaysInMonth(d.year, d.month)
  }

  /** Days in the months of year y before month m. */
  function DaysBeforeMonth(y: int, m: int): (n: nat)
    requires 1 <= m <= 13
    decreases m
  {
    if m == 1 then 0 else DaysBeforeMonth(y, m - 1) + DaysInMonth(y, m - 1)
  }

  /** Days in the years 1 .. y-1 (closed form, as `_days_before_year`). */
  function DaysBeforeYear(y: int): int
    requires 1 <= y
  {
    var p := y - 1;
    365 * p + p / 4 - p / 100 + p / 400
  }

  /** Day number with 0001-01-01 as day 1 (`date.toordinal`). */
  function Ordinal(d: Date): int
    requires ValidDate(d)
  {
    DaysBeforeYear(d.year) + DaysBeforeMonth(d.year, d.month) + d.day
  }

  /** `date.weekday()`: Monday is 0, Sunday is 6. */
  function Weekday(d: Date): (w: int)
    requires ValidDate(d)
    ensures 0 <= w < 7
  {
    (Ordinal(d) + 6) % 7
  }

  /** The following calendar day. */
  function NextDay(d: Date): (e: Date)
    requires ValidDate(d)
    ensures ValidDate(e)
    ensures e.year == d.year || (e.year == d.year + 1 && e.month == 1 && e.day == 1)
  {
    if d.day < DaysInMonth(d.year, d.month) then Date(d.year, d.month, d.day + 1)
    else if d.month < 12 then Date(d.year, d.month + 1, 1)
    else Date(d.year + 1, 1, 1)
  }

  /** `d + timedelta(days=n)` for n >= 0. */
  function AddDays(d: Date, n: nat): (e: Date)
    requires ValidDate(d)
    ensures ValidDate(e)
    decreases n
  {
    if n == 0 then d else AddDays(NextDay(d), n - 1)
  }

  /** The closed form grows by one year's length from one year to the next. */
  lemma DaysBeforeYearStep(y: int)
    requires 1 <= y
    ensures DaysBeforeYear(y + 1) == DaysBeforeYear(y) + DaysInYear(y)
  {
    Quarter(y);
    Century(y);
    Quadricentury(y);
    LeapDivisors(y);
  }

  lemma Quarter(y: int)
    ensures y / 4 == (y - 1) / 4 + (if y % 4 == 0 then 1 else 0)
  {
  }

  lemma Century(y: int)
    ensures y / 100 == (y - 1) / 100 + (if y % 100 == 0 then 1 else 0)
  {
  }

  lemma Quadricentury(y: int)
    ensures y / 400 == (y - 1) / 400 + (if y % 400 == 0 then 1 else 0)
  {
  }

  lemma LeapDivisors(y: int)
    ensures y % 400 == 0 ==> y % 100 == 0
    ensures y % 100 == 0 ==> y % 4 == 0
  {
  }

  /** The twelve months make up the year. */
  lemma DaysBeforeMonthYear(y: int)
    ensures DaysBeforeMonth(y, 13) == DaysInYear(y)
  {
    var f := DaysInMonth(y, 2);
    assert DaysBeforeMonth(y, 3) == 31 + f;
    assert DaysBeforeMonth(y, 5) == 92 + f;
    assert DaysBeforeMonth(y, 7) == 153 + f;
    assert DaysBeforeMonth(y, 9) == 215 + f;
    assert DaysBeforeMonth(y, 11) == 276 + f;
    assert DaysBeforeMonth(y, 13) == 337 + f;
  }

  /** Stepping to the next day moves the ordinal by exactly one. */
  lemma NextDayOrdinal(d: Date)
    requires ValidDate(d)
    ensures Ordinal(NextDay(d)) == Ordinal(d) + 1
  {
    if d.day == DaysInMonth(d.year, d.month) && d.month == 12 {
      DaysBeforeYearStep(d.year);
      DaysBeforeMonthYear(d.year);
    }
  }

  /** Adding n days moves the ordinal by n: the same date arithmetic as
      `date.fromordinal(d.toordinal() + n)`. */
  lemma {:induction false} AddDaysOrdinal(d: Date, n: nat)
    requires ValidDate(d)
    ensures Ordinal(AddDays(d, n)) == Ordinal(d) + n
    decreases n
  {
    if n > 0 {
      NextDayOrdinal(d);
      AddDaysOrdinal(NextDay(d), n - 1);
    }
  }

  /** The weekday advances by n modulo 7. */
  lemma AddDaysWeekday(d: Date, n: nat)
    requires ValidDate(d)
    ensures Weekday(AddDays(d, n)) == (Weekday(d) + n) % 7
  {
    AddDaysOrdinal(d, n);
    ModShift(Ordinal(d), Ordinal(AddDays(d, n)), n);
  }

  /** Moving a day number on by n moves its weekday on by n, modulo 7. */
  lemma ModShift(a: int, b: int, n: nat)
    requires b == a + n
    ensures (b + 6) % 7 == ((a + 6) % 7 + n) % 7
  {
    var o := a + 6;
    var q := o / 7;
    assert o == 7 * q + o % 7;
    assert o + n == 7 * q + (o % 7 + n);
  }

  /** Within a month, adding n days just adds n to the day. */
  lemma {:induction false} AddDaysWithinMonth(d: Date, n: nat)
    requires ValidDate(d) && d.day + n <= DaysInMonth(d.year, d.month)
    ensures AddDays(d, n) == Date(d.year, d.month, d.day + n)
    decreases n
  {
    if n > 0 {
      AddDaysWithinMonth(NextDay(d), n - 1);
    }
  }

  /** Adding n days past the end of a month lands in the next month (or
      January of the next year) on day d.day + n - DaysInMonth, which is at
      most n. */
  lemma AddDaysAcrossMonth(d: Date, n: nat)
    requires ValidDate(d) && 1 <= n <= 2
    requires d.day + n > DaysInMonth(d.year, d.month)
    ensures var e := AddDays(d, n);
      e.day == d.day + n - DaysInMonth(d.year, d.month) && 1 <= e.day <= n
      && (if d.month < 12 then e.year == d.year && e.month == d.month + 1
          else e.year == d.year + 1 && e.month == 1)
  {
    var dim := DaysInMonth(d.year, d.month);
    if n == 1 {
      assert AddDays(d, 1) == NextDay(d);
    } else if d.day == dim {
      assert AddDays(d, 2) == NextDay(NextDay(d));
    } else {
      assert d.day + 1 == dim;
      assert AddDays(d, 2) == AddDays(NextDay(d), 1) == NextDay(NextDay(d));
    }
  }
}
