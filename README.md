# Contact book, modelled in Dafny

`task.py` is a console contact book. A `Record` holds a name, a list of
`Phone`s and an optional `Birthday`; an `AddressBook` maps names to records
in insertion order. Command handlers (`add_contact`, `change_contact`,
`show_phone`, `add_birthday`, `show_birthday`, `delete_contact`,
`show_all`) take the words typed after a command, update the book and
return the text to print; the `input_error` decorator turns a raised
`ValueError` into "Give me name and phone please.". The `birthdays`
command lists the contacts to greet in the coming week, moving weekend
birthdays to the following Monday.

The model is split into modules that follow the program:

- `Results` (results.dfy): options, results and the exceptions the program raises.
- `Decimal` (decimal.dfy): ASCII digit strings, `str(n)` and zero padding.
- `Calendar` (calendar.dfy): Gregorian dates with leap years, the day
  ordinal counted from 0001-01-01, the weekday (Monday is 0) and adding days.
- `Fields` (fields.dfy): `Phone` validation and the `Birthday` parse
  (`strptime(s, "%d.%m.%Y")`) and format (`strftime`).
- `Contacts` (contacts.dfy): `Record` and `AddressBook` as classes whose
  methods update their fields in place. The book is a map together with the
  sequence of its keys in insertion order.
- `Handlers` (handlers.dfy): the command handlers and `input_error`.
- `Scheduler` (scheduler.dfy): the `birthdays` report, with today's date
  passed in.
- `Fixture` (fixture.dfy): the demonstration contacts added at start-up,
  and the report for them on 1 August 2024.

Exceptions are values. A call that may raise returns a `Result` or an
`Outcome`, and the handler's decorator is the function `InputError`, a match
over that value.

The parts of the program that update objects or loop are methods:
- `Record.edit_phone` and `Record.remove_phone` loop over the phone list.
  Each is proved against a function on sequences (`ReplaceAll`,
  `RemoveSkipping`), and lemmas state what those functions keep and drop.
- `Record.find_phone` also loops. Its contract states the search result
  directly.
- `birthdays` and `show_all` loop over the book. They are proved against
  `Report` and `AllText` of the book's listing.
- The other handlers have no loops. Their contracts state the message they
  return and the new state of the book.

Where the program and its intended behaviour differ, the model follows the
program:

- **Raw-string matching.** `edit_phone`, `find_phone` and `remove_phone`
  compare the raw phone text, not the normalised digits.
- **`edit_phone` replaces every match.** It raises at the first match when
  the new phone is invalid, and nothing has been replaced by then.
- **`remove_phone` skips entries.** It deletes inside `enumerate`, so the
  entry right after each deleted one is skipped and kept.
- **`add_record` always stores.** Its membership test compares a `Name`
  object with string keys and is never true, so it always stores the record
  and overwrites an existing one.
- **`normalize_phone` deletes `+` as well**, although its comment says it
  keeps it.
- **`birthdays` uses only the calendar month.** It looks only at birthdays
  later in today's calendar month. "Within a week" is the difference of two
  days of the month being at most 6. The header goes in front of the first
  line when the second line is appended.
- **`birthdays` can fail.** It re-parses `str(day).str(month).str(year)`,
  which fails for 29 February in a common year and for years below 1000.
  That failure is returned as an error, because `birthdays` is not wrapped
  in `input_error`.

## Model

| member | source | states |
|---|---|---|
| Fields.NormalizePhone | task.py:36-40 | the result contains only digits and is never longer than the input |
| Fields.NormalizeAppend | task.py:36-40 | normalising distributes over concatenation |
| Fields.NormalizeChar | task.py:36-40 | a single character is kept exactly when it is a digit; with NormalizeAppend, the result is the input's digits in their order |
| Fields.NormalizeDigits | task.py:36-40 | a string of digits only is left as it is |
| Fields.NormalizeNoDigits | task.py:36-40 | a string without digits normalises to the empty string |
| Fields.NormalizeIdempotent | task.py:36-40 | normalising twice is the same as normalising once |
| Fields.ValidityIgnoresPunctuation | task.py:24-34 | inserting non-digits anywhere never changes whether a phone is valid |
| Fields.Validate | task.py:24-34 | passes exactly when ten digits remain; otherwise fails with a ValueError that records the digit count |
| Fields.NewPhone | task.py:18-22 | `Phone(raw)` succeeds exactly when ten digits remain, raises the validation error otherwise, and stores the raw string, not its digits |
| Fields.LayoutUnique | task.py:44-49 | at most one placement of the two dots fits a D.M.YYYY string |
| Fields.ParseDate | task.py:44-49 | every date the parse returns is a real calendar date |
| Fields.ParseLayout | task.py:44-49 | a string of the form D.M.YYYY, with a 1–2 digit day and month and a 4-digit year, parses to the date its digits name if that date is real, and is rejected otherwise |
| Fields.ParseNoLayout | task.py:44-49 | a string that parses has the D.M.YYYY form |
| Fields.NewBirthday | task.py:42-49 | `Birthday(raw)` succeeds exactly when the parse does, keeps the raw string and the parsed date, and raises the date-format ValueError otherwise |
| Fields.Joined | task.py:44-49 | digit runs of lengths 1–2, 1–2 and 4, joined by dots, fit exactly that layout and read back as their values |
| Fields.JoinedWrongYear | task.py:44-49 | with a year that is not four digits long, no layout fits |
| Fields.FormatDate | task.py:271 | the text is at least ten characters long, and exactly ten for a year of at most four digits |
| Fields.FormatRoundTrip | task.py:271 | formatting a valid date with a year of at most four digits as DD.MM.YYYY and parsing it back gives the same date |
| Fields.ReparseShown | task.py:252-253 | re-parsing `str(day).str(month).str(year)` gives the date back exactly when the year has four digits and the date is real, and fails otherwise |
| Fields.LeapDay | task.py:44-49 | "29.02.YYYY" is accepted exactly in leap years |
| Decimal.Show | task.py:252 | `str(n)` consists of digits only, and its length grows with each power of ten |
| Decimal.ValueShow | task.py:252-253 | reading back `str(n)` gives n |
| Decimal.ValueShowPadded | task.py:271 | a zero-padded `str(n)` reads back as n |
| Calendar.DaysInMonth | task.py:47 | months have 28–31 days; 29 exactly for February in a leap year |
| Calendar.Weekday | task.py:255 | the weekday lies in 0..6 |
| Calendar.NextDay | task.py:263 | the next day is a valid date, in the same year or on 1 January of the next |
| Calendar.DaysBeforeYearStep | task.py:255 | the closed-form day count of the years before y grows by the length of year y |
| Calendar.DaysBeforeMonthYear | task.py:255 | the twelve months add up to the length of the year |
| Calendar.NextDayOrdinal | task.py:263 | the next day has the next ordinal, including across month and year ends |
| Calendar.AddDaysOrdinal | task.py:263 | adding n days adds n to the ordinal (`timedelta` arithmetic) |
| Calendar.AddDays | task.py:263 | adding whole days to a valid date gives a valid date |
| Calendar.AddDaysWeekday | task.py:255-263 | adding n days moves the weekday on by n, modulo 7 |
| Calendar.AddDaysWithinMonth | task.py:263 | adding days that stay inside the month adds them to the day |
| Calendar.AddDaysAcrossMonth | task.py:263 | adding 1–2 days past a month's end lands early in the next month, or in January of the next year |
| Contacts.ReplaceAll | task.py:67-71 | editing keeps the list's length |
| Contacts.ReplaceAllAt | task.py:67-71 | each entry equal to the old phone becomes the new one, and every other entry is kept in its place |
| Contacts.ReplaceAllNoMatch | task.py:67-71 | without a match, editing leaves the list unchanged |
| Contacts.RemoveSkipping | task.py:79-83 | removing never lengthens the list |
| Contacts.RemoveKeepsOthers | task.py:79-83 | every entry that does not match survives removal, in its order |
| Contacts.RemoveNoMatch | task.py:79-83 | without a match, removing leaves the list unchanged |
| Contacts.RemoveSingle | task.py:79-83 | a single match is removed, and only it |
| Contacts.RemoveAdjacentSurvives | task.py:79-83 | of two adjacent matches, the second survives |
| Contacts.JoinValues | task.py:86 | no phones join to the empty string; one phone joins to its raw text |
| Contacts.JoinValuesSnoc | task.py:86 | each further phone is appended after "; ", so the text is the raw phones in order separated by "; " |
| Contacts.Describe | task.py:85-86 | the rendering of a contact starts with "Contact name: " and the name |
| Contacts.Record.constructor | task.py:54-57 | a new record has the given name, no phones and no birthday |
| Contacts.Record.ToString | task.py:85-86 | for any record: "Contact name: ", the name, ", phones: ", the raw phones joined with "; ", ", birthday: ", then the raw birthday string or "None" |
| Contacts.Record.AddPhone | task.py:59-61 | the result is the phone's validation outcome; on success the raw phone is appended, on failure the list is unchanged; the birthday is untouched |
| Contacts.Record.AddBirthday | task.py:63-65 | succeeds exactly when the string parses, and then overwrites the birthday; on failure it raises the date-format error and keeps the old birthday |
| Contacts.Record.EditPhone | task.py:67-71 | raises exactly when some phone matches and the new phone is invalid, and then changes nothing; otherwise every match is replaced; without a match nothing raises |
| Contacts.Record.FindPhone | task.py:73-77 | returns a phone exactly when one with that raw text exists, and it is a phone of the record |
| Contacts.Record.RemovePhone | task.py:79-83 | the new list is RemoveSkipping of the old one: deletion with the index still advancing |
| Contacts.Erase | task.py:102-105 | erasing a key removes exactly that key and keeps the rest |
| Contacts.EraseAt | task.py:102-105 | in a sequence of distinct keys, erasing the key at position i removes exactly that position; the keys before and after it keep their order |
| Contacts.EraseDistinct | task.py:102-105 | erasing from a sequence of distinct keys leaves them distinct |
| Contacts.AddressBook.constructor | task.py:108 | a new book is empty |
| Contacts.AddressBook.Listing | task.py:283 | `book.items()`: one pair per key, in insertion order, of the name and its record's contents |
| Contacts.AddressBook.AddRecord | task.py:91-96 | the record is stored under its name whether or not the name existed; a new name goes last in the order; afterwards `find` returns the record |
| Contacts.AddressBook.Find | task.py:98-100 | returns the record stored under the name, or None exactly when the name is absent |
| Contacts.AddressBook.Delete | task.py:102-105 | removes only that key and drops it from the order (with EraseAt, the other keys keep their order); an absent name changes nothing |
| Handlers.InputError | task.py:138-152 | a handler's own text is passed through; a ValueError, IndexError or KeyError becomes its fixed message |
| Handlers.AddContact | task.py:160-176 | too few words: the ValueError message and no change. Otherwise a new name is added (last in the order) and an existing one kept; a non-empty phone is appended when valid; an invalid phone gives the ValueError message but leaves the new, empty record in the book; the message says added or updated; every record the book holds afterwards that it did not hold before is newly allocated, so later commands can run on the same book |
| Handlers.RecordFor | task.py:163-170 | the record under the name, created empty (a new object) and stored when there was none; the map changes only at that name |
| Handlers.PhoneFor | task.py:174-175 | a non-empty phone is added to the stored record; only that entry of the book changes |
| Handlers.ChangeContact | task.py:178-190 | too few words: the ValueError message; an unknown name: "Contact not found", without the full stop, and no change; otherwise the record is edited, and an invalid new phone that matches gives the ValueError message and no change |
| Handlers.ShowPhone | task.py:192-202 | too few words: the ValueError message; an unknown name: "Contact not found."; otherwise the name and the raw phones joined with "; " |
| Handlers.AddBirthday | task.py:204-217 | too few words: the ValueError message; an unknown name: "Contact not found." and no change; otherwise the birthday is overwritten when it parses, else the ValueError message and no change |
| Handlers.ShowBirthday | task.py:219-231 | too few words: the ValueError message; an unknown name: "Contact not found."; otherwise the raw birthday string, or "date not recorded." |
| Handlers.DeleteContact | task.py:287-297 | too few words: the ValueError message; an unknown name: "Contact not found." and no change; otherwise the name is removed from the map and from the order |
| Handlers.ShowAll | task.py:279-285 | the text is one line per contact, in book order, each the record's rendering followed by a newline |
| Handlers.AllText | task.py:279-285 | the text is empty exactly when the book is, and otherwise ends with a newline |
| Handlers.AllTextLines | task.py:279-285 | the line written for the i-th contact, after those of the contacts before it, is exactly `str(record)` and a newline |
| Scheduler.Projected | task.py:252-253 | the birthday moved to today's year is found exactly when that year has four digits and the date exists in it |
| Scheduler.Shifted | task.py:255-263 | the shifted date is a weekday; a weekday stays; a Saturday or Sunday moves forward 7 − weekday days to a Monday |
| Scheduler.AccumulateSnoc | task.py:269-272 | one pass of the loop that appends a line, putting the header in front when it is the second line, keeps `res` equal to the closed form: one line alone, or the header once followed by all lines |
| Scheduler.Candidate | task.py:241-266 | an entry without a birthday is not reported; the only failure is the date-format error; a reported date is valid, falls on a weekday, and its day is at most 6 past today's |
| Scheduler.Line | task.py:271 | a report line starts with the name, ends with a newline, and is at least 14 characters longer than the name: " - ", a date of at least ten characters, and the newline |
| Scheduler.Lines | task.py:239-266 | the scan yields at most one line per entry |
| Scheduler.Report | task.py:233-277 | the report fails exactly when the scan does, with the scan's error, and is never empty |
| Scheduler.LinesNonEmpty | task.py:271 | every report line is at least " - " plus a newline long |
| Scheduler.ReportShape | task.py:233-277 | the report is the no-birthdays message when no line was found, the single line when one was found, and otherwise the header followed by all lines |
| Scheduler.LinesErrSticky | task.py:253 | a failed re-parse of any entry makes the whole report fail with that error |
| Scheduler.LinesOk | task.py:239-266 | the report succeeds exactly when no entry's re-parse fails |
| Scheduler.ReportedHasLine | task.py:239-272 | every entry that is reported has its line in the report |
| Scheduler.LineIsReported | task.py:239-272 | every line of the report belongs to a reported entry |
| Scheduler.CandidateMeaning | task.py:241-266 | an entry with a birthday is reported exactly when the birthday is in today's month, on today's day or later, the projected date exists in today's (four-digit) year, and after the weekend shift its day is at most 6 past today's; the projection fails exactly when the year or the date is invalid |
| Scheduler.OtherMonthExcluded | task.py:246-250 | a birthday in another month is never reported |
| Scheduler.ShiftAcrossMonthPasses | task.py:259-266 | a weekend shift that leaves the month lands on day 1 or 2, so it always passes the difference test |
| Scheduler.LeapDayRaises | task.py:252-253 | a 29 February birthday checked in February of a common year makes the report fail |
| Scheduler.Examine | task.py:241-266 | one pass of the loop body: the verdict for the record is its Candidate, and any reported date is valid |
| Scheduler.Birthdays | task.py:233-277 | the result is Report of the book's listing in book order: the lines, the header rule, the no-birthdays message or the first re-parse error |
| Fixture.JohnMobileValid | task.py:111-113 | John's first demonstration phone is accepted as written |
| Fixture.JohnWorkValid | task.py:113 | John's second demonstration phone is accepted as written |
| Fixture.SharedPhoneValid | task.py:117 | the phone shared by Jane, Pane, Cane and Dane is accepted as written |
| Fixture.JaneBirthday | task.py:118 | "23.07.1989" is accepted and names 23 July 1989 |
| Fixture.PaneBirthday | task.py:123 | "07.08.1989" is accepted and names 7 August 1989 |
| Fixture.CaneBirthday | task.py:128 | "02.08.1989" is accepted and names 2 August 1989 |
| Fixture.DaneBirthday | task.py:133 | "03.08.1989" is accepted and names 3 August 1989 |
| Fixture.SeedWeekdays | task.py:255 | 1 August 2024 is a Thursday; the 3rd of August is a Saturday |
| Fixture.CandidatePane | task.py:246-266 | Pane's birthday, Wednesday 7 August, is reported as it is |
| Fixture.CandidateCane | task.py:246-266 | Cane's birthday, Friday 2 August, is reported as it is |
| Fixture.DaneShifted | task.py:259-263 | Saturday 3 August 2024 moves to Monday 5 August |
| Fixture.CandidateDane | task.py:259-266 | Dane's birthday, a Saturday, is reported for Monday 5 August |
| Fixture.SeedLines | task.py:239-272 | for the demonstration book on 1 August 2024, the report lines are Pane's, Cane's and Dane's, in book order; John (no birthday) and Jane (July) are left out |
| Fixture.SeedReport | task.py:233-277 | the report for the demonstration book is the header followed by "Pane - 07.08.2024", "Cane - 02.08.2024" and "Dane - 05.08.2024" |
| Fixture.Session | task.py:160-202 | commands run one after another on one book: `add John …` answers "Contact added.", changing that phone and adding a second one answer "Contact updated.", and `phone John` then lists both phones in order |
| Fixture.AddJohn | task.py:160-176 | adding John with a valid phone to an empty book stores a new record holding that phone |
| Fixture.ChangeJohn | task.py:178-190 | changing John's only phone to a valid one replaces it |
| Fixture.AddJohnWork | task.py:160-176 | adding a second phone to an existing contact appends it after the first |
| Fixture.MonthBoundaryExcluded | task.py:246-250 | on 28 January, a birthday on 2 February, five days ahead, is not reported |

## Left out

- `main()` and its input/print loop (task.py:299-332): console I/O.
- `parse_input` (task.py:154-158): a split and lower-casing at the console boundary; the handlers take the words it produces.
- `dt.today()` (task.py:235): today's date is a parameter of `Birthdays`.
- The `print('Contact already exist')` in `add_record` (task.py:94): it cannot be reached and is output only.
- The module-level demonstration book (task.py:108-134) is not built by replaying its `add_record` calls. `Fixture.SeedListing` gives the listing the book holds afterwards. The phone and birthday lemmas show that each phone and birthday of it is accepted as written.
- Fields.ParseDate: `strptime` corner cases beyond the digit grammar are left out. These are non-ASCII digits, a space before a single-digit day or month, and locale behaviour. The model accepts exactly 1–2 ASCII digits, a dot, 1–2 digits, a dot, and 4 digits.
- Calendar.ValidDate: years above 9999 are not excluded, so `AddDays` does not raise the `OverflowError` Python raises past 9999-12-31.
- Fields.FormatDate: `strftime` padding of years below 1000 is platform behaviour. Only four-digit years are stated to round-trip.
- Contacts.Record.FindPhone: phones are values, so the model returns an equal phone, not the identical object; a reference to the list element is not modelled.
- Scheduler.Birthdays: the uncaught exception, which would end the program, is returned as an `Err`.
- Handlers.InputError: the `IndexError` and `KeyError` branches are modelled, but no handler raises them.
- The decorator machinery itself (`*args`, `**kwargs`): each handler returns its own result and `InputError` maps it.
