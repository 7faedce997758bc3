# Address book contact core, in Dafny

This project models the core of `addressbook.py`, a contact book kept as a dictionary of records
keyed by a normalised name. It covers:

- the validated fields: **Name** (`strip` then `capitalize`), **Phone** (ten digits) and
  **Birthday** (text `DD.MM.YYYY` read as a calendar date);
- **Record**, which holds a name, an ordered list of phones changed in place, and an optional
  birthday;
- **AddressBook**, which adds, finds and deletes records and answers "whose birthday falls in the
  next seven days, and on which working day do we congratulate them".

The files and modules are:

- `wrappers.dfy` (`Wrappers`): the `Option` and `Result` types. Each Python exception the core can
  raise (`PhoneFormatError`, `DateFormatError`, `ValueError`, `OverflowError`) is an `Err` value.
- `text.dfy` (`Text`): the parts of Python's `str` that the core uses: `strip()` with Python's
  white-space set, `capitalize()`, `\d` runs, and zero-padded printing of numbers.
- `calendar.dfy` (`Calendar`): the proleptic Gregorian date of Python's `datetime.date` as CPython
  computes it. It has day ordinals from 01.01.0001, `isoweekday()`, comparison, `replace(year=)`,
  `+ timedelta(days=n)` and `strftime("%d.%m.%Y")`.
- `fields.dfy` (`Fields`): `Name`, `Phone` and `Birthday`.
- `record.dfy` (`Records`): class `Record`, whose methods update `phones` and `birthday` in place.
- `address_book.dfy` (`AddressBooks`): class `AddressBook`.
  - The dictionary is a `data` map plus an `order` sequence, the key order a Python dict iterates in.
  - The birthday query is also stated on values (`NextOccurrence`, `Congratulation`, `RowEntry`,
    `Upcoming`). The method is proved equal to that statement, and the lemmas about the statement
    give its meaning.

Python's behaviour, which the model keeps:

- `strip()` removes Python's white space from both ends and `capitalize()` uppercases the first
  character and lowercases every character after it.
- A name is never rejected. An empty or all-blank name becomes the key `""`.
- A 29 February birthday makes `replace(year=)` raise `ValueError` whenever that date does not
  exist in the year tried. The exception leaves the whole query; there is no 1 March or
  28 February fallback.

## Model

| member | source | states |
|---|---|---|
| Text.TrimStart | addressbook.py:25 | the result is a suffix of the input, everything dropped is white space, and the result does not start with white space |
| Text.TrimEnd | addressbook.py:25 | the result is a prefix of the input, everything dropped is white space, and the result does not end with white space |
| Text.StripIsMiddle | addressbook.py:25 | `strip()` returns a slice of its input, with only white space cut from either end, starting and ending with non-space |
| Text.StripIgnoresPadding | addressbook.py:25 | white space added around a text does not change what `strip()` returns |
| Text.CapitalizeSameIff | addressbook.py:25 | two texts capitalize to the same result exactly when they differ only in the case of letters |
| Text.CapitalizeIdempotent | addressbook.py:25 | capitalize keeps the length, turns no character into or out of white space, and applying it twice equals applying it once |
| Text.DigitRun | addressbook.py:35-37 | the `\d{n}$` match holds exactly when the text has length n and is all digits |
| Text.NumberPadded | addressbook.py:53 | zero-padded printing of a number that fits in the width reads back as that number |
| Text.PaddedNumber | addressbook.py:43 | a run of digits is the zero-padded printing of its value |
| Calendar.Replace | addressbook.py:133-138 | `replace(year=)` gives the same month and day in the new year, or ValueError exactly when that date does not exist |
| Calendar.AddDays | addressbook.py:143-145 | adding n days succeeds exactly when the result is at most 31.12.9999, and its ordinal is then n more; otherwise OverflowError |
| Calendar.OrdinalOrder | addressbook.py:135-140 | date comparison agrees with comparing ordinals, and two valid dates with the same ordinal are the same date |
| Calendar.OrdinalNextDay | addressbook.py:143-145 | the next calendar day has the next ordinal |
| Calendar.OrdinalBounds | addressbook.py:143-145 | every valid date has an ordinal from 1 to 3652059 |
| Calendar.WeekdayAfter | addressbook.py:156-157 | n days later the ISO weekday has advanced by n modulo 7 |
| Calendar.LastDateIsFriday | addressbook.py:143-145 | 31.12.9999, the last date Python can hold, is a Friday |
| Calendar.Format | addressbook.py:53 | `strftime("%d.%m.%Y")` gives ten characters with dots at positions 2 and 5; Fields.ParseFormat and Fields.FormatMatchesPattern show it reads back as the same date |
| Fields.NormalizeNameIdempotent | addressbook.py:25 | a normalised name is its own normal form |
| Fields.SameNameIff | addressbook.py:25 | two spellings give the same key exactly when, once stripped, they differ only in letter case |
| Fields.NormalizeName | addressbook.py:25 | `strip()` then `capitalize()` (no contract of its own: the five Name lemmas here give its meaning) |
| Fields.NormalizeNameTrimmed | addressbook.py:25 | a normalised name has the stripped text's length and neither starts nor ends with white space |
| Fields.NormalizeNameIgnoresPadding | addressbook.py:25 | white space around a name never changes its key |
| Fields.BlankNameAccepted | addressbook.py:23-25 | an all-blank name is not rejected; it becomes the empty key |
| Fields.NewPhone | addressbook.py:29-37 | a phone is made exactly when the text is ten digits, stored unchanged; otherwise PhoneFormatError |
| Fields.DayField | addressbook.py:49 | the day alternative of the pattern accepts exactly two digits from 01 to 31 |
| Fields.MonthField | addressbook.py:49 | the month alternative of the pattern accepts exactly two digits from 01 to 12 |
| Fields.DatePattern | addressbook.py:48-50 | the pattern holds exactly when the text is ten characters: a day 01..31, a dot, a month 01..12, a dot, four digits |
| Fields.PatternDate | addressbook.py:43 | the date read from matching text has its day in 1..31, its month in 1..12 and its year in 0..9999 |
| Fields.ParseBirthday | addressbook.py:41-50 | DateFormatError exactly when the stripped text fails the pattern; ValueError when it matches but names no real date; on success a real date that prints back as the stripped text |
| Fields.ParseFormat | addressbook.py:43-53 | every date Python can hold survives printing and parsing back |
| Fields.BirthdayTextRoundTrip | addressbook.py:52-53 | a stored birthday prints as `Birthday: ` followed by the stripped text it was parsed from |
| Fields.BirthdayText | addressbook.py:52-53 | a birthday prints as twenty characters whose last ten parse back to the same date |
| Fields.ParseBirthdayIgnoresPadding | addressbook.py:43-50 | white space around the text does not change the parse |
| Fields.BirthdayAccepted | addressbook.py:41-44 | `05.03.1990` parses to 5 March 1990 |
| Fields.ImpossibleDateRaisesValueError | addressbook.py:42-43 | `31.02.2020` passes the pattern, so the parse raises ValueError, not DateFormatError |
| Fields.YearZeroRaisesValueError | addressbook.py:42-43 | `01.01.0000` passes the pattern but lies before year 1: ValueError |
| Fields.MalformedDateRaisesDateFormatError | addressbook.py:42-50 | `32.01.2000` and `1.1.2000` fail the pattern: DateFormatError |
| Records.FirstIndex | addressbook.py:88-92 | none exactly when no phone has the number; otherwise the position of the first phone with it |
| Records.RemoveFirstOccurrence | addressbook.py:68-73 | popping the first match removes exactly one copy of that phone from the multiset of phones |
| Records.RemoveAt | addressbook.py:71 | dropping position i removes exactly one copy of that element |
| Records.AppendKeepsDistinct | addressbook.py:62-66 | appending an absent phone keeps the list free of repeats |
| Records.RemoveFromDistinct | addressbook.py:68-73 | popping from a list without repeats leaves a list without repeats that no longer holds that phone |
| Records.PairDistinct | addressbook.py:75-80 | a two-phone list has no repeat exactly when the two differ |
| Records.Record.constructor | addressbook.py:57-60 | a new record has the normalised name, no phones and no birthday |
| Records.Record.GetPhoneIndex | addressbook.py:88-92 | the scan returns FirstIndex: the first position holding the number, or none |
| Records.Record.AddPhone | addressbook.py:62-66 | a known number gives false and changes nothing; a malformed new one raises PhoneFormatError and changes nothing; otherwise the phone is appended and the answer is true; a list without repeats stays without repeats |
| Records.Record.RemovePhone | addressbook.py:68-73 | true exactly when the number was present, and then the first match is cut out; otherwise nothing changes; in a list without repeats the number is then gone altogether |
| Records.Record.EditPhone | addressbook.py:75-80 | absent old number gives false; a malformed new number raises before any change; otherwise the first match is replaced in place, with no check against the other phones |
| Records.Record.FindPhone | addressbook.py:82-83 | as written: the number when it is present but not first, otherwise the empty string |
| Records.Record.FindPhoneIntended | addressbook.py:82-83 | the number exactly when some phone has it, otherwise the empty string |
| Records.Record.AddBirthday | addressbook.py:85-86 | a parsed birthday replaces any earlier one; a parse failure raises its error and leaves the birthday as it was |
| Records.EmptyRecord | addressbook.py:57-60 | a new record of any name is valid, without phones and without birthday |
| Records.FindPhoneMissesFirstPhone | addressbook.py:83 | after adding one well-formed number, `find_phone` of it returns "" while the intended lookup returns the number |
| Records.AddPhoneTwice | addressbook.py:62-66 | adding the same number twice answers true, then false, and stores it once |
| Records.EditPhoneCanDuplicate | addressbook.py:75-80 | editing the second of two different numbers into the first leaves the same number twice: a list without repeats becomes one with a repeat |
| AddressBooks.WeekendShift | addressbook.py:143-145 | the shifted date always exists, is a weekday, lies 0 to 2 days later, and is unchanged for a weekday |
| AddressBooks.CheckWeekend | addressbook.py:156-163 | the shift is at most 2 days, zero exactly on Monday to Friday, and lands a Saturday or Sunday on a Monday (WeekendShift gives it on dates) |
| AddressBooks.ShiftOnOrdinals | addressbook.py:156-163 | on day numbers, Saturday moves two days and Sunday one day, to a Monday that still exists |
| AddressBooks.NextOccurrence | addressbook.py:133-138 | a result has the birthday's month and day, is not before today and lies this year or next year; failure is ValueError |
| AddressBooks.NextOccurrenceIsEarliest | addressbook.py:133-138 | no date with that month and day lies from today up to before the occurrence |
| AddressBooks.NextOccurrenceDistance | addressbook.py:140 | the occurrence lies 0 to 366 days after today |
| AddressBooks.LeapDayBirthday | addressbook.py:133-138 | a 29 February birthday has an occurrence exactly when today's year is a leap year and today is on or before 29 February |
| AddressBooks.OtherBirthday | addressbook.py:133-138 | any other birthday has an occurrence except after its date in year 9999 |
| AddressBooks.Congratulation | addressbook.py:132-145 | a congratulation date is a real date (CongratulationMeaning gives the rest) |
| AddressBooks.CongratulationMeaning | addressbook.py:132-145 | a date exists exactly when the occurrence is fewer than 7 days away; it is a weekday 0 to 2 days after it, the occurrence itself on a weekday; it fails exactly when the occurrence does |
| AddressBooks.WeekendBirthdayMovedToMonday | addressbook.py:142-145 | with today 10.06.2024, a birthday on Saturday 15.06 is congratulated on Monday 17.06.2024 |
| AddressBooks.WeekdayBirthdayKept | addressbook.py:142-145 | with today 10.06.2024, a birthday on 12.06 is congratulated on 12.06.2024 |
| AddressBooks.WindowBounds | addressbook.py:142 | a birthday today is listed; one exactly seven days ahead is not |
| AddressBooks.PassedBirthdayNotListed | addressbook.py:135-142 | a birthday that was yesterday is 364 days away next year and not listed |
| AddressBooks.RowEntry | addressbook.py:128-152 | an entry carries the record's name and a date text matching the birthday pattern (RowEntryMeaning gives when it exists) |
| AddressBooks.RowEntryMeaning | addressbook.py:128-152 | one record gives an entry exactly when it has a birthday less than 7 days ahead, with its name and the shifted date; it raises exactly when its occurrence fails |
| AddressBooks.Upcoming | addressbook.py:128-154 | the answer has at most one entry per record (UpcomingOkIff and UpcomingIndices give which) |
| AddressBooks.UpcomingOkIff | addressbook.py:128-154 | the query answers exactly when no record raises |
| AddressBooks.UpcomingIndices | addressbook.py:128-154 | the answer lists, in iteration order and once each, exactly the records that yield an entry |
| AddressBooks.CollectStep | addressbook.py:128-152 | one turn of the loop: a raising record ends the query with its error, otherwise the list grows by its entry, if any |
| AddressBooks.RemoveKey | addressbook.py:116-119 | `del` removes exactly that key from the iteration order, keeps the order free of repeats, and changes nothing for an absent key |
| AddressBooks.RemoveKeyKeepsOrder | addressbook.py:116-119 | with keys free of repeats, `del` cuts the key out of its one place and leaves every other key in its order |
| AddressBooks.RecordEntry | addressbook.py:129-152 | the loop body, step by step, equals RowEntry for that record |
| AddressBooks.AddressBook.constructor | addressbook.py:108 | a new book is empty |
| AddressBooks.AddressBook.AddRecord | addressbook.py:110-111 | the record is stored under its name, replacing any previous one; a new name goes last in iteration order |
| AddressBooks.AddressBook.Find | addressbook.py:113-114 | the record stored under the normalised name, or none |
| AddressBooks.AddressBook.Delete | addressbook.py:116-121 | true exactly when the normalised name was a key; that key alone leaves the map and the iteration order |
| AddressBooks.AddressBook.GetUpcomingBirthday | addressbook.py:123-154 | the answer is Upcoming over the records in iteration order, with `today` given as a parameter |

## Left out

- `save` and `load` are not modelled, because they are `pickle` file I/O. The fallback that prints
  a message is not modelled either.
- `datetime.today()` is the clock. `GetUpcomingBirthday` takes `today` as a parameter instead.
- `bot.py`, the command loop around the core, is not part of this model.
- Fields.NewPhone: does not model two corners of Python's `re`. `$` also matches before a final
  `"\n"`, so `"0123456789\n"` would be accepted and stored with its newline. `\d` also matches
  non-ASCII decimal digits. The model accepts exactly ten ASCII digits.
- Fields.ParseBirthday: `\d` in the pattern, and `strptime`, are modelled on ASCII digits only.
  The text is stripped before the match, so the trailing-newline corner of `$` cannot arise here.
- Text.CapitalizeSameIff: `capitalize()` is modelled on ASCII letters only. Python maps the whole
  of Unicode, and for the first character it uses title case.
- Calendar.Format: `%Y` is always printed with four digits. Some C libraries print years below
  1000 without leading zeros.
- `Field.__str__`, `Record.__str__` and the rest of `UserDict`'s interface (`__getitem__`, `len`,
  iteration by the caller) are not modelled, because they only format or forward.
- AddressBooks.AddressBook.Find: returns the stored `Record` object, and the model proves nothing
  about a caller changing that record through the reference. In Python a caller could also rebind
  `record.name` and leave the record filed under its old key. In the model `name` is a `const`, so
  that cannot happen.
- AddressBooks.AddressBook.GetUpcomingBirthday: the answer entries
  `{"name": …, "congratulation_date": …}` are the `Entry` datatype, not dictionaries.

## Findings

| source | as written | input that shows it | evidently intended | confidence | as-written member | corrected member |
|---|---|---|---|---|---|---|
| addressbook.py:83 | `phone_number if self.__get_phone_index(phone_number) else ""` tests the index for truth, and index 0 is false | a record whose only phone is `0123456789`; `find_phone("0123456789")` returns `""` | return the number whenever the index is not `None` | not executed | Records.Record.FindPhone, Records.FindPhoneMissesFirstPhone | Records.Record.FindPhoneIntended |
