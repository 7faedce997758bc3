/** The proleptic Gregorian calendar of Python's `datetime.date`, with the arithmetic CPython uses:
    day ordinals counted from 01.01.0001 (ordinal 1, a Monday), `isoweekday`, comparison, `replace(year=)`,
    adding a `timedelta` of whole days, and `strftime("%d.%m.%Y")`. */
module Calendar {
  import opened Wrappers
  import opened Text

  const MinYear: int := 1
  const MaxYear: int := 9999
  /** The ordinal of 31.12.9999, the last date `datetime.date` can hold. */
  const MaxOrdinal: int := 3652059

  datatype Date = Date(year: int, month: int, day: int)

  predicate IsLeap(year: int)
  {
    year % 4 == 0 && (year % 100 != 0 || year % 400 == 0)
  }

  function DaysInYear(year: int): int
  {
    if IsLeap(year) then 366 else 365
  }

  /** Month lengths of a common year, indexed by month (CPython's `_DAYS_IN_MONTH`). */
  const MonthLengths: seq<int> := [-1, 31, 28, 31, 30, 31, 30, 31, 31, 30, 31, 30, 31]

  /** Days before the first of each month in a common year (CPython's `_DAYS_BEFORE_MONTH`). */
  const MonthStarts: seq<int> := [-1, 0, 31, 59, 90, 120, 151, 181, 212, 243, 273, 304, 334]

  function DaysInMonth(year: int, month: int): int
    requires 1 <= month <= 12
  {
    if month == 2 && IsLeap(year) then 29 else MonthLengths[month]
  }

  function DaysBeforeMonth(year: int, month: int): int
    requires 1 <= month <= 12
  {
    MonthStarts[month] + (if month > 2 && IsLeap(year) then 1 else 0)
  }

  /** Days in the years before `year`, that is before 01.01.`year`. */
  function DaysBeforeYear(year: int): int
    requires year >= 1
  {
    var y := year - 1;
    y * 365 + y / 4 - y / 100 + y / 400
  }

  /** A date `datetime.date` accepts: year 1 to 9999, month 1 to 12, a day that month has. */
  predicate ValidDate(d: Date)
  {
    MinYear <= d.year <= MaxYear && 1 <= d.month <= 12 && 1 <= d.day <= DaysInMonth(d.year, d.month)
  }

  /** `date.toordinal()`. */
  function Ordinal(d: Date): int
    requires ValidDate(d)
  {
    DaysBeforeYear(d.year) + DaysBeforeMonth(d.year, d.month) + d.day
  }

  /** `date.isoweekday()`: 1 for Monday through 7 for Sunday. */
  function IsoWeekday(d: Date): int
    requires ValidDate(d)
  {
    WeekdayOfOrdinal(Ordinal(d))
  }

  /** The ISO weekday of the day with ordinal `o` (ordinal 1 is a Monday). */
  function WeekdayOfOrdinal(o: int): int
  {
    var w := o % 7;
    if w == 0 then 7 else w
  }

  /** `a < b` on dates, which Python decides on (year, month, day) in that order. */
  predicate Before(a: Date, b: Date)
  {
    a.year < b.year || (a.year == b.year && (a.month < b.month || (a.month == b.month && a.day < b.day)))
  }

  /** `date.replace(year=year)`: the same month and day in another year, or ValueError when that year
      is out of range or lacks the day (29 February outside a leap year). */
  function Replace(d: Date, year: int): (r: Result<Date>)
    ensures r.Ok? ==> ValidDate(r.value) && r.value == Date(year, d.month, d.day)
    ensures r.Err? ==> r.error == ValueError && !ValidDate(Date(year, d.month, d.day))
  {
    var e := Date(year, d.month, d.day);
    if ValidDate(e) then Ok(e) else Err(ValueError)
  }

  /** The calendar day after `d`. */
  function NextDay(d: Date): Date
    requires ValidDate(d)
  {
    if d.day < DaysInMonth(d.year, d.month) then Date(d.year, d.month, d.day + 1)
    else if d.month < 12 then Date(d.year, d.month + 1, 1)
    else Date(d.year + 1, 1, 1)
  }

  /** `n` calendar days after `d`. */
  function Later(d: Date, n: nat): Date
    requires ValidDate(d) && Ordinal(d) + n <= MaxOrdinal
    decreases n
  {
    if n == 0 then d
    else
      OrdinalNextDay(d);
      Later(NextDay(d), n - 1)
  }

  /** `d + timedelta(days=n)`: the date whose ordinal is `n` more, or OverflowError past 31.12.9999. */
  function AddDays(d: Date, n: nat): (r: Result<Date>)
    requires ValidDate(d)
    ensures r.Ok? <==> Ordinal(d) + n <= MaxOrdinal
    ensures r.Ok? ==> ValidDate(r.value) && Ordinal(r.value) == Ordinal(d) + n
    ensures r.Err? ==> r.error == OverflowError
  {
    if Ordinal(d) + n <= MaxOrdinal then
      LaterOrdinal(d, n);
      Ok(Later(d, n))
    else
      Err(OverflowError)
  }

  /** `d.strftime("%d.%m.%Y")`. */
  function Format(d: Date): (s: string)
    requires ValidDate(d)
    ensures |s| == 10 && s[2] == '.' && s[5] == '.'
  {
    Padded(d.day, 2) + "." + Padded(d.month, 2) + "." + Padded(d.year, 4)
  }

  lemma DaysBeforeYearStep(year: int)
    requires year >= 1
    ensures DaysBeforeYear(year + 1) == DaysBeforeYear(year) + DaysInYear(year)
  {
    var y := year - 1;
    assert (y + 1) / 4 == y / 4 + (if year % 4 == 0 then 1 else 0);
    assert (y + 1) / 100 == y / 100 + (if year % 100 == 0 then 1 else 0);
    assert (y + 1) / 400 == y / 400 + (if year % 400 == 0 then 1 else 0);
  }

  lemma DaysBeforeMonthStep(year: int, month: int)
    requires 1 <= month < 12
    ensures DaysBeforeMonth(year, month + 1) == DaysBeforeMonth(year, month) + DaysInMonth(year, month)
  {
  }

  /** The months of a year fill it exactly. */
  lemma LastMonthEndsYear(year: int)
    ensures DaysBeforeMonth(year, 12) + DaysInMonth(year, 12) == DaysInYear(year)
  {
  }

  /** Months earlier in the year end before later months start. */
  lemma {:induction false} MonthsOrdered(year: int, m1: int, m2: int)
    requires 1 <= m1 < m2 <= 12
    ensures DaysBeforeMonth(year, m1) + DaysInMonth(year, m1) <= DaysBeforeMonth(year, m2)
    decreases m2 - m1
  {
    DaysBeforeMonthStep(year, m1);
    if m1 + 1 < m2 {
      MonthsOrdered(year, m1 + 1, m2);
    }
  }

  /** Earlier years end before later years start. */
  lemma {:induction false} YearsOrdered(y1: int, y2: int)
    requires 1 <= y1 < y2
    ensures DaysBeforeYear(y1) + DaysInYear(y1) <= DaysBeforeYear(y2)
    decreases y2 - y1
  {
    DaysBeforeYearStep(y1);
    if y1 + 1 < y2 {
      YearsOrdered(y1 + 1, y2);
    }
  }

  /** Every date of a year has an ordinal inside that year's span. */
  lemma OrdinalInYear(d: Date)
    requires ValidDate(d)
    ensures DaysBeforeYear(d.year) < Ordinal(d) <= DaysBeforeYear(d.year) + DaysInYear(d.year)
  {
    LastMonthEndsYear(d.year);
    if d.month < 12 {
      MonthsOrdered(d.year, d.month, 12);
    }
  }

  /** The ordinal counts days: the first date has ordinal 1, the next day has the next ordinal
      (OrdinalNextDay), and the last date has ordinal MaxOrdinal. */
  lemma FirstOrdinal()
    ensures ValidDate(Date(MinYear, 1, 1)) && Ordinal(Date(MinYear, 1, 1)) == 1
  {
  }

  lemma LastOrdinal(d: Date)
    requires d == Date(MaxYear, 12, 31)
    ensures ValidDate(d) && Ordinal(d) == MaxOrdinal
  {
    assert DaysBeforeYear(MaxYear) == 3651694;
  }

  /** Every date `datetime.date` can hold has an ordinal from 1 to MaxOrdinal. */
  lemma OrdinalBounds(d: Date)
    requires ValidDate(d)
    ensures 1 <= Ordinal(d) <= MaxOrdinal
  {
    OrdinalInYear(d);
    if d.year < MaxYear {
      YearsOrdered(d.year, MaxYear);
    }
    assert DaysBeforeYear(MaxYear) == 3651694;
  }

  lemma OrdinalNextDay(d: Date)
    requires ValidDate(d) && Ordinal(d) < MaxOrdinal
    ensures ValidDate(NextDay(d)) && Ordinal(NextDay(d)) == Ordinal(d) + 1
  {
    if d.day < DaysInMonth(d.year, d.month) {
    } else if d.month < 12 {
      DaysBeforeMonthStep(d.year, d.month);
    } else {
      if d.year == MaxYear {
        LastOrdinal(d);
        assert false;
      }
      NewYear(d.year);
    }
  }

  /** The day after 31 December is 1 January of the next year. */
  lemma NewYear(year: int)
    requires MinYear <= year < MaxYear
    ensures ValidDate(Date(year, 12, 31)) && ValidDate(Date(year + 1, 1, 1))
    ensures Ordinal(Date(year + 1, 1, 1)) == Ordinal(Date(year, 12, 31)) + 1
  {
    LastMonthEndsYear(year);
    DaysBeforeYearStep(year);
  }

  lemma {:induction false} LaterOrdinal(d: Date, n: nat)
    requires ValidDate(d) && Ordinal(d) + n <= MaxOrdinal
    ensures ValidDate(Later(d, n)) && Ordinal(Later(d, n)) == Ordinal(d) + n
    decreases n
  {
    if n > 0 {
      OrdinalNextDay(d);
      LaterOrdinal(NextDay(d), n - 1);
    }
  }

  /** Comparing dates as Python does agrees with comparing their ordinals, and distinct dates have
      distinct ordinals. */
  lemma OrdinalOrder(a: Date, b: Date)
    requires ValidDate(a) && ValidDate(b)
    ensures Before(a, b) <==> Ordinal(a) < Ordinal(b)
    ensures a == b <==> Ordinal(a) == Ordinal(b)
  {
    if a.year != b.year {
      var (x, y) := if a.year < b.year then (a, b) else (b, a);
      OrdinalInYear(x);
      OrdinalInYear(y);
      YearsOrdered(x.year, y.year);
    } else if a.month != b.month {
      var (x, y) := if a.month < b.month then (a, b) else (b, a);
      MonthsOrdered(a.year, x.month, y.month);
    }
  }

  /** Moving `n` days on moves the weekday on by `n`, cyclically. */
  lemma WeekdayAfter(d: Date, e: Date, n: nat)
    requires ValidDate(d) && ValidDate(e) && Ordinal(e) == Ordinal(d) + n
    ensures IsoWeekday(e) - 1 == (IsoWeekday(d) - 1 + n) % 7
  {
    WeekdayOfOrdinalShift(Ordinal(d), n);
  }

  lemma WeekdayOfOrdinalShift(o: int, n: nat)
    ensures WeekdayOfOrdinal(o + n) - 1 == (WeekdayOfOrdinal(o) - 1 + n) % 7
  {
    var q, r := (o - 1) / 7, (o - 1) % 7;
    assert o - 1 == 7 * q + r;
    assert WeekdayOfOrdinal(o) - 1 == r;
    assert WeekdayOfOrdinal(o + n) - 1 == (o - 1 + n) % 7;
    assert o - 1 + n == 7 * q + (r + n);
  }

  /** The last date `datetime.date` can hold is a Friday. */
  lemma LastDateIsFriday()
    ensures ValidDate(Date(MaxYear, 12, 31)) && IsoWeekday(Date(MaxYear, 12, 31)) == 5
  {
    LastOrdinal(Date(MaxYear, 12, 31));
    assert WeekdayOfOrdinal(MaxOrdinal) == 5;
  }
}
