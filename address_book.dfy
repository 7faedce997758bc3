/** The address book: records keyed by normalised name, in insertion order as a Python dict keeps
    them, and the query for birthdays in the coming week with weekend dates moved to Monday. */
module AddressBooks {
  import opened Wrappers
  import opened Calendar
  import opened Fields
  import opened Records

  // ---------------------------------------------------------------- the birthday query, on values

  /** `__check_weekend`: how many days to move a date off the weekend, 2 from a Saturday and 1 from
      a Sunday. */
  function CheckWeekend(d: Date): (n: nat)
    requires ValidDate(d)
    ensures n <= 2
    ensures n == 0 <==> IsoWeekday(d) <= 5
    ensures n > 0 ==> (IsoWeekday(d) + n) % 7 == 1
  {
    match IsoWeekday(d)
    case 6 => 2
    case 7 => 1
    case _ => 0
  }

  /** The shifted date always exists (31.12.9999 is a Friday, so no shift runs past it), it is a
      weekday, it lies 0 to 2 days after the original, and a weekday is left where it is. */
  lemma WeekendShift(d: Date)
    requires ValidDate(d)
    ensures AddDays(d, CheckWeekend(d)).Ok?
    ensures var c := AddDays(d, CheckWeekend(d)).value;
      IsoWeekday(c) <= 5 && Ordinal(d) <= Ordinal(c) <= Ordinal(d) + 2 && (IsoWeekday(d) <= 5 ==> c == d)
  {
    var o := Ordinal(d);
    OrdinalBounds(d);
    ShiftOnOrdinals(o);
    var n := CheckWeekend(d);
    assert n == (if WeekdayOfOrdinal(o) == 6 then 2 else if WeekdayOfOrdinal(o) == 7 then 1 else 0);
    var r := AddDays(d, n);
    var c := r.value;
    if n == 0 {
      OrdinalOrder(d, c);
    }
  }

  /** The weekend shift on day numbers: Saturday and Sunday move to the next Monday, which exists
      because the last day number is a Friday. */
  lemma ShiftOnOrdinals(o: int)
    requires 1 <= o <= MaxOrdinal
    ensures var w := WeekdayOfOrdinal(o);
      var n := if w == 6 then 2 else if w == 7 then 1 else 0;
      o + n <= MaxOrdinal && WeekdayOfOrdinal(o + n) == (if n == 0 then w else 1)
  {
    var q, r := o / 7, o % 7;
    assert o == 7 * q + r;
    assert MaxOrdinal == 7 * 521722 + 5;
    if r == 6 {
      assert o + 2 == 7 * (q + 1) + 1;
    } else if r == 0 {
      assert o + 1 == 7 * q + 1;
    }
  }

  /** The birthday's next occurrence as `get_upcoming_birthday` computes it: this year's date, or
      next year's when this year's has passed. Either `replace(year=)` raises ValueError when the
      year lacks the day (29 February) or is past 9999. */
  function NextOccurrence(birthday: Date, today: Date): (r: Result<Date>)
    requires ValidDate(today)
    ensures r.Ok? ==> ValidDate(r.value) && r.value.month == birthday.month && r.value.day == birthday.day
    ensures r.Ok? ==> !Before(r.value, today)
    ensures r.Ok? ==> (r.value.year == today.year ||
      (r.value.year == today.year + 1 && Before(Date(today.year, birthday.month, birthday.day), today)))
    ensures r.Err? ==> r.error == ValueError
  {
    match Replace(birthday, today.year)
    case Err(e) => Err(e)
    case Ok(thisYear) =>
      if Before(thisYear, today) then Replace(thisYear, today.year + 1) else Ok(thisYear)
  }

  /** The next occurrence is the earliest date on or after today with the birthday's day and month. */
  lemma NextOccurrenceIsEarliest(birthday: Date, today: Date, d: Date)
    requires ValidDate(today) && NextOccurrence(birthday, today).Ok?
    requires ValidDate(d) && d.month == birthday.month && d.day == birthday.day && !Before(d, today)
    ensures !Before(d, NextOccurrence(birthday, today).value)
  {
  }

  /** The occurrence lies on or after today, less than a year and a day later. */
  lemma NextOccurrenceDistance(birthday: Date, today: Date)
    requires ValidDate(today) && NextOccurrence(birthday, today).Ok?
    ensures 0 <= Ordinal(NextOccurrence(birthday, today).value) - Ordinal(today) <= 366
  {
    var occ := NextOccurrence(birthday, today).value;
    OrdinalOrder(today, occ);
    OrdinalInYear(today);
    OrdinalInYear(occ);
    if occ.year == today.year + 1 {
      var thisYear := Date(today.year, birthday.month, birthday.day);
      if today.year < MaxYear {
        DaysBeforeYearStep(today.year);
      }
      assert ValidDate(thisYear);
      OrdinalOrder(thisYear, today);
      assert Ordinal(occ) - Ordinal(thisYear) <= DaysInYear(today.year) + 1 by {
        assert DaysBeforeMonth(occ.year, occ.month) <= DaysBeforeMonth(today.year, occ.month) + 1;
      }
    }
  }

  /** A 29 February birthday makes the query raise unless today lies in a leap year on or before
      29 February: in a common year this year's date does not exist, and after 29 February of a
      leap year next year's does not. */
  lemma LeapDayBirthday(birthday: Date, today: Date)
    requires ValidDate(today) && birthday.month == 2 && birthday.day == 29
    ensures NextOccurrence(birthday, today).Ok? <==> IsLeap(today.year) && !Before(Date(today.year, 2, 29), today)
  {
    if IsLeap(today.year) {
      assert !IsLeap(today.year + 1);
    }
  }

  /** Any other real birthday has a next occurrence, except past its date in year 9999. */
  lemma OtherBirthday(birthday: Date, today: Date)
    requires ValidDate(today) && ValidDate(birthday) && !(birthday.month == 2 && birthday.day == 29)
    ensures NextOccurrence(birthday, today).Ok? <==>
      !(today.year == MaxYear && Before(Date(MaxYear, birthday.month, birthday.day), today))
  {
  }

  /** The congratulation date for one birthday: none unless the next occurrence is 0 to 6 days
      away, else that occurrence moved off the weekend. */
  function Congratulation(birthday: Date, today: Date): (r: Result<Option<Date>>)
    requires ValidDate(today)
    ensures r.Ok? && r.value.Some? ==> ValidDate(r.value.value)
  {
    match NextOccurrence(birthday, today)
    case Err(e) => Err(e)
    case Ok(occ) =>
      var days := Ordinal(occ) - Ordinal(today);
      if 0 <= days < 7 then
        match AddDays(occ, CheckWeekend(occ))
        case Err(e) => Err(e)
        case Ok(c) => Ok(Some(c))
      else Ok(None)
  }

  /** What a congratulation date means: it exists exactly when the next occurrence exists and is
      fewer than 7 days away; it is then a weekday 0 to 2 days after that occurrence, and the
      occurrence itself when that is a weekday. The only failure is the occurrence's. */
  lemma CongratulationMeaning(birthday: Date, today: Date)
    requires ValidDate(today)
    ensures Congratulation(birthday, today).Err? <==> NextOccurrence(birthday, today).Err?
    ensures NextOccurrence(birthday, today).Ok? ==>
      var occ := NextOccurrence(birthday, today).value;
      var r := Congratulation(birthday, today).value;
      (r.Some? <==> Ordinal(occ) - Ordinal(today) < 7) &&
      (r.Some? ==> IsoWeekday(r.value) <= 5 && Ordinal(occ) <= Ordinal(r.value) <= Ordinal(occ) + 2 &&
                   (IsoWeekday(occ) <= 5 ==> r.value == occ))
  {
    if NextOccurrence(birthday, today).Ok? {
      var occ := NextOccurrence(birthday, today).value;
      NextOccurrenceDistance(birthday, today);
      WeekendShift(occ);
    }
  }

  /** With today Monday 10.06.2024, a birthday on Saturday 15.06 is congratulated on Monday 17.06. */
  lemma WeekendBirthdayMovedToMonday()
    ensures Congratulation(Date(1985, 6, 15), Date(2024, 6, 10)) == Ok(Some(Date(2024, 6, 17)))
  {
    var today, occ, monday := Date(2024, 6, 10), Date(2024, 6, 15), Date(2024, 6, 17);
    assert DaysBeforeYear(2024) == 738885;
    assert Ordinal(today) == 739047 && Ordinal(occ) == 739052 && Ordinal(monday) == 739054;
    assert NextOccurrence(Date(1985, 6, 15), today) == Ok(occ);
    assert IsoWeekday(occ) == 6;
    var c := AddDays(occ, 2).value;
    OrdinalOrder(c, monday);
  }

  /** With today 10.06.2024, a birthday on Wednesday 12.06 is congratulated that day. */
  lemma WeekdayBirthdayKept()
    ensures Congratulation(Date(1990, 6, 12), Date(2024, 6, 10)) == Ok(Some(Date(2024, 6, 12)))
  {
    var today, occ := Date(2024, 6, 10), Date(2024, 6, 12);
    assert DaysBeforeYear(2024) == 738885;
    assert Ordinal(today) == 739047 && Ordinal(occ) == 739049;
    assert NextOccurrence(Date(1990, 6, 12), today) == Ok(occ);
    assert IsoWeekday(occ) == 3;
    var c := AddDays(occ, 0).value;
    OrdinalOrder(c, occ);
  }

  /** A birthday falling today counts; one exactly seven days ahead does not. */
  lemma WindowBounds()
    ensures Congratulation(Date(1990, 6, 10), Date(2024, 6, 10)) == Ok(Some(Date(2024, 6, 10)))
    ensures Congratulation(Date(1990, 6, 17), Date(2024, 6, 10)) == Ok(None)
  {
    var today, later := Date(2024, 6, 10), Date(2024, 6, 17);
    assert DaysBeforeYear(2024) == 738885;
    assert Ordinal(today) == 739047 && Ordinal(later) == 739054;
    assert NextOccurrence(Date(1990, 6, 10), today) == Ok(today);
    assert NextOccurrence(Date(1990, 6, 17), today) == Ok(later);
    assert IsoWeekday(today) == 1;
    var c := AddDays(today, 0).value;
    OrdinalOrder(c, today);
  }

  /** A birthday that passed yesterday is next due in almost a year, so it is not listed. */
  lemma PassedBirthdayNotListed()
    ensures Congratulation(Date(1990, 6, 9), Date(2024, 6, 10)) == Ok(None)
  {
    var today, occ := Date(2024, 6, 10), Date(2025, 6, 9);
    assert DaysBeforeYear(2024) == 738885 && DaysBeforeYear(2025) == 739251;
    assert NextOccurrence(Date(1990, 6, 9), today) == Ok(occ);
    assert Ordinal(occ) - Ordinal(today) == 364;
  }

  /** What the query reads from one record: its name and its birthday, if set. */
  datatype Row = Row(name: string, birthday: Option<Date>)

  /** One item of the query's answer: `{"name": ..., "congratulation_date": "DD.MM.YYYY"}`. */
  datatype Entry = Entry(name: string, congratulationDate: string)

  /** The loop body of `get_upcoming_birthday` for one record. */
  function RowEntry(row: Row, today: Date): (r: Result<Option<Entry>>)
    requires ValidDate(today)
    ensures r.Ok? && r.value.Some? ==>
      r.value.value.name == row.name && DatePattern(r.value.value.congratulationDate)
  {
    if row.birthday.None? then Ok(None)
    else
      match Congratulation(row.birthday.value, today)
      case Err(e) => Err(e)
      case Ok(None) => Ok(None)
      case Ok(Some(c)) =>
        FormatMatchesPattern(c);
        Ok(Some(Entry(row.name, Format(c))))
  }

  /** A record yields an entry exactly when it has a birthday whose next occurrence is fewer than 7
      days away; the entry carries the record's name and the weekend-shifted date. A record raises
      exactly when it has a birthday without a next occurrence. */
  lemma RowEntryMeaning(row: Row, today: Date)
    requires ValidDate(today)
    ensures RowEntry(row, today).Err? <==> row.birthday.Some? && NextOccurrence(row.birthday.value, today).Err?
    ensures RowEntry(row, today).Ok? && RowEntry(row, today).value.Some? <==>
      row.birthday.Some? && NextOccurrence(row.birthday.value, today).Ok? &&
      Ordinal(NextOccurrence(row.birthday.value, today).value) - Ordinal(today) < 7
    ensures RowEntry(row, today).Ok? && RowEntry(row, today).value.Some? ==>
      var occ := NextOccurrence(row.birthday.value, today).value;
      var c := AddDays(occ, CheckWeekend(occ)).value;
      RowEntry(row, today).value.value == Entry(row.name, Format(c))
  {
    if row.birthday.Some? {
      CongratulationMeaning(row.birthday.value, today);
    }
  }

  /** What each record in turn yields. */
  function Steps(rows: seq<Row>, today: Date): (steps: seq<Result<Option<Entry>>>)
    requires ValidDate(today)
    ensures |steps| == |rows|
    ensures forall i :: 0 <= i < |rows| ==> steps[i] == RowEntry(rows[i], today)
  {
    seq(|rows|, i requires 0 <= i < |rows| => RowEntry(rows[i], today))
  }

  /** The loop's accumulation: the entries in order, or the first error raised. */
  function Collect(steps: seq<Result<Option<Entry>>>): (r: Result<seq<Entry>>)
    ensures r.Ok? ==> |r.value| <= |steps|
  {
    if steps == [] then Ok([])
    else
      match Collect(steps[..|steps| - 1])
      case Err(e) => Err(e)
      case Ok(entries) =>
        match steps[|steps| - 1]
        case Err(e) => Err(e)
        case Ok(None) => Ok(entries)
        case Ok(Some(entry)) => Ok(entries + [entry])
  }

  /** `get_upcoming_birthday` over the records in iteration order. */
  function Upcoming(rows: seq<Row>, today: Date): (r: Result<seq<Entry>>)
    requires ValidDate(today)
    ensures r.Ok? ==> |r.value| <= |rows|
  {
    Collect(Steps(rows, today))
  }

  /** The accumulation answers exactly when no step raises. */
  lemma {:induction false} CollectOkIff(steps: seq<Result<Option<Entry>>>)
    ensures Collect(steps).Ok? <==> forall i :: 0 <= i < |steps| ==> steps[i].Ok?
  {
    if steps != [] {
      var init := steps[..|steps| - 1];
      CollectOkIff(init);
      assert forall i :: 0 <= i < |init| ==> init[i] == steps[i];
    }
  }

  /** The query answers exactly when no record raises. */
  lemma UpcomingOkIff(rows: seq<Row>, today: Date)
    requires ValidDate(today)
    ensures Upcoming(rows, today).Ok? <==> forall i :: 0 <= i < |rows| ==> RowEntry(rows[i], today).Ok?
  {
    CollectOkIff(Steps(rows, today));
  }

  /** The accumulated entries are, in order and once each, those of the steps that yield one. */
  lemma {:induction false} CollectIndices(steps: seq<Result<Option<Entry>>>, entries: seq<Entry>) returns (idx: seq<nat>)
    requires Collect(steps) == Ok(entries)
    ensures |idx| == |entries|
    ensures forall j :: 0 <= j < |idx| ==> idx[j] < |steps| && steps[idx[j]] == Ok(Some(entries[j]))
    ensures forall j, k :: 0 <= j < k < |idx| ==> idx[j] < idx[k]
    ensures forall i :: 0 <= i < |steps| && steps[i] != Ok(None) ==> i in idx
  {
    if steps == [] {
      idx := [];
    } else {
      var n := |steps| - 1;
      var init := steps[..n];
      assert forall i :: 0 <= i < n ==> init[i] == steps[i];
      var prev := Collect(init).value;
      var before := CollectIndices(init, prev);
      match steps[n]
      case Ok(None) =>
        idx := before;
      case Ok(Some(entry)) =>
        idx := before + [n];
    }
  }

  /** The answer lists, in iteration order and once each, exactly the records that yield an entry:
      `idx` gives the position of each entry's record, strictly increasing, and holds every
      position whose record yields an entry. */
  lemma UpcomingIndices(rows: seq<Row>, today: Date, entries: seq<Entry>) returns (idx: seq<nat>)
    requires ValidDate(today) && Upcoming(rows, today) == Ok(entries)
    ensures |idx| == |entries|
    ensures forall j :: 0 <= j < |idx| ==> idx[j] < |rows| && RowEntry(rows[idx[j]], today) == Ok(Some(entries[j]))
    ensures forall j, k :: 0 <= j < k < |idx| ==> idx[j] < idx[k]
    ensures forall i :: 0 <= i < |rows| && RowEntry(rows[i], today) != Ok(None) ==> i in idx
  {
    idx := CollectIndices(Steps(rows, today), entries);
  }

  // ---------------------------------------------------------------- the book

  /** No key twice. */
  predicate DistinctKeys(keys: seq<string>)
  {
    forall i, j :: 0 <= i < j < |keys| ==> keys[i] != keys[j]
  }

  /** The dict's key order after `del`: `key` taken out, the rest in their order. */
  function RemoveKey(keys: seq<string>, key: string): (r: seq<string>)
    ensures forall k :: k in r <==> k in keys && k != key
    ensures DistinctKeys(keys) ==> DistinctKeys(r)
    ensures key !in keys ==> r == keys
  {
    if keys == [] then []
    else
      var rest := RemoveKey(keys[1..], key);
      assert DistinctKeys(keys) ==> DistinctKeys(keys[1..]) && keys[0] !in keys[1..];
      if keys[0] == key then rest else [keys[0]] + rest
  }

  /** `del` cuts the key out of its one place and leaves every other key where it was. */
  lemma {:induction false} RemoveKeyKeepsOrder(keys: seq<string>, key: string, p: nat)
    requires DistinctKeys(keys) && p < |keys| && keys[p] == key
    ensures RemoveKey(keys, key) == keys[..p] + keys[p + 1..]
    decreases p
  {
    assert DistinctKeys(keys[1..]) && keys[0] !in keys[1..];
    if p == 0 {
      assert key !in keys[1..];
    } else {
      RemoveKeyKeepsOrder(keys[1..], key, p - 1);
      assert keys[0] != key;
      assert keys[1..][..p - 1] == keys[1..p];
      assert keys[1..][p..] == keys[p + 1..];
      assert [keys[0]] + keys[1..p] == keys[..p];
    }
  }

  class AddressBook {
    /** `self.data`: the records by name. */
    var data: map<string, Record>
    /** The order in which the dict iterates its keys: first insertion first. */
    var order: seq<string>

    /** The dict's keys in order, once each; every record filed under its own name and valid. */
    ghost predicate Valid()
      reads this, data.Values
    {
      (forall k :: k in data <==> k in order) && DistinctKeys(order) &&
      (forall k :: k in data ==> data[k].name == k && data[k].Valid())
    }

    /** `AddressBook()`: empty. */
    constructor ()
      ensures Valid() && data == map[] && order == []
    {
      data := map[];
      order := [];
    }

    /** What the query reads from the records stored under `keys`, in that order. */
    function RowsOf(keys: seq<string>): (rows: seq<Row>)
      reads this, data.Values
      requires forall k :: k in keys ==> k in data
      ensures |rows| == |keys|
      ensures forall i :: 0 <= i < |keys| ==> rows[i] == Row(data[keys[i]].name, data[keys[i]].birthday)
    {
      if keys == [] then []
      else RowsOf(keys[..|keys| - 1]) + [Row(data[keys[|keys| - 1]].name, data[keys[|keys| - 1]].birthday)]
    }

    /** `add_record`: files the record under its name, replacing any record of that name; a new
        name goes last in the iteration order, a known one keeps its place. */
    method AddRecord(record: Record)
      requires Valid() && record.Valid()
      modifies this
      ensures Valid()
      ensures data == old(data)[record.name := record]
      ensures order == if record.name in old(data) then old(order) else old(order) + [record.name]
    {
      if record.name !in data {
        order := order + [record.name];
      }
      data := data[record.name := record];
    }

    /** `find`: the record under the normalised name, or none. */
    method Find(name: string) returns (r: Option<Record>)
      ensures NormalizeName(name) in data ==> r == Some(data[NormalizeName(name)])
      ensures NormalizeName(name) !in data ==> r == None
    {
      var key := NormalizeName(name);
      r := if key in data then Some(data[key]) else None;
    }

    /** `delete`: removes the record under the normalised name and says whether there was one;
        every other key keeps its record and its place. */
    method Delete(name: string) returns (deleted: bool)
      requires Valid()
      modifies this
      ensures Valid()
      ensures deleted <==> NormalizeName(name) in old(data)
      ensures data == old(data) - {NormalizeName(name)}
      ensures order == RemoveKey(old(order), NormalizeName(name))
    {
      var key := NormalizeName(name);
      if key in data {
        data := data - {key};
        order := RemoveKey(order, key);
        return true;
      }
      return false;
    }

    /** `get_upcoming_birthday(today)`: walks the records in iteration order, skipping those
        without a birthday, and lists those whose next occurrence is 0 to 6 days away with the
        weekend-shifted date; a failing `replace(year=)` raises out of the whole query. */
    method GetUpcomingBirthday(today: Date) returns (r: Result<seq<Entry>>)
      requires (forall k :: k in order ==> k in data) && ValidDate(today)
      ensures r == Upcoming(RowsOf(order), today)
    {
      var congratulations: seq<Entry> := [];
      var rows := RowsOf(order);
      ghost var steps := Steps(rows, today);
      var i := 0;
      while i < |rows|
        invariant 0 <= i <= |rows|
        invariant Collect(steps[..i]) == Ok(congratulations)
      {
        var row := rows[i];
        var step := RecordEntry(row.name, row.birthday, today);
        assert row == Row(row.name, row.birthday);
        assert step == steps[i];
        CollectStep(steps, i);
        if step.Err? {
          return Err(step.error);
        }
        if step.value.Some? {
          congratulations := congratulations + [step.value.value];
        }
        i := i + 1;
      }
      assert steps[..i] == steps;
      r := Ok(congratulations);
    }
  }

  /** The body of the loop in `get_upcoming_birthday` for one record, step by step as the source
      takes it: this year's occurrence, next year's when that has passed, the distance in days, and
      the weekend shift. */
  method RecordEntry(name: string, birthday: Option<Date>, today: Date) returns (r: Result<Option<Entry>>)
    requires ValidDate(today)
    ensures r == RowEntry(Row(name, birthday), today)
  {
    ghost var row := Row(name, birthday);
    if birthday.None? {
      RowAnswers(row, today);
      return Ok(None);
    }
    var thisYear := Replace(birthday.value, today.year);
    if thisYear.Err? {
      RowRaises(row, today);
      return Err(thisYear.error);
    }
    var occurrence := thisYear;
    if Before(thisYear.value, today) {
      occurrence := Replace(thisYear.value, today.year + 1);
      if occurrence.Err? {
        RowRaises(row, today);
        return Err(occurrence.error);
      }
    }
    var birthdayThisYear := occurrence.value;
    assert NextOccurrence(birthday.value, today) == Ok(birthdayThisYear);
    RowAnswers(row, today);
    var daysUntil := Ordinal(birthdayThisYear) - Ordinal(today);
    if 0 <= daysUntil < 7 {
      var congratsDate := AddDays(birthdayThisYear, CheckWeekend(birthdayThisYear)).value;
      return Ok(Some(Entry(name, Format(congratsDate))));
    }
    return Ok(None);
  }

  /** The loop body's steps for one record give RowEntry: it answers once the next occurrence exists. */
  lemma RowAnswers(row: Row, today: Date)
    requires ValidDate(today)
    requires row.birthday.Some? ==> NextOccurrence(row.birthday.value, today).Ok?
    ensures RowEntry(row, today).Ok?
    ensures row.birthday.Some? ==>
      var occ := NextOccurrence(row.birthday.value, today).value;
      if 0 <= Ordinal(occ) - Ordinal(today) < 7 then
        AddDays(occ, CheckWeekend(occ)).Ok? &&
        RowEntry(row, today) == Ok(Some(Entry(row.name, Format(AddDays(occ, CheckWeekend(occ)).value))))
      else RowEntry(row, today) == Ok(None)
  {
    if row.birthday.Some? {
      WeekendShift(NextOccurrence(row.birthday.value, today).value);
    }
  }

  /** The loop body's steps for one record give RowEntry: it raises when the next occurrence does. */
  lemma RowRaises(row: Row, today: Date)
    requires ValidDate(today) && row.birthday.Some? && NextOccurrence(row.birthday.value, today).Err?
    ensures RowEntry(row, today) == Err(NextOccurrence(row.birthday.value, today).error)
  {
  }

  /** One turn of the query's loop: after the first `i` steps answered, step `i` either raises
      out of the whole accumulation or extends the answer by its entry, if any. */
  lemma CollectStep(steps: seq<Result<Option<Entry>>>, i: nat)
    requires i < |steps| && Collect(steps[..i]).Ok?
    ensures steps[i].Err? ==> Collect(steps) == Err(steps[i].error)
    ensures steps[i] == Ok(None) ==> Collect(steps[..i + 1]) == Collect(steps[..i])
    ensures steps[i].Ok? && steps[i].value.Some? ==>
      Collect(steps[..i + 1]) == Ok(Collect(steps[..i]).value + [steps[i].value.value])
  {
    var next := steps[..i + 1];
    assert next[..i] == steps[..i] && next[i] == steps[i];
    if steps[i].Err? {
      CollectErrorPropagates(steps, i + 1);
    }
  }

  /** Once a prefix of the steps raises, the whole accumulation raises the same error. */
  lemma {:induction false} CollectErrorPropagates(steps: seq<Result<Option<Entry>>>, k: nat)
    requires k <= |steps| && Collect(steps[..k]).Err?
    ensures Collect(steps) == Collect(steps[..k])
    decreases |steps| - k
  {
    if k < |steps| {
      assert steps[..k + 1][..k] == steps[..k];
      CollectErrorPropagates(steps, k + 1);
    } else {
      assert steps[..k] == steps;
    }
  }
}
