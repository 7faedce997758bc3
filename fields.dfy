/** The validated fields of a contact: Name (normalised, never rejected), Phone (ten digits) and
    Birthday (DD.MM.YYYY, read as a calendar date). */
module Fields {
  import opened Wrappers
  import opened Text
  import opened Calendar

  // ---------------------------------------------------------------- Name

  /** `Name(raw).value`: `raw.strip().capitalize()`. Nothing is rejected, the empty name included. */
  function NormalizeName(raw: string): string
  {
    Capitalize(Strip(raw))
  }

  /** A normalised name keeps the stripped text's length and neither starts nor ends with white space. */
  lemma NormalizeNameTrimmed(raw: string)
    ensures |NormalizeName(raw)| == |Strip(raw)|
    ensures var name := NormalizeName(raw); name == [] || (!IsSpace(name[0]) && !IsSpace(name[|name| - 1]))
  {
    CapitalizeIdempotent(Strip(raw));
  }

  /** A normalised name is its own normal form, so keys written back into Name do not change. */
  lemma NormalizeNameIdempotent(raw: string)
    ensures NormalizeName(NormalizeName(raw)) == NormalizeName(raw)
  {
    var t := Strip(raw);
    var i, j := StripIsMiddle(raw);
    CapitalizeIdempotent(t);
    StripTrimmed(Capitalize(t));
  }

  /** Two spellings give the same name exactly when, once stripped, they differ only in letter case. */
  lemma SameNameIff(a: string, b: string)
    ensures NormalizeName(a) == NormalizeName(b) <==> SameIgnoringCase(Strip(a), Strip(b))
  {
    CapitalizeSameIff(Strip(a), Strip(b));
  }

  /** White space around a name never matters. */
  lemma NormalizeNameIgnoresPadding(p: string, raw: string, q: string)
    requires AllSpace(p) && AllSpace(q)
    ensures NormalizeName(p + raw + q) == NormalizeName(raw)
  {
    StripIgnoresPadding(p, raw, q);
  }

  /** A blank name is not rejected: any all-white-space text becomes the empty key. */
  lemma BlankNameAccepted(raw: string)
    requires AllSpace(raw)
    ensures NormalizeName(raw) == ""
  {
    StripIgnoresPadding(raw, "", "");
    assert raw + "" + "" == raw;
  }

  // ---------------------------------------------------------------- Phone

  datatype Phone = Phone(value: string)

  /** What a stored phone number is: exactly ten decimal digits. */
  predicate IsPhoneNumber(s: string)
  {
    |s| == 10 && AllDigits(s)
  }

  /** `Phone(raw)`: checks `raw` against `^\d{10}$` and stores it unchanged, or raises PhoneFormatError. */
  function NewPhone(raw: string): (r: Result<Phone>)
    ensures r.Ok? <==> IsPhoneNumber(raw)
    ensures r.Ok? ==> r.value.value == raw
    ensures r.Err? ==> r.error == PhoneFormatError
  {
    if DigitRun(raw, 10) then Ok(Phone(raw)) else Err(PhoneFormatError)
  }

  // ---------------------------------------------------------------- Birthday

  /** The value of two decimal digits. */
  function TwoDigits(a: char, b: char): nat
    requires IsDigit(a) && IsDigit(b)
  {
    10 * DigitValue(a) + DigitValue(b)
  }

  /** The day part of the pattern, `(0[1-9]|[12][0-9]|3[01])`. */
  function DayField(a: char, b: char): (r: bool)
    ensures r <==> IsDigit(a) && IsDigit(b) && 1 <= TwoDigits(a, b) <= 31
  {
    (a == '0' && '1' <= b <= '9') || ((a == '1' || a == '2') && IsDigit(b)) || (a == '3' && (b == '0' || b == '1'))
  }

  /** The month part of the pattern, `(0[1-9]|1[0-2])`. */
  function MonthField(a: char, b: char): (r: bool)
    ensures r <==> IsDigit(a) && IsDigit(b) && 1 <= TwoDigits(a, b) <= 12
  {
    (a == '0' && '1' <= b <= '9') || (a == '1' && '0' <= b <= '2')
  }

  /** The pattern `^(0[1-9]|[12][0-9]|3[01])\.(0[1-9]|1[0-2])\.\d{4}$` that Birthday checks. */
  function DatePattern(t: string): (r: bool)
    ensures r <==> (|t| == 10 && t[2] == '.' && t[5] == '.' && AllDigits(t[6..]) &&
      IsDigit(t[0]) && IsDigit(t[1]) && 1 <= TwoDigits(t[0], t[1]) <= 31 &&
      IsDigit(t[3]) && IsDigit(t[4]) && 1 <= TwoDigits(t[3], t[4]) <= 12)
  {
    |t| == 10 && DayField(t[0], t[1]) && t[2] == '.' && MonthField(t[3], t[4]) && t[5] == '.' &&
    DigitRun(t[6..], 4)
  }

  lemma FourDigitNumber(s: string)
    requires |s| == 4 && AllDigits(s)
    ensures Number(s) == 1000 * DigitValue(s[0]) + 100 * DigitValue(s[1]) + 10 * DigitValue(s[2]) + DigitValue(s[3])
  {
    assert s[..1][..0] == [];
    assert Number(s[..1]) == DigitValue(s[0]);
    assert s[..2][..1] == s[..1];
    assert Number(s[..2]) == 10 * DigitValue(s[0]) + DigitValue(s[1]);
    assert s[..3][..2] == s[..2];
    assert Number(s[..3]) == 100 * DigitValue(s[0]) + 10 * DigitValue(s[1]) + DigitValue(s[2]);
    assert s[..4] == s;
  }

  lemma TwoDigitNumber(s: string)
    requires |s| == 2 && AllDigits(s)
    ensures Number(s) == TwoDigits(s[0], s[1])
  {
    assert s[..1][..0] == [];
    assert Number(s[..1]) == DigitValue(s[0]);
  }

  /** The date `strptime(t, "%d.%m.%Y")` reads from text that matches the pattern. */
  function PatternDate(t: string): (d: Date)
    requires DatePattern(t)
    ensures 1 <= d.day <= 31 && 1 <= d.month <= 12 && 0 <= d.year <= 9999
  {
    TwoDigitNumber(t[0..2]);
    TwoDigitNumber(t[3..5]);
    NumberBound(t[6..]);
    Date(Number(t[6..]), Number(t[3..5]), Number(t[0..2]))
  }

  /** `Birthday(raw)`: strips `raw`, raises DateFormatError unless it matches the pattern, and
      otherwise parses it with `strptime`, which raises ValueError for a date the calendar lacks
      (31.02.2020, or any date in year 0000). */
  function ParseBirthday(raw: string): (r: Result<Date>)
    ensures r.Ok? ==> DatePattern(Strip(raw)) && ValidDate(r.value) && Format(r.value) == Strip(raw)
    ensures !DatePattern(Strip(raw)) <==> r == Err(DateFormatError)
    ensures DatePattern(Strip(raw)) && r.Err? ==> r.error == ValueError
  {
    var t := Strip(raw);
    if !DatePattern(t) then Err(DateFormatError)
    else
      var d := PatternDate(t);
      if ValidDate(d) then
        FormatPatternDate(t);
        Ok(d)
      else Err(ValueError)
  }

  lemma FormatPatternDate(t: string)
    requires DatePattern(t) && ValidDate(PatternDate(t))
    ensures Format(PatternDate(t)) == t
  {
    PaddedNumber(t[0..2]);
    PaddedNumber(t[3..5]);
    PaddedNumber(t[6..]);
    assert t == t[0..2] + "." + t[3..5] + "." + t[6..];
  }

  /** Every date `datetime.date` can hold survives printing and parsing back. */
  lemma ParseFormat(d: Date)
    requires ValidDate(d)
    ensures ParseBirthday(Format(d)) == Ok(d)
  {
    var s := Format(d);
    StripTrimmed(s);
    FormatMatchesPattern(d);
    PatternDateOfFormat(d);
  }

  lemma FormatMatchesPattern(d: Date)
    requires ValidDate(d)
    ensures DatePattern(Format(d))
  {
    var s := Format(d);
    var dd, mm := Padded(d.day, 2), Padded(d.month, 2);
    assert s[0..2] == dd && s[3..5] == mm && s[6..] == Padded(d.year, 4);
    NumberPadded(d.day, 2);
    NumberPadded(d.month, 2);
    TwoDigitNumber(dd);
    TwoDigitNumber(mm);
    assert s[0] == dd[0] && s[1] == dd[1] && s[3] == mm[0] && s[4] == mm[1];
    assert DayField(s[0], s[1]) && MonthField(s[3], s[4]);
  }

  lemma PatternDateOfFormat(d: Date)
    requires ValidDate(d) && DatePattern(Format(d))
    ensures PatternDate(Format(d)) == d
  {
    var s := Format(d);
    assert s[0..2] == Padded(d.day, 2) && s[3..5] == Padded(d.month, 2) && s[6..] == Padded(d.year, 4);
    NumberPadded(d.day, 2);
    NumberPadded(d.month, 2);
    NumberPadded(d.year, 4);
  }

  /** `str(Birthday(raw))`. */
  function BirthdayText(d: Date): (s: string)
    requires ValidDate(d)
    ensures |s| == 20 && ParseBirthday(s[10..]) == Ok(d)
  {
    ParseFormat(d);
    var s := "Birthday: " + Format(d);
    assert s[10..] == Format(d);
    s
  }

  /** A stored birthday prints as the text it was parsed from, without the surrounding white space. */
  lemma BirthdayTextRoundTrip(raw: string)
    requires ParseBirthday(raw).Ok?
    ensures BirthdayText(ParseBirthday(raw).value) == "Birthday: " + Strip(raw)
  {
  }

  /** The date that text matching the pattern names, digit by digit. */
  lemma PatternDateDigits(t: string)
    requires DatePattern(t)
    ensures PatternDate(t) == Date(
      1000 * DigitValue(t[6]) + 100 * DigitValue(t[7]) + 10 * DigitValue(t[8]) + DigitValue(t[9]),
      TwoDigits(t[3], t[4]), TwoDigits(t[0], t[1]))
  {
    TwoDigitNumber(t[0..2]);
    TwoDigitNumber(t[3..5]);
    FourDigitNumber(t[6..]);
  }

  /** White space around the text does not change what Birthday does with it. */
  lemma ParseBirthdayIgnoresPadding(p: string, raw: string, q: string)
    requires AllSpace(p) && AllSpace(q)
    ensures ParseBirthday(p + raw + q) == ParseBirthday(raw)
  {
    StripIgnoresPadding(p, raw, q);
  }

  /** The pattern, character by character. */
  lemma DatePatternByChars(t: string)
    requires |t| == 10 && DayField(t[0], t[1]) && t[2] == '.' && MonthField(t[3], t[4]) && t[5] == '.'
    requires IsDigit(t[6]) && IsDigit(t[7]) && IsDigit(t[8]) && IsDigit(t[9])
    ensures DatePattern(t)
  {
    assert AllDigits(t[6..]) by {
      forall i | 0 <= i < 4 ensures IsDigit(t[6..][i]) {
        assert t[6..][i] == t[6 + i];
      }
    }
  }

  /** Birthday accepts 05.03.1990, parsed to the calendar date it names. */
  lemma BirthdayAccepted()
    ensures ParseBirthday("05.03.1990") == Ok(Date(1990, 3, 5))
  {
    var t := "05.03.1990";
    StripTrimmed(t);
    DatePatternByChars(t);
    PatternDateDigits(t);
    assert PatternDate(t) == Date(1990, 3, 5);
  }

  /** 31.02.2020 matches the pattern but not the calendar: the parse raises ValueError. */
  lemma ImpossibleDateRaisesValueError()
    ensures ParseBirthday("31.02.2020") == Err(ValueError)
  {
    var t := "31.02.2020";
    StripTrimmed(t);
    DatePatternByChars(t);
    PatternDateDigits(t);
    assert PatternDate(t) == Date(2020, 2, 31);
    assert DaysInMonth(2020, 2) == 29;
  }

  /** Year 0000 matches the pattern but lies before year 1: the parse raises ValueError. */
  lemma YearZeroRaisesValueError()
    ensures ParseBirthday("01.01.0000") == Err(ValueError)
  {
    var t := "01.01.0000";
    StripTrimmed(t);
    DatePatternByChars(t);
    PatternDateDigits(t);
  }

  /** Day 32 and unpadded fields fail the pattern: DateFormatError. */
  lemma MalformedDateRaisesDateFormatError()
    ensures ParseBirthday("32.01.2000") == Err(DateFormatError)
    ensures ParseBirthday("1.1.2000") == Err(DateFormatError)
  {
    StripTrimmed("32.01.2000");
    assert !DatePattern("32.01.2000");
    StripTrimmed("1.1.2000");
    assert !DatePattern("1.1.2000");
  }
}
