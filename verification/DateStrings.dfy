/** Reading and printing "YYYY-MM-DD" strings through JavaScript dates. */
module DateStrings {
  import opened Gregorian
  import opened Text

  /** A Date at a UTC midnight: its day number, or an invalid Date outside the time range. */
  datatype UtcDate = Invalid | Day(number: int)

  const LAST_DAY_OF_TIME := 100_000_000

  /** TimeClip, in days. */
  function Clip(day: int): UtcDate {
    if -LAST_DAY_OF_TIME <= day <= LAST_DAY_OF_TIME then Day(day) else Invalid
  }

  /** new Date(Date.UTC(y, m, d)): years 0 to 99 mean 1900 to 1999. */
  function DateUtc(y: int, m: int, d: int): UtcDate {
    Clip(MakeDay(if 0 <= y <= 99 then 1900 + y else y, m, d))
  }

  /** /^\d{4}-\d{2}-\d{2}$/ */
  predicate IsDatePattern(s: string) {
    |s| == 10 && s[4] == '-' && s[7] == '-' && AllDigits(s[..4]) && AllDigits(s[5..7]) && AllDigits(s[8..])
  }

  datatype Parsed = Null | Date(day: int)

  function DateFromString(s: string): Parsed {
    if !IsDatePattern(s) then Null
    else
      var year, month, day := Value(s[..4]), Value(s[5..7]), Value(s[8..]);
      match DateUtc(year, month - 1, day)
      case Invalid => Null
      case Day(n) => if CivilOf(n) == Civil(year, month - 1, day) then Date(n) else Null
  }

  function DateToString(date: UtcDate): string {
    match date
    case Invalid => "NaN-NaN-NaN"
    case Day(n) =>
      var c := CivilOf(n);
      IntString(c.year) + "-" + PadZeros(Decimal(c.month + 1), 2) + "-" + PadZeros(Decimal(c.date), 2)
  }

  predicate IsValidDateString(s: string) {
    var parsed := DateFromString(s);
    parsed.Date? && DateToString(Day(parsed.day)) == s
  }

  /** The day a readable date string names. */
  function DayOf(s: string): int {
    match DateFromString(s)
    case Null => 0
    case Date(n) => n
  }

  /** The string printed for a day. */
  function Printed(day: int): string {
    DateToString(Day(day))
  }

  const FIRST_DAY := DayFromYear(1000)
  const LAST_DAY := DayFromYear(10000) - 1

  /** The days whose year has exactly four digits: 1000-01-01 to 9999-12-31. */
  predicate FourDigitDay(day: int) {
    FIRST_DAY <= day <= LAST_DAY
  }

  /** A date written with four, two and two digits. */
  function Written(c: Civil): (s: string)
    requires 0 <= c.year && 0 <= c.month && 0 <= c.date
    ensures IsDatePattern(s)
  {
    var s := Digits(c.year, 4) + "-" + Digits(c.month + 1, 2) + "-" + Digits(c.date, 2);
    assert s[..4] == Digits(c.year, 4) && s[5..7] == Digits(c.month + 1, 2) && s[8..] == Digits(c.date, 2);
    s
  }

  lemma PowersOfTen()
    ensures Pow10(0) == 1 && Pow10(1) == 10 && Pow10(2) == 100 && Pow10(3) == 1000 && Pow10(4) == 10000
  {
    assert Pow10(2) == 10 * Pow10(1);
    assert Pow10(4) == 10 * Pow10(3);
  }

  lemma FourDigitYears(day: int)
    ensures FourDigitDay(day) <==> 1000 <= CivilOf(day).year <= 9999
    ensures FourDigitDay(day) ==> -LAST_DAY_OF_TIME <= day <= LAST_DAY_OF_TIME
  {
    hide CivilOf, DayNumber;
    var c := CivilOf(day);
    DateWithinYear(c);
    if c.year < 1000 { YearsIncrease(c.year + 1, 1000); }
    if 1000 <= c.year { YearsIncrease(1000, c.year); }
    if c.year <= 9999 { YearsIncrease(c.year + 1, 10000); }
    if 9999 < c.year { YearsIncrease(10000, c.year); }
  }

  /** The written parts of a date, read back as numbers. */
  lemma WrittenParts(c: Civil)
    requires 0 <= c.year <= 9999 && 0 <= c.month < 12 && 0 <= c.date <= 31
    ensures var s := Written(c);
            Value(s[..4]) == c.year && Value(s[5..7]) == c.month + 1 && Value(s[8..]) == c.date
  {
    var s := Written(c);
    PowersOfTen();
    assert s[..4] == Digits(c.year, 4) && s[5..7] == Digits(c.month + 1, 2) && s[8..] == Digits(c.date, 2);
    ValueOfDigits(c.year, 4);
    ValueOfDigits(c.month + 1, 2);
    ValueOfDigits(c.date, 2);
  }

  /** Every string of the pattern is the written form of its three numbers. */
  lemma PatternIsWritten(s: string)
    requires IsDatePattern(s) && Value(s[5..7]) > 0
    ensures s == Written(Civil(Value(s[..4]), Value(s[5..7]) - 1, Value(s[8..])))
    ensures Value(s[..4]) <= 9999
  {
    PowersOfTen();
    ValueBound(s[..4]);
    ValueBound(s[5..7]);
    ValueBound(s[8..]);
    assert s == s[..4] + "-" + s[5..7] + "-" + s[8..];
  }

  /** Printing a four-digit day writes its date. */
  lemma PrintedIsWritten(day: int)
    requires FourDigitDay(day)
    ensures Printed(day) == Written(CivilOf(day))
  {
    var c := CivilOf(day);
    FourDigitYears(day);
    PowersOfTen();
    DecimalIsDigits(c.year, 4);
    PadTwo(c.month + 1);
    PadTwo(c.date);
  }

  lemma ParseOnlyDates(s: string)
    requires DateFromString(s).Date?
    ensures var c := CivilOf(DateFromString(s).day);
            100 <= c.year <= 9999 && s == Written(c)
  {
    hide YearOf, MonthOf, DayFromYear, DaysBeforeMonth, CivilOf;
    var y, m, d := Value(s[..4]), Value(s[5..7]), Value(s[8..]);
    var c := CivilOf(DateFromString(s).day);
    assert c == Civil(y, m - 1, d);
    PatternIsWritten(s);
    PowersOfTen();
    ValueBound(s[5..7]);
    ValueBound(s[8..]);
    if y <= 99 {
      ShortYearRejected(y, m, d);
    }
  }

  lemma ParseAllDates(day: int)
    requires 100 <= CivilOf(day).year <= 9999
    ensures DateFromString(Written(CivilOf(day))) == Date(day)
  {
    hide YearOf, MonthOf, DayFromYear, DaysBeforeMonth, CivilOf, Written;
    var c := CivilOf(day);
    WrittenParts(c);
    EarlyYearsInTime(day);
    assert DateUtc(c.year, c.month, c.date) == Clip(DayNumber(c)) == Day(day);
  }

  /** dateFromString accepts exactly the real dates of years 100 to 9999, and names their day. */
  lemma ParseExact(s: string, day: int)
    ensures DateFromString(s) == Date(day) <==>
              (100 <= CivilOf(day).year <= 9999 && s == Written(CivilOf(day)))
  {
    if DateFromString(s) == Date(day) {
      ParseOnlyDates(s);
    }
    if 100 <= CivilOf(day).year <= 9999 {
      ParseAllDates(day);
    }
  }

  lemma EarlyYearsInTime(day: int)
    requires 100 <= CivilOf(day).year <= 9999
    ensures Clip(day) == Day(day)
  {
    var c := CivilOf(day);
    DateWithinYear(c);
    YearsIncrease(100, c.year);
    YearsIncrease(c.year + 1, 10000);
  }

  /** Date.UTC moves years 0 to 99 into the twentieth century, so they never read back. */
  lemma ShortYearRejected(y: nat, m: nat, d: nat)
    requires y <= 99 && m <= 99 && d <= 99
    ensures CivilOf(MakeDay(1900 + y, m - 1, d)).year > 99
  {
    var n := MakeDay(1900 + y, m - 1, d);
    var y' := 1900 + y + (m - 1) / 12;
    YearTable(y');
    if (m - 1) % 12 > 0 { MonthsIncrease(y', 0, (m - 1) % 12); }
    YearsIncrease(1899, y');
    assert n >= DayFromYear(1899) - 1;
    DateWithinYear(CivilOf(n));
    if CivilOf(n).year <= 99 {
      YearsIncrease(CivilOf(n).year + 1, 100);
    }
  }

  /** isValidDateString accepts exactly the real dates of years 1000 to 9999. */
  lemma ValidExact(s: string)
    ensures IsValidDateString(s) <==> exists c :: IsDate(c) && 1000 <= c.year <= 9999 && s == Written(c)
    ensures IsValidDateString(s) ==> FourDigitDay(DayOf(s)) && s == Printed(DayOf(s))
  {
    hide YearOf, MonthOf, DayFromYear, DaysBeforeMonth, Written, CivilOf, DayNumber;
    if IsValidDateString(s) {
      var day := DayOf(s);
      ParseExact(s, day);
      var c := CivilOf(day);
      if c.year < 1000 {
        ShortPrint(c.year);
      }
      FourDigitYears(day);
    }
    if c :| IsDate(c) && 1000 <= c.year <= 9999 && s == Written(c) {
      var day := DayNumber(c);
      DayNumberOrder(CivilOf(day), c);
      ParseExact(s, day);
      FourDigitYears(day);
      PrintedIsWritten(day);
    }
  }

  /** A year below 1000 prints with at most three digits. */
  lemma ShortPrint(y: nat)
    requires 100 <= y < 1000
    ensures |Decimal(y)| == 3
  {
    PowersOfTen();
    DecimalIsDigits(y, 3);
  }

  /** Printing and reading a four-digit day are inverse. */
  lemma ParsePrinted(day: int)
    requires FourDigitDay(day)
    ensures DateFromString(Printed(day)) == Date(day)
    ensures IsValidDateString(Printed(day)) && DayOf(Printed(day)) == day
  {
    PrintedIsWritten(day);
    FourDigitYears(day);
    ParseExact(Printed(day), day);
  }

  /** On four-digit days the string order is the order of the days. */
  lemma PrintedOrder(a: int, b: int)
    requires FourDigitDay(a) && FourDigitDay(b)
    ensures LexLess(Printed(a), Printed(b)) <==> a < b
    ensures Printed(a) == Printed(b) <==> a == b
  {
    var c, d := CivilOf(a), CivilOf(b);
    PrintedIsWritten(a);
    PrintedIsWritten(b);
    FourDigitYears(a);
    FourDigitYears(b);
    DayNumberOrder(c, d);
    WrittenOrder(c, d);
  }

  lemma WrittenOrder(c: Civil, d: Civil)
    requires 0 <= c.year <= 9999 && 0 <= c.month < 12 && 0 <= c.date <= 31
    requires 0 <= d.year <= 9999 && 0 <= d.month < 12 && 0 <= d.date <= 31
    ensures LexLess(Written(c), Written(d)) <==> Earlier(c, d)
    ensures Written(c) == Written(d) <==> c == d
  {
    hide LexLess, Digits, Value, Pow10;
    WrittenParts(c);
    WrittenParts(d);
    PowersOfTen();
    var y, m, n := Digits(c.year, 4), Digits(c.month + 1, 2), Digits(c.date, 2);
    var y', m', n' := Digits(d.year, 4), Digits(d.month + 1, 2), Digits(d.date, 2);
    ValueOfDigits(c.year, 4); ValueOfDigits(d.year, 4);
    ValueOfDigits(c.month + 1, 2); ValueOfDigits(d.month + 1, 2);
    ValueOfDigits(c.date, 2); ValueOfDigits(d.date, 2);
    LexIsNumeric(y, y');
    LexIsNumeric(m, m');
    LexIsNumeric(n, n');
    assert Written(c) == y + ("-" + (m + ("-" + n)));
    assert Written(d) == y' + ("-" + (m' + ("-" + n')));
    LexConcat(y, "-" + (m + ("-" + n)), y', "-" + (m' + ("-" + n')));
    LexConcat("-", m + ("-" + n), "-", m' + ("-" + n'));
    LexTotal("-", "-");
    LexConcat(m, "-" + n, m', "-" + n');
    LexConcat("-", n, "-", n');
  }

  /** The promise of the recurrence code's comparisons: on valid date strings < is date order. */
  lemma StringOrderIsDayOrder(a: string, b: string)
    requires IsValidDateString(a) && IsValidDateString(b)
    ensures LexLess(a, b) <==> DayOf(a) < DayOf(b)
    ensures a == b <==> DayOf(a) == DayOf(b)
  {
    ValidExact(a);
    ValidExact(b);
    PrintedOrder(DayOf(a), DayOf(b));
  }
}
