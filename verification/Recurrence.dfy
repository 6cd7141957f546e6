/** Recurrence rules of the plan forms: day and month steps over date strings, rule validation,
    and the expansion of every rule except custom weekly ones (see WeeklyRecurrence). */
module Recurrence {
  import opened Gregorian
  import opened Text
  import opened DateStrings

  const MAX_RECURRENCE_OCCURRENCES := 50

  datatype Frequency = Daily | Weekly | Fortnightly | Monthly | Annually | Custom
  datatype Unit = DayUnit | WeekUnit | MonthUnit | YearUnit
  datatype EndMode = Count | Until
  datatype MonthMode = DayOfMonth | LastDay
  type WeekdayNumber = w: int | 0 <= w < 7

  datatype Rule = Rule(
    endMode: EndMode,
    frequency: Frequency,
    interval: int,
    monthMode: MonthMode,
    occurrenceCount: int,
    unit: Unit,
    untilDate: string,
    weekdays: seq<WeekdayNumber>
  )

  datatype Occurrence = Occurrence(startDate: string, endDate: string)

  datatype Fault =
    | InvalidStartOrEnd
    | EndBeforeStart
    | IntervalBelowOne
    | CountOutOfRange
    | InvalidUntil
    | UntilBeforeStart
    | NoWeekday
    | TooManyOccurrences

  datatype Validation = Fine | Rejected(fault: Fault)
  datatype GenerateResult = Ok(occurrences: seq<Occurrence>) | Error(fault: Fault)

  // ----- the string functions of the form ---------------------------------------------------

  /** Shifts the date of a parsed day by setUTCDate; an unreadable string is returned as it is. */
  function AddDays(date: string, days: int): string {
    match DateFromString(date)
    case Null => date
    case Date(n) =>
      var c := CivilOf(n);
      DateToString(Clip(MakeDay(c.year, c.month, c.date + days)))
  }

  /** The remainder operator of JavaScript, which takes the sign of its left operand. */
  function JsRemainder(a: int, b: int): int
    requires b > 0
  {
    if a >= 0 then a % b else -((-a) % b)
  }

  function AddMonths(date: string, months: int, mode: MonthMode): string {
    match DateFromString(date)
    case Null => date
    case Date(n) =>
      var c := CivilOf(n);
      var total := c.year * 12 + c.month + months;
      var targetYear, targetMonth := total / 12, JsRemainder(total, 12);
      match DateUtc(targetYear, targetMonth + 1, 0)
      case Invalid => DateToString(Invalid)
      case Day(last) =>
        var maxDay := CivilOf(last).date;
        var targetDay := if mode == LastDay || maxDay < c.date then maxDay else c.date;
        DateToString(DateUtc(targetYear, targetMonth, targetDay))
  }

  function DaysBetween(startDate: string, endDate: string): int {
    match (DateFromString(startDate), DateFromString(endDate))
    case (Date(a), Date(b)) => b - a
    case _ => 0
  }

  function WeekdayForDate(date: string): (w: int)
    ensures 0 <= w < 7
  {
    match DateFromString(date)
    case Null => 1
    case Date(n) => Weekday(n)
  }

  function AddStep(date: string, rule: Rule, step: int): string {
    match rule.frequency
    case Daily => AddDays(date, step)
    case Weekly => AddDays(date, step * 7)
    case Fortnightly => AddDays(date, step * 14)
    case Monthly => AddMonths(date, step, rule.monthMode)
    case Annually => AddMonths(date, step * 12, rule.monthMode)
    case Custom =>
      match rule.unit
      case DayUnit => AddDays(date, step * rule.interval)
      case WeekUnit => AddDays(date, step * rule.interval * 7)
      case MonthUnit => AddMonths(date, step * rule.interval, rule.monthMode)
      case YearUnit => AddMonths(date, step * rule.interval * 12, rule.monthMode)
  }

  function ValidationError(startDate: string, endDate: string, rule: Rule): Validation {
    if !(IsValidDateString(startDate) && IsValidDateString(endDate)) then Rejected(InvalidStartOrEnd)
    else if LexLess(endDate, startDate) then Rejected(EndBeforeStart)
    else if rule.interval <= 0 then Rejected(IntervalBelowOne)
    else if rule.endMode == Count && !(0 < rule.occurrenceCount <= MAX_RECURRENCE_OCCURRENCES) then
      Rejected(CountOutOfRange)
    else if rule.endMode == Until && !IsValidDateString(rule.untilDate) then Rejected(InvalidUntil)
    else if rule.endMode == Until && LexLess(rule.untilDate, startDate) then Rejected(UntilBeforeStart)
    else if rule.frequency == Custom && rule.unit == WeekUnit && rule.weekdays == [] then Rejected(NoWeekday)
    else Fine
  }

  function BuildOccurrence(startDate: string, durationDays: int): Occurrence {
    Occurrence(startDate, AddDays(startDate, durationDays))
  }

  predicate ShouldAddOccurrence(startDate: string, rule: Rule, currentCount: int) {
    if rule.endMode == Count then currentCount < rule.occurrenceCount else LexAtMost(startDate, rule.untilDate)
  }

  // ----- what the string functions mean in days ---------------------------------------------

  /** addDays adds to the day number. */
  lemma AddDaysShifts(date: string, days: int)
    requires DateFromString(date).Date?
    ensures AddDays(date, days) == DateToString(Clip(DateFromString(date).day + days))
  {
    hide DateFromString, CivilOf, DayFromYear, DaysBeforeMonth, DateToString;
    var c := CivilOf(DateFromString(date).day);
    assert c.month / 12 == 0 && c.month % 12 == c.month;
    assert MakeDay(c.year, c.month, c.date + days) == DayNumber(c) + days;
  }

  lemma AddDaysWithinYears(date: string, days: int)
    requires IsValidDateString(date) && FourDigitDay(DayOf(date) + days)
    ensures AddDays(date, days) == Printed(DayOf(date) + days)
    ensures IsValidDateString(AddDays(date, days)) && DayOf(AddDays(date, days)) == DayOf(date) + days
  {
    hide DateFromString, CivilOf, DateToString, AddDays;
    AddDaysShifts(date, days);
    FourDigitYears(DayOf(date) + days);
    ParsePrinted(DayOf(date) + days);
  }

  /** The printed form of any day: its year, then month and date with two digits each. */
  lemma PrintedParts(day: int)
    ensures var c := CivilOf(day);
            Printed(day) == IntString(c.year) + "-" + Digits(c.month + 1, 2) + "-" + Digits(c.date, 2)
  {
    hide DayFromYear, DaysBeforeMonth, YearOf, MonthOf, CivilOf, Digits;
    PadTwo(CivilOf(day).month + 1);
    PadTwo(CivilOf(day).date);
  }

  lemma PartsInjective(y: string, p: string, q: string, y': string, p': string, q': string)
    requires |p| == |q| == |p'| == |q'| == 2
    requires y + "-" + p + "-" + q == y' + "-" + p' + "-" + q'
    ensures y == y' && p == p' && q == q'
  {
    var s := y + "-" + p + "-" + q;
    assert |y| == |s| - 6 == |y'|;
    assert y == s[..|s| - 6] == y';
    assert p == s[|s| - 5..|s| - 3] == p';
    assert q == s[|s| - 2..] == q';
  }

  /** Days are told apart by their printed strings, whatever their year. */
  lemma PrintedInjective(a: int, b: int)
    requires Printed(a) == Printed(b)
    ensures a == b
  {
    hide DayFromYear, DaysBeforeMonth, YearOf, MonthOf, CivilOf, Digits, Printed, IntString, Value;
    var c, d := CivilOf(a), CivilOf(b);
    PrintedParts(a);
    PrintedParts(b);
    PartsInjective(IntString(c.year), Digits(c.month + 1, 2), Digits(c.date, 2),
                   IntString(d.year), Digits(d.month + 1, 2), Digits(d.date, 2));
    PowersOfTen();
    ValueOfDigits(c.month + 1, 2); ValueOfDigits(d.month + 1, 2);
    ValueOfDigits(c.date, 2); ValueOfDigits(d.date, 2);
    IntStringInjective(c.year, d.year);
    assert c == d;
  }

  lemma IntStringInjective(m: int, n: int)
    requires IntString(m) == IntString(n)
    ensures m == n
  {
    assert IsDigit(IntString(m)[0]) <==> m >= 0;
    assert IsDigit(IntString(n)[0]) <==> n >= 0;
    if m >= 0 && n >= 0 {
      DecimalInjective(m, n);
    } else if m < 0 && n < 0 {
      assert Decimal(-m) == IntString(m)[1..] == Decimal(-n);
      DecimalInjective(-m, -n);
    }
  }

  /** Adding days twice is adding them once, exactly when the string between can be read back. */
  lemma AddDaysComposes(date: string, a: int, b: int)
    requires IsValidDateString(date)
    requires Clip(DayOf(date) + a).Day? && Clip(DayOf(date) + a + b).Day?
    ensures AddDays(AddDays(date, a), b) == AddDays(date, a + b) <==> FourDigitDay(DayOf(date) + a) || b == 0
  {
    hide DateFromString, CivilOf, DateToString, AddDays, FourDigitDay;
    var n := DayOf(date);
    AddDaysShifts(date, a);
    AddDaysShifts(date, a + b);
    if FourDigitDay(n + a) {
      ParsePrinted(n + a);
      AddDaysShifts(Printed(n + a), b);
    } else {
      OutsideYearsUnreadable(n + a);
      KeepsUnreadable(Printed(n + a), b);
      if Printed(n + a) == Printed(n + a + b) {
        PrintedInjective(n + a, n + a + b);
      }
    }
  }

  lemma KeepsUnreadable(date: string, days: int)
    requires DateFromString(date) == Null
    ensures AddDays(date, days) == date
  {
  }

  /** A day outside years 1000 to 9999 prints a string that dateFromString refuses. */
  lemma OutsideYearsUnreadable(day: int)
    requires !FourDigitDay(day)
    ensures DateFromString(Printed(day)) == Null
  {
    hide DayFromYear, DaysBeforeMonth, YearOf, MonthOf, CivilOf, DateFromString, FourDigitDay, Digits, Value;
    if DateFromString(Printed(day)).Date? {
      var s := Printed(day);
      var n := DateFromString(s).day;
      ParseOnlyDates(s);
      FourDigitYears(day);
      var c := CivilOf(day);
      PadTwo(c.month + 1);
      PadTwo(c.date);
      var y := IntString(c.year);
      assert s == y + "-" + Digits(c.month + 1, 2) + "-" + Digits(c.date, 2);
      assert |y| == 4 && s[..4] == y;
      assert AllDigits(y) by { assert IsDatePattern(s); }
      assert IsDigit(y[0]);
      DecimalLength(c.year);
    }
  }

  lemma DecimalLength(n: nat)
    requires |Decimal(n)| == 4
    ensures 1000 <= n <= 9999
  {
    PowersOfTen();
    if 10 <= n < 100 {
      DecimalIsDigits(n, 2);
    } else if 100 <= n < 1000 {
      DecimalIsDigits(n, 3);
    } else if n >= 10000 {
      LongDecimal(n, 4);
    }
  }

  lemma {:induction false} LongDecimal(n: nat, width: nat)
    requires n >= Pow10(width)
    ensures |Decimal(n)| > width
  {
    if width > 0 {
      LongDecimal(n / 10, width - 1);
    }
  }

  /** daysBetween undoes addDays. */
  lemma DaysBetweenShifted(date: string, days: int)
    requires IsValidDateString(date) && FourDigitDay(DayOf(date) + days)
    ensures DaysBetween(date, AddDays(date, days)) == days
  {
    hide DateFromString, CivilOf, DateToString, AddDays;
    AddDaysWithinYears(date, days);
  }

  /** The calendar meaning of a month step: same date `months` later, pulled back to the month's end. */
  function MonthShift(day: int, months: int, mode: MonthMode): int {
    var c := CivilOf(day);
    var index := c.year * 12 + c.month + months;
    DayNumber(InMonth(index, c.date, mode))
  }

  function InMonth(index: int, date: int, mode: MonthMode): (c: Civil)
    requires date >= 1
    ensures IsDate(c) && c.year * 12 + c.month == index
    ensures c.date == MonthLength(c.year, c.month) || (mode == DayOfMonth && c.date == date < MonthLength(c.year, c.month))
  {
    var length := MonthLength(index / 12, index % 12);
    Civil(index / 12, index % 12, if mode == LastDay || length < date then length else date)
  }

  /** addMonths from a four-digit date that lands in a four-digit year is the calendar shift. */
  lemma AddMonthsShifts(date: string, months: int, mode: MonthMode)
    requires IsValidDateString(date) && FourDigitDay(MonthShift(DayOf(date), months, mode))
    ensures AddMonths(date, months, mode) == Printed(MonthShift(DayOf(date), months, mode))
  {
    hide DateFromString, DayFromYear, DaysBeforeMonth, YearOf, MonthOf, CivilOf, DateToString;
    var c := CivilOf(DayOf(date));
    var total := c.year * 12 + c.month + months;
    var target := InMonth(total, c.date, mode);
    var landing := DayNumber(target);
    FourDigitYears(landing);
    DayNumberOrder(CivilOf(landing), target);
    assert target.year == total / 12 >= 1000;
    assert JsRemainder(total, 12) == total % 12 == target.month;
    LandsInTime(target);
    DayZeroOfNextMonth(target.year, target.month);
    assert MakeDay(target.year, target.month, target.date) == landing;
  }

  lemma LandsInTime(c: Civil)
    requires IsDate(c) && 1000 <= c.year <= 9999
    ensures Clip(MakeDay(c.year, c.month + 1, 0)).Day?
    ensures MakeDay(c.year, c.month, c.date) == DayNumber(c)
  {
    hide DayFromYear, DaysBeforeMonth, YearOf, MonthOf, CivilOf;
    DateWithinYear(c);
    DayZeroOfNextMonth(c.year, c.month);
    var last := MakeDay(c.year, c.month + 1, 0);
    assert CivilOf(last).year == c.year;
    FourDigitYears(last);
  }

  /** Beyond year 9999 a month step prints a text that cannot be read back. */
  lemma AddMonthsBeyond(date: string, months: nat, mode: MonthMode)
    requires IsValidDateString(date) && MonthShift(DayOf(date), months, mode) > LAST_DAY
    ensures DateFromString(AddMonths(date, months, mode)) == Null
  {
    hide DateFromString, DayFromYear, DaysBeforeMonth, YearOf, MonthOf, CivilOf, DateToString, FourDigitDay;
    ValidExact(date);
    FourDigitYears(DayOf(date));
    var c := CivilOf(DayOf(date));
    var total := c.year * 12 + c.month + months;
    var target := InMonth(total, c.date, mode);
    var landing := DayNumber(target);
    assert target.year == total / 12 >= 1000;
    assert JsRemainder(total, 12) == total % 12 == target.month;
    DateWithinYear(target);
    DayZeroOfNextMonth(target.year, target.month);
    assert MakeDay(target.year, target.month, target.date) == landing;
    InvalidUnreadable();
    BeyondYears(landing);
    OutsideYearsUnreadable(landing);
  }

  lemma BeyondYears(day: int)
    requires day > LAST_DAY
    ensures !FourDigitDay(day)
  {
  }

  lemma InvalidUnreadable()
    ensures DateFromString(DateToString(Invalid)) == Null
  {
    hide CivilOf, YearOf, MonthOf, DaysBeforeMonth, Value;
  }

  /** Where a month step lands: the month is exact, the date clamps to the month and never drifts. */
  lemma MonthShiftLands(day: int, months: int, mode: MonthMode)
    ensures var a, c := CivilOf(day), CivilOf(MonthShift(day, months, mode));
            && c.year * 12 + c.month == a.year * 12 + a.month + months
            && (mode == LastDay ==> c.date == MonthLength(c.year, c.month))
            && (mode == DayOfMonth ==> c.date == (if a.date < MonthLength(c.year, c.month) then a.date else MonthLength(c.year, c.month)))
  {
    hide DayFromYear, DaysBeforeMonth, YearOf, MonthOf, CivilOf, IsLeap, DayNumber;
    var a := CivilOf(day);
    var target := InMonth(a.year * 12 + a.month + months, a.date, mode);
    DayNumberOrder(CivilOf(DayNumber(target)), target);
  }

  /** A series of month steps from one anchor strictly increases. */
  lemma MonthShiftIncreases(day: int, j: int, k: int, mode: MonthMode)
    requires j < k
    ensures MonthShift(day, j, mode) < MonthShift(day, k, mode)
  {
    hide DayFromYear, DaysBeforeMonth, YearOf, MonthOf, CivilOf, IsLeap, DayNumber;
    var c := CivilOf(day);
    var index := c.year * 12 + c.month;
    DayNumberIncreases(InMonth(index + j, c.date, mode), InMonth(index + k, c.date, mode));
  }

  lemma MonthShiftZero(day: int, mode: MonthMode)
    ensures MonthShift(day, 0, mode) >= day
    ensures mode == DayOfMonth ==> MonthShift(day, 0, mode) == day
  {
    hide DayFromYear, DaysBeforeMonth, YearOf, MonthOf, CivilOf, IsLeap, DayNumber;
    var c := CivilOf(day);
    var target := InMonth(c.year * 12 + c.month, c.date, mode);
    assert target.year == c.year && target.month == c.month && target.date >= c.date;
    if target != c {
      DayNumberIncreases(c, target);
    }
  }

  // ----- the series of candidate days -------------------------------------------------------

  datatype Period = Days(days: int) | Months(months: int)

  function RulePeriod(rule: Rule): Period {
    match rule.frequency
    case Daily => Days(1)
    case Weekly => Days(7)
    case Fortnightly => Days(14)
    case Monthly => Months(1)
    case Annually => Months(12)
    case Custom =>
      match rule.unit
      case DayUnit => Days(rule.interval)
      case WeekUnit => Days(rule.interval * 7)
      case MonthUnit => Months(rule.interval)
      case YearUnit => Months(rule.interval * 12)
  }

  /** The day of candidate number k of a rule that starts on day `start`. */
  function StepDay(start: int, rule: Rule, k: nat): int {
    match RulePeriod(rule)
    case Days(d) => start + k * d
    case Months(m) => MonthShift(start, k * m, rule.monthMode)
  }

  /** What the periods are: days, weeks of seven days, months and years of the calendar. */
  lemma PeriodMeaning(start: int, rule: Rule, k: nat)
    ensures var day := StepDay(start, rule, k);
            var a, c := CivilOf(start), CivilOf(day);
            match rule.frequency
            case Daily => day == start + k
            case Weekly => day == start + 7 * k
            case Fortnightly => day == start + 14 * k
            case Monthly => c.year * 12 + c.month == a.year * 12 + a.month + k
            case Annually => c.year == a.year + k && c.month == a.month
            case Custom =>
              match rule.unit
              case DayUnit => day == start + k * rule.interval
              case WeekUnit => day == start + 7 * (k * rule.interval)
              case MonthUnit => c.year * 12 + c.month == a.year * 12 + a.month + k * rule.interval
              case YearUnit => c.year == a.year + k * rule.interval && c.month == a.month
  {
    hide MonthShift, CivilOf;
    match RulePeriod(rule) {
      case Days(d) =>
        assert k * (rule.interval * 7) == 7 * (k * rule.interval);
      case Months(m) =>
        assert k * (rule.interval * 12) == 12 * (k * rule.interval);
        MonthShiftLands(start, k * m, rule.monthMode);
    }
  }

  lemma StepDayIncreases(start: int, rule: Rule, j: nat, k: nat)
    requires rule.interval >= 1 && j < k
    ensures StepDay(start, rule, j) < StepDay(start, rule, k)
  {
    hide MonthShift;
    var p := match RulePeriod(rule) case Days(d) => d case Months(m) => m;
    assert p >= 1;
    assert k * p == j * p + (k - j) * p && (k - j) * p >= 1;
    if RulePeriod(rule).Months? {
      MonthShiftIncreases(start, j * p, k * p, rule.monthMode);
    }
  }

  lemma StepDayFromStart(start: int, rule: Rule, k: nat)
    requires rule.interval >= 1
    ensures StepDay(start, rule, k) >= start + k
    decreases k
  {
    hide MonthShift;
    if k == 0 {
      MonthShiftZero(start, rule.monthMode);
    } else {
      StepDayFromStart(start, rule, k - 1);
      StepDayIncreases(start, rule, k - 1, k);
    }
  }

  /** addStep prints the candidate day while it stays within four-digit years. */
  lemma AddStepPrintsStepDay(date: string, rule: Rule, k: nat)
    requires IsValidDateString(date) && FourDigitDay(StepDay(DayOf(date), rule, k))
    ensures AddStep(date, rule, k) == Printed(StepDay(DayOf(date), rule, k))
  {
    hide MonthShift, AddDays, AddMonths, IsValidDateString, DateFromString, DayOf, DateToString, FourDigitDay;
    var n := DayOf(date);
    match RulePeriod(rule) {
      case Days(d) =>
        assert AddStep(date, rule, k) == AddDays(date, k * d) by {
          assert k * rule.interval * 7 == k * (rule.interval * 7);
        }
        AddDaysWithinYears(date, k * d);
      case Months(m) =>
        assert AddStep(date, rule, k) == AddMonths(date, k * m, rule.monthMode) by {
          assert k * rule.interval * 12 == k * (rule.interval * 12);
        }
        AddMonthsShifts(date, k * m, rule.monthMode);
    }
  }

  /** Exactly when a candidate can be read back: while its day is before year 10000. */
  lemma CandidateReadsBack(date: string, rule: Rule, k: nat)
    requires IsValidDateString(date) && rule.interval >= 1
    ensures DateFromString(AddStep(date, rule, k)).Date? <==> StepDay(DayOf(date), rule, k) <= LAST_DAY
    ensures StepDay(DayOf(date), rule, k) <= LAST_DAY ==> DayOf(AddStep(date, rule, k)) == StepDay(DayOf(date), rule, k)
  {
    hide MonthShift, AddDays, AddMonths, DateFromString, DateToString, FourDigitDay, CivilOf, AddStep, StepDay;
    var day := StepDay(DayOf(date), rule, k);
    ValidExact(date);
    StepDayFromStart(DayOf(date), rule, k);
    if day <= LAST_DAY {
      InYears(DayOf(date), day);
      AddStepPrintsStepDay(date, rule, k);
      ParsePrinted(day);
    } else {
      LateCandidate(date, rule, k);
    }
  }

  lemma InYears(start: int, day: int)
    requires FourDigitDay(start) && start <= day <= LAST_DAY
    ensures FourDigitDay(day)
  {
  }

  lemma LateCandidate(date: string, rule: Rule, k: nat)
    requires IsValidDateString(date) && rule.interval >= 1 && StepDay(DayOf(date), rule, k) > LAST_DAY
    ensures DateFromString(AddStep(date, rule, k)) == Null
  {
    hide MonthShift, AddDays, AddMonths, DateFromString, DateToString, FourDigitDay, CivilOf;
    match RulePeriod(rule) {
      case Days(d) =>
        assert AddStep(date, rule, k) == AddDays(date, k * d) by {
          assert k * rule.interval * 7 == k * (rule.interval * 7);
        }
        AddDaysShifts(date, k * d);
        BeyondYears(DayOf(date) + k * d);
        OutsideYearsUnreadable(DayOf(date) + k * d);
        InvalidUnreadable();
      case Months(m) =>
        assert AddStep(date, rule, k) == AddMonths(date, k * m, rule.monthMode) by {
          assert k * rule.interval * 12 == k * (rule.interval * 12);
        }
        AddMonthsBeyond(date, k * m, rule.monthMode);
    }
  }
}
