/** Custom weekly rules: every n-th Sunday-based week, on chosen weekdays. */
module WeeklyRecurrence {
  import opened Gregorian
  import opened Text
  import opened DateStrings
  import opened Recurrence

  // ----- the days a rule means ---------------------------------------------------------------

  /** The Sunday-based week of a day, numbered from the week of day 0. */
  function WeekNumber(day: int): int {
    (day + 4) / 7
  }

  /** A day the rule asks for: its weekday is chosen and its week is a multiple of the interval away. */
  predicate IsChosen(start: int, rule: Rule, day: int)
    requires rule.interval > 0
  {
    Weekday(day) in rule.weekdays && (WeekNumber(day) - WeekNumber(start)) % rule.interval == 0
  }

  /** The chosen days from start up to, but not including, `bound`, in order. */
  function DueDays(start: int, rule: Rule, bound: int): (days: seq<int>)
    requires rule.interval > 0
    decreases bound - start
  {
    if bound <= start then []
    else if IsChosen(start, rule, bound - 1) then DueDays(start, rule, bound - 1) + [bound - 1]
    else DueDays(start, rule, bound - 1)
  }

  ghost predicate StrictlyIncreasing(days: seq<int>) {
    forall i, j :: 0 <= i < j < |days| ==> days[i] < days[j]
  }

  /** DueDays lists each chosen day of its range once, in strictly increasing order. */
  lemma {:induction false} DueDaysExact(start: int, rule: Rule, bound: int)
    requires rule.interval > 0
    ensures StrictlyIncreasing(DueDays(start, rule, bound))
    ensures forall day :: day in DueDays(start, rule, bound) <==> start <= day < bound && IsChosen(start, rule, day)
    decreases bound - start
  {
    hide IsChosen;
    if bound > start {
      DueDaysExact(start, rule, bound - 1);
      var days := DueDays(start, rule, bound - 1);
      assert forall i :: 0 <= i < |days| ==> days[i] in days;
    }
  }

  /** A strictly increasing list is fixed by its elements, so DueDays is the only such list. */
  lemma {:induction false} IncreasingUnique(a: seq<int>, b: seq<int>)
    requires StrictlyIncreasing(a) && StrictlyIncreasing(b)
    requires forall x :: x in a <==> x in b
    ensures a == b
  {
    if a == [] {
      assert forall i :: 0 <= i < |b| ==> b[i] in b;
    } else {
      assert a[0] in a;
      assert b != [] && b[0] in b;
      assert a[0] == b[0];
      assert a == [a[0]] + a[1..] && b == [b[0]] + b[1..];
      forall x ensures x in a[1..] <==> x in b[1..] {
        assert x in a[1..] <==> x in a && x != a[0];
        assert x in b[1..] <==> x in b && x != b[0];
      }
      IncreasingUnique(a[1..], b[1..]);
    }
  }

  /** Only the order of the first occurrence of a weekday, or its repetition, changes: not the days. */
  lemma {:induction false} WeekdaysAsSet(start: int, rule: Rule, other: Rule, bound: int)
    requires rule.interval > 0 && other.interval == rule.interval
    requires forall w :: w in rule.weekdays <==> w in other.weekdays
    ensures DueDays(start, rule, bound) == DueDays(start, other, bound)
    decreases bound - start
  {
    if bound > start {
      WeekdaysAsSet(start, rule, other, bound - 1);
    }
  }

  lemma {:induction false} DueDaysExtend(start: int, rule: Rule, lo: int, hi: int)
    requires rule.interval > 0 && lo <= hi
    ensures DueDays(start, rule, lo) <= DueDays(start, rule, hi)
    decreases hi - lo
  {
    if lo < hi {
      DueDaysExtend(start, rule, lo, hi - 1);
    }
  }

  lemma {:induction false} NoneDueBetween(start: int, rule: Rule, lo: int, hi: int)
    requires rule.interval > 0 && lo <= hi
    requires forall day :: lo <= day < hi ==> !IsChosen(start, rule, day)
    ensures DueDays(start, rule, lo) == DueDays(start, rule, hi)
    decreases hi - lo
  {
    hide IsChosen;
    if lo < hi {
      NoneDueBetween(start, rule, lo, hi - 1);
    }
  }

  /** Weekday and week of a day given by its week's Sunday. */
  lemma DayOfWeek(sunday: int, w: int)
    requires Weekday(sunday) == 0 && 0 <= w < 7
    ensures Weekday(sunday + w) == w && WeekNumber(sunday + w) == WeekNumber(sunday)
  {
  }

  lemma SundayOf(day: int)
    ensures Weekday(day - Weekday(day)) == 0 && WeekNumber(day - Weekday(day)) == WeekNumber(day)
  {
  }

  lemma WeeksLater(sunday: int, weeks: int)
    requires Weekday(sunday) == 0
    ensures Weekday(sunday + 7 * weeks) == 0 && WeekNumber(sunday + 7 * weeks) == WeekNumber(sunday) + weeks
  {
  }

  lemma NotMultiple(n: int, offset: int, j: int)
    requires n > 0 && offset % n == 0 && 0 < j < n
    ensures (offset + j) % n != 0
  {
    RemainderIs(offset + j, n, offset / n, j);
  }

  lemma NextMultiple(n: int, offset: int)
    requires n > 0 && offset % n == 0
    ensures (offset + n) % n == 0
  {
    var q := offset / n;
    assert offset + n == n * (q + 1);
    assert (n * (q + 1)) % n == 0 by { MultipleIsZero(n, q + 1); }
  }

  lemma MultipleIsZero(n: int, q: int)
    requires n > 0
    ensures (n * q) % n == 0
  {
    var r := (n * q) % n;
    var k := (n * q) / n;
    assert n * q == n * k + r;
    assert r == n * (q - k);
    assert q - k >= 1 || q - k <= 0;
  }

  /** A chosen day, said without week numbers: on a chosen weekday, the two Sundays a multiple of the interval in
      weeks apart. */
  lemma ChosenMeaning(start: int, rule: Rule, day: int)
    requires rule.interval > 0
    ensures IsChosen(start, rule, day) <==>
              && Weekday(day) in rule.weekdays
              && ((day - Weekday(day)) - (start - Weekday(start))) % (7 * rule.interval) == 0
  {
    var weeks, n := WeekNumber(day) - WeekNumber(start), rule.interval;
    assert (day - Weekday(day)) - (start - Weekday(start)) == 7 * weeks;
    SevenTimes(weeks, n);
  }

  lemma SevenTimes(x: int, n: int)
    requires n > 0
    ensures (7 * x) % (7 * n) == 7 * (x % n)
  {
    var q, r := x / n, x % n;
    assert x == n * q + r;
    assert 7 * x == (7 * n) * q + 7 * r;
    RemainderIs(7 * x, 7 * n, q, 7 * r);
  }

  /** Which days of a selected week are chosen: exactly those on the chosen weekdays. */
  lemma ChosenInWeek(start: int, rule: Rule, offset: int, w: int)
    requires rule.interval > 0 && offset % rule.interval == 0 && 0 <= w < 7
    ensures IsChosen(start, rule, start - Weekday(start) + 7 * offset + w) <==> w in rule.weekdays
  {
    SundayOf(start);
    WeeksLater(start - Weekday(start), offset);
    DayOfWeek(start - Weekday(start) + 7 * offset, w);
  }

  /** No day of the weeks that an interval leaves out is chosen. */
  lemma SkippedWeeks(start: int, rule: Rule, offset: int)
    requires rule.interval > 0 && offset % rule.interval == 0
    ensures var sunday := start - Weekday(start) + 7 * offset;
            DueDays(start, rule, sunday + 7) == DueDays(start, rule, sunday + 7 * rule.interval)
  {
    var sunday := start - Weekday(start) + 7 * offset;
    forall day | sunday + 7 <= day < sunday + 7 * rule.interval
      ensures !IsChosen(start, rule, day)
    {
      var j, w := (day - sunday) / 7, (day - sunday) % 7;
      SundayOf(start);
      WeeksLater(start - Weekday(start), offset + j);
      DayOfWeek(sunday + 7 * j, w);
      NotMultiple(rule.interval, offset, j);
    }
    NoneDueBetween(start, rule, sunday + 7, sunday + 7 * rule.interval);
  }

  // ----- the generator -----------------------------------------------------------------------

  /** The distinct weekdays in increasing order. */
  function SortedWeekdays(weekdays: seq<WeekdayNumber>): (sorted: seq<int>)
    ensures StrictlyIncreasing(sorted)
    ensures forall w :: w in sorted ==> 0 <= w < 7
    ensures forall w :: w in sorted <==> w in weekdays
    ensures |sorted| > 0 <==> |weekdays| > 0
  {
    var sorted := WeekdaysBelow(weekdays, 7);
    assert weekdays != [] ==> weekdays[0] in sorted;
    assert sorted != [] ==> sorted[0] in weekdays;
    sorted
  }

  function WeekdaysBelow(weekdays: seq<WeekdayNumber>, bound: int): (sorted: seq<int>)
    requires 0 <= bound <= 7
    ensures StrictlyIncreasing(sorted)
    ensures forall w :: w in sorted <==> w in weekdays && w < bound
  {
    if bound == 0 then []
    else
      var below := WeekdaysBelow(weekdays, bound - 1);
      assert forall i :: 0 <= i < |below| ==> below[i] in below;
      if bound - 1 in weekdays then below + [bound - 1] else below
  }

  /** The rules generateRecurrenceOccurrences passes on after validating them. */
  predicate IsCheckedRule(startDate: string, rule: Rule) {
    && IsValidDateString(startDate)
    && rule.interval > 0
    && rule.weekdays != []
    && (rule.endMode == Count ==> 0 < rule.occurrenceCount <= MAX_RECURRENCE_OCCURRENCES)
    && (rule.endMode == Until ==> IsValidDateString(rule.untilDate) && LexAtMost(startDate, rule.untilDate))
  }

  /** How many due days end the search, whatever the end date. */
  function Target(rule: Rule): int {
    if rule.endMode == Count then rule.occurrenceCount else MAX_RECURRENCE_OCCURRENCES + 1
  }

  /** The Sunday of the start week. */
  function Anchor(startDate: string): int {
    DayOf(startDate) - Weekday(DayOf(startDate))
  }

  /** The first day that is not looked for: the day after the end date or after the last four-digit day. */
  function Limit(rule: Rule): int {
    if rule.endMode == Count then LAST_DAY + 1 else DayOf(rule.untilDate) + 1
  }

  /** The days the rule promises, of which a count rule takes the first ones. */
  function Due(startDate: string, rule: Rule): seq<int>
    requires rule.interval > 0
  {
    DueDays(DayOf(startDate), rule, Limit(rule))
  }

  /** The Sunday of the last selected week that begins by the end date. */
  function LastSunday(startDate: string, rule: Rule): int
    requires rule.interval > 0
  {
    DayOf(rule.untilDate) - (DayOf(rule.untilDate) - Anchor(startDate)) % (7 * rule.interval)
  }

  /** The text of a week's Sunday, which beyond year 9999 is no longer read back. */
  function WeekText(sunday: int): string {
    DateToString(Clip(sunday))
  }

  /** The text of the first selected week start, from `sunday` on, that does not sort before the start date. */
  function FirstWeekFrom(startDate: string, rule: Rule, sunday: int): string
    requires rule.interval > 0
    decreases if sunday > LAST_DAY_OF_TIME then 0 else LAST_DAY_OF_TIME + 1 - sunday
  {
    if sunday > LAST_DAY_OF_TIME || !LexLess(WeekText(sunday), startDate) then WeekText(sunday)
    else FirstWeekFrom(startDate, rule, sunday + 7 * rule.interval)
  }

  /** The search of an until rule adds nothing past its end date: it has passed the cap before; or its last week
      holds a later chosen day before year 10000; or no later day of that week is taken for one after the start
      date, and the first later week start taken for such a one also sorts after the end date. */
  predicate UntilSearchIsExact(startDate: string, rule: Rule)
    requires rule.interval > 0
  {
    var until, last := DayOf(rule.untilDate), LastSunday(startDate, rule);
    || |Due(startDate, rule)| > MAX_RECURRENCE_OCCURRENCES
    || (exists w :: w in rule.weekdays && until < last + w <= LAST_DAY)
    || ((forall w :: w in rule.weekdays && last + w > LAST_DAY ==> LexLess(Printed(last + w), startDate))
        && LexLess(rule.untilDate, FirstWeekFrom(startDate, rule, last + 7 * rule.interval)))
  }

  /** When a search whose start week begins in year 1000 or later finds what the rule promises. */
  predicate IsExactSearch(startDate: string, rule: Rule)
    requires rule.interval > 0
  {
    && FourDigitDay(Anchor(startDate))
    && if rule.endMode == Count then |Due(startDate, rule)| >= rule.occurrenceCount else UntilSearchIsExact(startDate, rule)
  }

  ghost predicate Lists(occurrences: seq<Occurrence>, days: seq<int>, durationDays: int) {
    && |occurrences| == |days|
    && forall i :: 0 <= i < |days| ==> occurrences[i] == BuildOccurrence(Printed(days[i]), durationDays)
  }

  /** The promised outcome: the first `occurrenceCount` due days, or all of them up to the end date. */
  ghost predicate IsExact(startDate: string, durationDays: int, rule: Rule, result: GenerateResult)
    requires rule.interval > 0
  {
    var due := Due(startDate, rule);
    if rule.endMode == Count then
      0 <= rule.occurrenceCount <= |due| && result.Ok? && Lists(result.occurrences, due[..rule.occurrenceCount], durationDays)
    else if |due| > MAX_RECURRENCE_OCCURRENCES then result == Error(TooManyOccurrences)
    else result.Ok? && Lists(result.occurrences, due, durationDays)
  }

  /** The string every step reads when the start week begins in year 999. */
  const LOST_ANCHOR := "999-12-29"

  function LostOutcome(durationDays: int, rule: Rule): GenerateResult {
    var lost := BuildOccurrence(LOST_ANCHOR, durationDays);
    if rule.endMode == Count then Ok(seq(if rule.occurrenceCount < 0 then 0 else rule.occurrenceCount, _ => lost))
    else if LexLess(rule.untilDate, LOST_ANCHOR) then Ok([])
    else Error(TooManyOccurrences)
  }

  lemma AnchorKept(startDate: string)
    requires IsValidDateString(startDate) && FourDigitDay(Anchor(startDate))
    ensures AddDays(startDate, -WeekdayForDate(startDate)) == Printed(Anchor(startDate))
  {
    hide DateFromString, CivilOf, DateToString, AddDays, YearOf, MonthOf, DaysBeforeMonth;
    AddDaysWithinYears(startDate, -Weekday(DayOf(startDate)));
  }

  /** The start week begins in year 999 for the four days from 1000-01-01 to 1000-01-04, and only then. */
  lemma AnchorBeforeYear1000(startDate: string)
    requires IsValidDateString(startDate)
    ensures !FourDigitDay(Anchor(startDate)) <==> DayOf(startDate) < FIRST_DAY + 4
    ensures !FourDigitDay(Anchor(startDate)) ==> Anchor(startDate) == FIRST_DAY - 3
  {
    hide DateFromString, CivilOf, DateToString, AddDays, YearOf, MonthOf, DaysBeforeMonth;
    ValidExact(startDate);
    FirstDayIsWednesday();
  }

  lemma AnchorLost(startDate: string)
    requires IsValidDateString(startDate) && !FourDigitDay(Anchor(startDate))
    ensures AddDays(startDate, -WeekdayForDate(startDate)) == LOST_ANCHOR
  {
    hide DateFromString, CivilOf, DateToString, AddDays, YearOf, MonthOf, DaysBeforeMonth;
    AnchorBeforeYear1000(startDate);
    AddDaysShifts(startDate, -Weekday(DayOf(startDate)));
    LostAnchor();
  }

  lemma FirstDayIsWednesday()
    ensures FIRST_DAY == -354285 && Weekday(FIRST_DAY) == 3
  {
  }

  lemma LostAnchor()
    ensures DateToString(Clip(FIRST_DAY - 3)) == LOST_ANCHOR
    ensures DateFromString(LOST_ANCHOR) == Null
  {
    hide DateFromString, YearOf, MonthOf, CivilOf, Value, Pow10, Decimal, PadZeros, IntString;
    FirstDayIsWednesday();
    var c := Civil(999, 11, 29);
    assert IsDate(c) && DayNumber(c) == FIRST_DAY - 3 by { YearTable(999); }
    DayNumberOrder(c, CivilOf(FIRST_DAY - 3));
    assert CivilOf(FIRST_DAY - 3) == c;
    assert Clip(FIRST_DAY - 3) == Day(FIRST_DAY - 3);
    LostAnchorString();
    LostAnchorUnreadable();
  }

  lemma LostAnchorUnreadable()
    ensures DateFromString(LOST_ANCHOR) == Null
  {
    hide YearOf, MonthOf, CivilOf, Value;
  }

  lemma LostAnchorString()
    ensures IntString(999) + "-" + PadZeros(Decimal(12), 2) + "-" + PadZeros(Decimal(29), 2) == LOST_ANCHOR
  {
    assert Decimal(999) == Decimal(99) + "9" == Decimal(9) + "9" + "9";
    assert Decimal(12) == Decimal(1) + "2";
    assert Decimal(29) == Decimal(2) + "9";
  }

  lemma StartsWithOne(startDate: string)
    requires IsValidDateString(startDate) && DayOf(startDate) < FIRST_DAY + 4
    ensures !LexLess(LOST_ANCHOR, startDate)
  {
    hide DateFromString, YearOf, MonthOf, DaysBeforeMonth, CivilOf, Value, Pow10;
    ValidExact(startDate);
    var day := DayOf(startDate);
    var c := CivilOf(day);
    FourDigitYears(day);
    DateWithinYear(c);
    if c.year > 1000 { YearsIncrease(1001, c.year); }
    YearStep(1000);
    assert c.year == 1000;
    PrintedIsWritten(day);
    assert Digits(1000, 4) == "1000" by { LeadingDigit(); }
    assert startDate[0] == '1';
  }

  lemma LeadingDigit()
    ensures Digits(1000, 4) == "1000"
  {
    assert Digits(1, 1) == Digits(0, 0) + "1";
    assert Digits(10, 2) == Digits(1, 1) + "0";
    assert Digits(100, 3) == Digits(10, 2) + "0";
    assert Digits(1000, 4) == Digits(100, 3) + "0";
  }

  // ----- what the loops compare --------------------------------------------------------------

  function Sunday(startDate: string, weekOffset: int): int {
    Anchor(startDate) + 7 * weekOffset
  }

  /** Comparing a printed four-digit day with a valid string compares the days. */
  lemma ComparesAsDay(day: int, date: string)
    requires FourDigitDay(day) && IsValidDateString(date)
    ensures LexLess(Printed(day), date) <==> day < DayOf(date)
    ensures LexLess(date, Printed(day)) <==> DayOf(date) < day
  {
    hide DateFromString, CivilOf, DateToString, YearOf, MonthOf, DaysBeforeMonth, LexLess;
    ParsePrinted(day);
    StringOrderIsDayOrder(Printed(day), date);
    StringOrderIsDayOrder(date, Printed(day));
  }

  /** What the outer loop reads as a week's first day. */
  lemma WeekStartMeaning(startDate: string, weekOffset: int)
    requires IsValidDateString(startDate) && FourDigitDay(Anchor(startDate))
    ensures AddDays(Printed(Anchor(startDate)), weekOffset * 7) == WeekText(Sunday(startDate, weekOffset))
  {
    hide DateFromString, CivilOf, DateToString, AddDays, YearOf, MonthOf, DaysBeforeMonth, FourDigitDay;
    ParsePrinted(Anchor(startDate));
    AddDaysShifts(Printed(Anchor(startDate)), weekOffset * 7);
  }

  /** What the inner loop reads as a candidate: its own text while the week start can be read, else that of
      the week start. */
  lemma CandidateMeaning(sunday: int, weekday: int)
    requires 0 <= weekday < 7 && sunday >= FIRST_DAY
    ensures sunday <= LAST_DAY ==> AddDays(WeekText(sunday), weekday) == Printed(sunday + weekday)
    ensures sunday > LAST_DAY ==> DateFromString(WeekText(sunday)) == Null && AddDays(WeekText(sunday), weekday) == WeekText(sunday)
  {
    hide DateFromString, CivilOf, DateToString, AddDays, YearOf, MonthOf, DaysBeforeMonth;
    LastDayInTime();
    if sunday <= LAST_DAY {
      ParsePrinted(sunday);
      AddDaysShifts(Printed(sunday), weekday);
    } else {
      if sunday <= LAST_DAY_OF_TIME { OutsideYearsUnreadable(sunday); } else { InvalidUnreadable(); }
      KeepsUnreadable(WeekText(sunday), weekday);
    }
  }

  lemma LastDayInTime()
    ensures -LAST_DAY_OF_TIME <= FIRST_DAY && LAST_DAY + 7 <= LAST_DAY_OF_TIME
  {
  }

  /** Past the end of time every week start reads NaN, and is later than any date. */
  lemma NotANumber(date: string)
    requires IsValidDateString(date)
    ensures var s := DateToString(Invalid);
            DateFromString(s) == Null && !LexLess(s, date) && LexLess(date, s)
  {
    hide CivilOf, YearOf, MonthOf, DaysBeforeMonth, Value;
    assert |date| == 10 && IsDigit(date[0]) by { assert AllDigits(date[..4]); assert date[0] == date[..4][0]; }
  }

  /** The lost anchor is read as no date, and is later than any start date it can come from. */
  lemma LostWeek(startDate: string, days: int)
    requires IsValidDateString(startDate) && !FourDigitDay(Anchor(startDate))
    ensures AddDays(LOST_ANCHOR, days) == LOST_ANCHOR
    ensures DateFromString(LOST_ANCHOR) == Null && !LexLess(LOST_ANCHOR, startDate)
  {
    hide CivilOf, DateToString, YearOf, MonthOf, DaysBeforeMonth;
    AnchorBeforeYear1000(startDate);
    LostAnchorUnreadable();
    StartsWithOne(startDate);
  }

  // ----- the generator loop ------------------------------------------------------------------

  /** Weeks left before the end of time, counted in days: the outer loop's measure. */
  ghost function TimeLeft(startDate: string, weekOffset: int): nat {
    var sunday := Sunday(startDate, weekOffset);
    if sunday > LAST_DAY_OF_TIME then 0 else LAST_DAY_OF_TIME + 1 - sunday
  }

  function Min(a: int, b: int): int {
    if a < b then a else b
  }

  /** The occurrences are the due days before `bound`. */
  ghost predicate Progress(startDate: string, durationDays: int, rule: Rule, bound: int, occurrences: seq<Occurrence>)
    requires rule.interval > 0
  {
    Lists(occurrences, DueDays(DayOf(startDate), rule, Min(bound, Limit(rule))), durationDays)
  }

  /** The search has added something past the end date, and cannot become exact any more. */
  ghost predicate Overshot(startDate: string, rule: Rule, occurrences: seq<Occurrence>)
    requires rule.interval > 0
  {
    rule.endMode == Until && |occurrences| > |Due(startDate, rule)| && !UntilSearchIsExact(startDate, rule)
  }

  /** What decides the rest of an until search that stands at a week start past the end date. */
  predicate Pending(startDate: string, rule: Rule, sunday: int)
    requires rule.interval > 0
  {
    |Due(startDate, rule)| > MAX_RECURRENCE_OCCURRENCES || LexLess(rule.untilDate, FirstWeekFrom(startDate, rule, sunday))
  }

  /** The outer invariant, before a week. */
  ghost predicate BeforeWeek(startDate: string, durationDays: int, rule: Rule, sunday: int, occurrences: seq<Occurrence>)
    requires rule.interval > 0
  {
    || Overshot(startDate, rule, occurrences)
    || (&& Progress(startDate, durationDays, rule, sunday, occurrences)
        && (rule.endMode == Until && sunday > DayOf(rule.untilDate) ==>
              (UntilSearchIsExact(startDate, rule) <==> Pending(startDate, rule, sunday))))
  }

  /** The days of this week past the end date that the search has skipped. */
  ghost predicate LateSkipped(startDate: string, rule: Rule, sunday: int, i: nat) {
    var weekdays := SortedWeekdays(rule.weekdays);
    forall j :: 0 <= j < i && j < |weekdays| && sunday + weekdays[j] > DayOf(rule.untilDate) ==>
      sunday + weekdays[j] > LAST_DAY && LexLess(Printed(sunday + weekdays[j]), startDate)
  }

  /** The inner invariant, before weekday number i. */
  ghost predicate InWeek(startDate: string, durationDays: int, rule: Rule, sunday: int, i: nat, occurrences: seq<Occurrence>)
    requires rule.interval > 0
  {
    || Overshot(startDate, rule, occurrences)
    || (&& Progress(startDate, durationDays, rule, sunday + NextWeekday(SortedWeekdays(rule.weekdays), i), occurrences)
        && (rule.endMode == Until ==>
              if sunday <= DayOf(rule.untilDate) then LateSkipped(startDate, rule, sunday, i)
              else
                && (UntilSearchIsExact(startDate, rule) <==> Pending(startDate, rule, sunday))
                && !LexLess(rule.untilDate, WeekText(sunday))
                && (i > 0 ==> LexLess(WeekText(sunday), startDate))))
  }

  /** A search for which the invariants are kept. */
  ghost predicate IsTracked(startDate: string, rule: Rule)
    requires rule.interval > 0
  {
    && FourDigitDay(Anchor(startDate))
    && (rule.endMode == Count ==> |Due(startDate, rule)| >= rule.occurrenceCount)
  }

  function NextWeekday(weekdays: seq<int>, i: nat): int {
    if i < |weekdays| then weekdays[i] else 7
  }

  /** Between two neighbouring chosen weekdays of a selected week nothing is due. */
  lemma BetweenWeekdays(start: int, rule: Rule, weekOffset: int, low: int, i: nat)
    requires rule.interval > 0 && weekOffset % rule.interval == 0
    requires i <= |SortedWeekdays(rule.weekdays)|
    requires low == if i == 0 then 0 else SortedWeekdays(rule.weekdays)[i - 1] + 1
    ensures var sunday := start - Weekday(start) + 7 * weekOffset;
            DueDays(start, rule, sunday + low)
            == DueDays(start, rule, sunday + NextWeekday(SortedWeekdays(rule.weekdays), i))
  {
    hide DueDays, IsChosen, Weekday;
    var weekdays := SortedWeekdays(rule.weekdays);
    var sunday, next := start - Weekday(start) + 7 * weekOffset, NextWeekday(weekdays, i);
    assert i < |weekdays| ==> weekdays[i] in weekdays;
    assert i > 0 ==> weekdays[i - 1] in weekdays;
    forall day | sunday + low <= day < sunday + next
      ensures !IsChosen(start, rule, day)
    {
      ChosenInWeek(start, rule, weekOffset, day - sunday);
      NotInGap(weekdays, low, i, day - sunday);
    }
    NoneDueBetween(start, rule, sunday + low, sunday + next);
  }

  lemma NotInGap(weekdays: seq<int>, low: int, i: nat, w: int)
    requires StrictlyIncreasing(weekdays) && i <= |weekdays|
    requires low == if i == 0 then 0 else weekdays[i - 1] + 1
    requires low <= w < NextWeekday(weekdays, i)
    ensures w !in weekdays
  {
    forall j | 0 <= j < |weekdays|
      ensures weekdays[j] != w
    {
      assert j < i - 1 ==> weekdays[j] < weekdays[i - 1];
      assert j > i ==> weekdays[i] < weekdays[j];
    }
  }

  lemma SameUpTo(start: int, rule: Rule, a: int, b: int, limit: int)
    requires rule.interval > 0 && a <= b && DueDays(start, rule, a) == DueDays(start, rule, b)
    ensures DueDays(start, rule, Min(a, limit)) == DueDays(start, rule, Min(b, limit))
  {
    hide DueDays;
    if a < limit < b {
      DueDaysExtend(start, rule, a, limit);
      DueDaysExtend(start, rule, limit, b);
    }
  }

  /** A count search that has not found enough stands inside four-digit years. */
  lemma CountStaysInside(startDate: string, durationDays: int, rule: Rule, bound: int, occurrences: seq<Occurrence>)
    requires rule.interval > 0 && rule.endMode == Count && IsTracked(startDate, rule)
    requires Progress(startDate, durationDays, rule, bound, occurrences) && |occurrences| < rule.occurrenceCount
    ensures bound <= LAST_DAY
  {
    hide DueDays, DateFromString;
  }

  /** The start and the end day of a checked until rule. */
  lemma UntilOrder(startDate: string, rule: Rule)
    requires IsCheckedRule(startDate, rule) && rule.endMode == Until
    ensures FourDigitDay(DayOf(startDate)) && FourDigitDay(DayOf(rule.untilDate)) && DayOf(startDate) <= DayOf(rule.untilDate)
  {
    hide DateFromString, LexLess, DateToString, CivilOf;
    ValidExact(startDate);
    ValidExact(rule.untilDate);
    StringOrderIsDayOrder(rule.untilDate, startDate);
  }

  lemma StartOfSearch(startDate: string, durationDays: int, rule: Rule)
    requires IsCheckedRule(startDate, rule)
    ensures BeforeWeek(startDate, durationDays, rule, Sunday(startDate, 0), [])
  {
    hide DateFromString, LexLess, DateToString, UntilSearchIsExact, Pending;
    if rule.endMode == Until {
      UntilOrder(startDate, rule);
    }
  }

  // ----- entering and leaving a week ---------------------------------------------------------

  lemma FirstWeekday(startDate: string, durationDays: int, rule: Rule, weekOffset: int, occurrences: seq<Occurrence>)
    requires IsCheckedRule(startDate, rule) && weekOffset % rule.interval == 0
    requires BeforeWeek(startDate, durationDays, rule, Sunday(startDate, weekOffset), occurrences)
    requires rule.endMode == Until ==> !LexLess(rule.untilDate, WeekText(Sunday(startDate, weekOffset)))
    ensures InWeek(startDate, durationDays, rule, Sunday(startDate, weekOffset), 0, occurrences)
  {
    hide DateFromString, LexLess, DateToString, DueDays, Lists, UntilSearchIsExact, Pending, Overshot;
    BetweenWeekdays(DayOf(startDate), rule, weekOffset, 0, 0);
    NextInWeek(rule, 0);
    var sunday := Sunday(startDate, weekOffset);
    SameUpTo(DayOf(startDate), rule, sunday, sunday + NextWeekday(SortedWeekdays(rule.weekdays), 0), Limit(rule));
  }

  /** The weekdays lie in the week and increase. */
  lemma NextInWeek(rule: Rule, i: nat)
    requires i <= |SortedWeekdays(rule.weekdays)|
    ensures var weekdays := SortedWeekdays(rule.weekdays);
            0 <= NextWeekday(weekdays, i) <= 7 && (i > 0 ==> weekdays[i - 1] + 1 <= NextWeekday(weekdays, i))
  {
    hide SortedWeekdays;
    var weekdays := SortedWeekdays(rule.weekdays);
    assert i < |weekdays| ==> weekdays[i] in weekdays;
    assert i > 0 ==> weekdays[i - 1] in weekdays;
  }

  lemma SundaysInYears(startDate: string, weekOffset: int)
    requires FourDigitDay(Anchor(startDate)) && weekOffset >= 0
    ensures Sunday(startDate, weekOffset) >= FIRST_DAY
  {
  }

  /** A week start that sorts after the end date ends the search: rightly exactly when it is exact. */
  lemma WeekPastEnd(startDate: string, durationDays: int, rule: Rule, weekOffset: int, occurrences: seq<Occurrence>)
    requires IsCheckedRule(startDate, rule) && rule.endMode == Until && FourDigitDay(Anchor(startDate)) && weekOffset >= 0
    requires BeforeWeek(startDate, durationDays, rule, Sunday(startDate, weekOffset), occurrences)
    requires |occurrences| < Target(rule)
    requires LexLess(rule.untilDate, WeekText(Sunday(startDate, weekOffset)))
    ensures IsExact(startDate, durationDays, rule, Ok(occurrences)) <==> UntilSearchIsExact(startDate, rule)
  {
    hide DateFromString, LexLess, DateToString, DueDays, UntilSearchIsExact, CivilOf;
    var sunday := Sunday(startDate, weekOffset);
    SundaysInYears(startDate, weekOffset);
    UntilOrder(startDate, rule);
    LastDayInTime();
    if sunday <= DayOf(rule.untilDate) {
      ComparesAsDay(sunday, rule.untilDate);
    }
    SortsAfterStart(startDate, rule, WeekText(sunday));
  }

  /** What sorts after the end date does not sort before the start date. */
  lemma SortsAfterStart(startDate: string, rule: Rule, text: string)
    requires IsCheckedRule(startDate, rule) && rule.endMode == Until && LexLess(rule.untilDate, text)
    ensures !LexLess(text, startDate)
  {
    hide DateFromString, LexLess, DateToString;
    if LexLess(text, startDate) {
      LexTransitive(rule.untilDate, text, startDate);
    }
  }

  lemma WeekDone(startDate: string, durationDays: int, rule: Rule, weekOffset: int, occurrences: seq<Occurrence>)
    requires IsCheckedRule(startDate, rule) && weekOffset % rule.interval == 0
    requires InWeek(startDate, durationDays, rule, Sunday(startDate, weekOffset), |SortedWeekdays(rule.weekdays)|, occurrences)
    ensures BeforeWeek(startDate, durationDays, rule, Sunday(startDate, weekOffset + rule.interval), occurrences)
  {
    hide DateFromString, LexLess, DateToString, DueDays, Lists, UntilSearchIsExact, SortedWeekdays, Pending, Due, LateSkipped, Anchor;
    var sunday, next := Sunday(startDate, weekOffset), Sunday(startDate, weekOffset + rule.interval);
    assert next == sunday + 7 * rule.interval;
    if !Overshot(startDate, rule, occurrences) {
      SkippedWeeks(DayOf(startDate), rule, weekOffset);
      AnchorIsSunday(startDate, weekOffset);
      SameUpTo(DayOf(startDate), rule, sunday + 7, next, Limit(rule));
      if rule.endMode == Until && sunday <= DayOf(rule.untilDate) < next {
        LastWeekDone(startDate, rule, weekOffset);
      } else if rule.endMode == Until && DayOf(rule.untilDate) < sunday {
        LaterWeekDone(startDate, rule, sunday);
      }
    }
  }

  lemma AnchorIsSunday(startDate: string, weekOffset: int)
    ensures Sunday(startDate, weekOffset) == DayOf(startDate) - Weekday(DayOf(startDate)) + 7 * weekOffset
  {
  }

  lemma LaterWeekDone(startDate: string, rule: Rule, sunday: int)
    requires IsCheckedRule(startDate, rule) && LexLess(WeekText(sunday), startDate)
    ensures Pending(startDate, rule, sunday) <==> Pending(startDate, rule, sunday + 7 * rule.interval)
  {
    hide DateFromString, LexLess, DateToString, Due;
    if sunday > LAST_DAY_OF_TIME { NotANumber(startDate); }
  }

  lemma LastWeekDone(startDate: string, rule: Rule, weekOffset: int)
    requires IsCheckedRule(startDate, rule) && rule.endMode == Until && weekOffset % rule.interval == 0
    requires Sunday(startDate, weekOffset) <= DayOf(rule.untilDate) < Sunday(startDate, weekOffset) + 7 * rule.interval
    requires LateSkipped(startDate, rule, Sunday(startDate, weekOffset), |SortedWeekdays(rule.weekdays)|)
    ensures UntilSearchIsExact(startDate, rule) <==>
              Pending(startDate, rule, Sunday(startDate, weekOffset) + 7 * rule.interval)
  {
    hide DateFromString, LexLess, DateToString, Due, SortedWeekdays, FirstWeekFrom, LastSunday;
    var sunday, weekdays := Sunday(startDate, weekOffset), SortedWeekdays(rule.weekdays);
    LastSundayIs(startDate, rule, weekOffset);
    UntilOrder(startDate, rule);
    forall w | w in rule.weekdays && sunday + w > DayOf(rule.untilDate)
      ensures sunday + w > LAST_DAY && LexLess(Printed(sunday + w), startDate)
    {
      assert w in weekdays;
      var j :| 0 <= j < |weekdays| && weekdays[j] == w;
    }
  }

  lemma LastSundayIs(startDate: string, rule: Rule, weekOffset: int)
    requires rule.interval > 0 && weekOffset % rule.interval == 0
    requires Sunday(startDate, weekOffset) <= DayOf(rule.untilDate) < Sunday(startDate, weekOffset) + 7 * rule.interval
    ensures LastSunday(startDate, rule) == Sunday(startDate, weekOffset)
  {
    hide DateFromString, Anchor;
    var n, q := rule.interval, weekOffset / rule.interval;
    var r := DayOf(rule.untilDate) - Sunday(startDate, weekOffset);
    assert weekOffset == n * q;
    assert 7 * (n * q) == (7 * n) * q;
    RemainderIs(DayOf(rule.untilDate) - Anchor(startDate), 7 * n, q, r);
  }

  lemma Apart(m: int, p: int, q: int)
    requires m > 0 && p > q
    ensures m * p >= m * q + m
  {
    assert m * p == m * q + m * (p - q);
    assert m * (p - q) >= m by {
      assert m * (p - q - 1) >= 0;
    }
  }

  lemma RemainderIs(x: int, m: int, q: int, r: int)
    requires m > 0 && x == m * q + r && 0 <= r < m
    ensures x % m == r
  {
    var k := x / m;
    assert x == m * k + x % m;
    if q > k {
      Apart(m, q, k);
    } else if q < k {
      Apart(m, k, q);
    }
  }

  // ----- one candidate -----------------------------------------------------------------------

  /** What the loop knows of a candidate before it compares it. */
  ghost predicate AtCandidate(startDate: string, durationDays: int, rule: Rule, weekOffset: int, i: nat,
                              candidate: string, occurrences: seq<Occurrence>)
  {
    && IsCheckedRule(startDate, rule) && IsTracked(startDate, rule)
    && weekOffset >= 0 && weekOffset % rule.interval == 0
    && i < |SortedWeekdays(rule.weekdays)| && |occurrences| < Target(rule)
    && candidate == AddDays(WeekText(Sunday(startDate, weekOffset)), SortedWeekdays(rule.weekdays)[i])
    && InWeek(startDate, durationDays, rule, Sunday(startDate, weekOffset), i, occurrences)
  }

  /** The candidate on or before the last day looked for: its text is its day's. */
  ghost predicate IsEarly(startDate: string, rule: Rule, weekOffset: int, i: nat)
    requires i < |SortedWeekdays(rule.weekdays)|
  {
    Sunday(startDate, weekOffset) + SortedWeekdays(rule.weekdays)[i] < Limit(rule)
  }

  lemma EarlyCandidate(startDate: string, durationDays: int, rule: Rule, weekOffset: int, i: nat,
                       candidate: string, occurrences: seq<Occurrence>)
    requires AtCandidate(startDate, durationDays, rule, weekOffset, i, candidate, occurrences)
    requires IsEarly(startDate, rule, weekOffset, i)
    ensures var day := Sunday(startDate, weekOffset) + SortedWeekdays(rule.weekdays)[i];
            && candidate == Printed(day) && (LexLess(candidate, startDate) <==> day < DayOf(startDate))
            && (rule.endMode == Until ==> !LexLess(rule.untilDate, candidate))
  {
    hide DateFromString, LexLess, DateToString, AddDays, DueDays, SortedWeekdays, InWeek, CivilOf, Anchor;
    var sunday, weekday := Sunday(startDate, weekOffset), SortedWeekdays(rule.weekdays)[i];
    assert weekday in SortedWeekdays(rule.weekdays);
    SundaysInYears(startDate, weekOffset);
    if rule.endMode == Until { UntilOrder(startDate, rule); }
    CandidateMeaning(sunday, weekday);
    ComparesAsDay(sunday + weekday, startDate);
    if rule.endMode == Until { ComparesAsDay(sunday + weekday, rule.untilDate); }
  }

  /** A count search only meets early candidates. */
  lemma CountIsEarly(startDate: string, durationDays: int, rule: Rule, weekOffset: int, i: nat,
                     candidate: string, occurrences: seq<Occurrence>)
    requires AtCandidate(startDate, durationDays, rule, weekOffset, i, candidate, occurrences) && rule.endMode == Count
    ensures IsEarly(startDate, rule, weekOffset, i)
  {
    hide DateFromString, LexLess, DateToString, AddDays, SortedWeekdays, Progress, Anchor, FourDigitDay;
    var day := Sunday(startDate, weekOffset) + SortedWeekdays(rule.weekdays)[i];
    CountStaysInside(startDate, durationDays, rule, day, occurrences);
  }

  /** A later candidate of the last week: it prints its day, and beyond year 9999 sorts before the end date. */
  lemma LateInLastWeek(startDate: string, rule: Rule, weekOffset: int, weekday: int)
    requires IsCheckedRule(startDate, rule) && rule.endMode == Until && FourDigitDay(Anchor(startDate)) && weekOffset >= 0
    requires 0 <= weekday < 7
    requires Sunday(startDate, weekOffset) <= DayOf(rule.untilDate) < Sunday(startDate, weekOffset) + weekday
    ensures var sunday := Sunday(startDate, weekOffset);
            && AddDays(WeekText(sunday), weekday) == Printed(sunday + weekday)
            && (sunday + weekday <= LAST_DAY <==> LexLess(rule.untilDate, Printed(sunday + weekday)))
            && (sunday + weekday <= LAST_DAY ==> !LexLess(Printed(sunday + weekday), startDate))
  {
    hide DateFromString, LexLess, DateToString, AddDays, CivilOf, Anchor;
    var sunday := Sunday(startDate, weekOffset);
    SundaysInYears(startDate, weekOffset);
    UntilOrder(startDate, rule);
    CandidateMeaning(sunday, weekday);
    if sunday + weekday <= LAST_DAY {
      ComparesAsDay(sunday + weekday, rule.untilDate);
      ComparesAsDay(sunday + weekday, startDate);
    } else {
      ValidExact(rule.untilDate);
      Year10000SortsFirst(DayOf(rule.untilDate), sunday + weekday);
    }
  }

  /** The first days of year 10000 sort before the last days of year 9999. */
  lemma Year10000SortsFirst(day: int, late: int)
    requires LAST_DAY - 7 <= day <= LAST_DAY < late <= LAST_DAY + 7
    ensures !LexLess(Printed(day), Printed(late))
  {
    hide CivilOf, YearOf, MonthOf, DaysBeforeMonth, Digits, Decimal;
    YearOfDay(day, 9999);
    YearOfDay(late, 10000);
    FirstDigitOfYears();
    assert Printed(day)[0] == '9' && Printed(late)[0] == '1';
  }

  lemma YearOfDay(day: int, year: int)
    requires DayFromYear(year) <= day < DayFromYear(year + 1)
    ensures CivilOf(day).year == year
  {
    hide CivilOf, DayFromYear, DaysBeforeMonth;
    var c := CivilOf(day);
    DateWithinYear(c);
    if c.year < year { YearsIncrease(c.year + 1, year); }
    if year < c.year { YearsIncrease(year + 1, c.year); }
  }

  lemma FirstDigitOfYears()
    ensures Decimal(9999)[0] == '9' && Decimal(10000)[0] == '1'
  {
    PowersOfTen();
    assert Decimal(999) == Decimal(99) + "9" && Decimal(99) == Decimal(9) + "9";
    assert Decimal(9999) == Decimal(999) + "9";
    assert Decimal(1000) == Decimal(100) + "0" && Decimal(100) == Decimal(10) + "0" && Decimal(10) == Decimal(1) + "0";
    assert Decimal(10000) == Decimal(1000) + "0";
  }

  lemma CandidateSkipped(startDate: string, durationDays: int, rule: Rule, weekOffset: int, i: nat,
                         candidate: string, occurrences: seq<Occurrence>)
    requires AtCandidate(startDate, durationDays, rule, weekOffset, i, candidate, occurrences)
    requires LexLess(candidate, startDate)
    ensures InWeek(startDate, durationDays, rule, Sunday(startDate, weekOffset), i + 1, occurrences)
  {
    hide DateFromString, LexLess, DateToString, Lists, IsChosen, AddDays, SortedWeekdays, UntilSearchIsExact, Pending, Due, Anchor, CivilOf;
    var sunday, weekday := Sunday(startDate, weekOffset), SortedWeekdays(rule.weekdays)[i];
    assert weekday in SortedWeekdays(rule.weekdays);
    NextInWeek(rule, i + 1);
    if !Overshot(startDate, rule, occurrences) {
      if IsEarly(startDate, rule, weekOffset, i) {
        EarlyCandidate(startDate, durationDays, rule, weekOffset, i, candidate, occurrences);
        EarlySkipped(startDate, durationDays, rule, weekOffset, i, occurrences);
      } else {
        if rule.endMode == Count { CountIsEarly(startDate, durationDays, rule, weekOffset, i, candidate, occurrences); }
        SundaysInYears(startDate, weekOffset);
        if sunday <= DayOf(rule.untilDate) {
          LateInLastWeek(startDate, rule, weekOffset, weekday);
        } else {
          LaterWeekUnreadable(startDate, rule, weekOffset);
          CandidateMeaning(sunday, weekday);
        }
      }
    }
  }

  lemma EarlySkipped(startDate: string, durationDays: int, rule: Rule, weekOffset: int, i: nat, occurrences: seq<Occurrence>)
    requires IsCheckedRule(startDate, rule) && weekOffset % rule.interval == 0 && i < |SortedWeekdays(rule.weekdays)|
    requires var day := Sunday(startDate, weekOffset) + SortedWeekdays(rule.weekdays)[i];
             day < DayOf(startDate) && Progress(startDate, durationDays, rule, day, occurrences)
    ensures Progress(startDate, durationDays, rule,
                     Sunday(startDate, weekOffset) + NextWeekday(SortedWeekdays(rule.weekdays), i + 1), occurrences)
  {
    hide DateFromString, LexLess, DateToString, Lists, IsChosen, SortedWeekdays;
    var sunday, weekday := Sunday(startDate, weekOffset), SortedWeekdays(rule.weekdays)[i];
    NextInWeek(rule, i + 1);
    BetweenWeekdays(DayOf(startDate), rule, weekOffset, weekday + 1, i + 1);
    assert DueDays(DayOf(startDate), rule, sunday + weekday) == DueDays(DayOf(startDate), rule, sunday + weekday + 1) == [];
    SameUpTo(DayOf(startDate), rule, sunday + weekday, sunday + NextWeekday(SortedWeekdays(rule.weekdays), i + 1), Limit(rule));
  }

  /** A week start past the end date that does not sort after it lies beyond year 9999. */
  lemma LaterWeekUnreadable(startDate: string, rule: Rule, weekOffset: int)
    requires IsCheckedRule(startDate, rule) && rule.endMode == Until && FourDigitDay(Anchor(startDate)) && weekOffset >= 0
    requires DayOf(rule.untilDate) < Sunday(startDate, weekOffset)
    requires !LexLess(rule.untilDate, WeekText(Sunday(startDate, weekOffset)))
    ensures Sunday(startDate, weekOffset) > LAST_DAY
  {
    hide DateFromString, LexLess, DateToString, CivilOf, Anchor;
    SundaysInYears(startDate, weekOffset);
    LastDayInTime();
    if Sunday(startDate, weekOffset) <= LAST_DAY {
      ComparesAsDay(Sunday(startDate, weekOffset), rule.untilDate);
    }
  }

  /** A candidate that does not sort before the start but sorts after the end date ends the search. */
  lemma CandidatePastEnd(startDate: string, durationDays: int, rule: Rule, weekOffset: int, i: nat,
                         candidate: string, occurrences: seq<Occurrence>)
    requires AtCandidate(startDate, durationDays, rule, weekOffset, i, candidate, occurrences)
    requires rule.endMode == Until && LexLess(rule.untilDate, candidate)
    ensures IsExact(startDate, durationDays, rule, Ok(occurrences)) <==> UntilSearchIsExact(startDate, rule)
  {
    hide DateFromString, LexLess, DateToString, AddDays, SortedWeekdays, DueDays, LastSunday, FirstWeekFrom, Anchor, CivilOf;
    var sunday, weekday := Sunday(startDate, weekOffset), SortedWeekdays(rule.weekdays)[i];
    assert weekday in SortedWeekdays(rule.weekdays);
    if !Overshot(startDate, rule, occurrences) {
      SundaysInYears(startDate, weekOffset);
      if IsEarly(startDate, rule, weekOffset, i) {
        EarlyCandidate(startDate, durationDays, rule, weekOffset, i, candidate, occurrences);
      } else if sunday <= DayOf(rule.untilDate) {
        LateInLastWeek(startDate, rule, weekOffset, weekday);
        IntervalWeeks(rule);
        LastSundayIs(startDate, rule, weekOffset);
        assert weekday in rule.weekdays && DayOf(rule.untilDate) < LastSunday(startDate, rule) + weekday <= LAST_DAY;
      } else {
        LaterWeekUnreadable(startDate, rule, weekOffset);
        CandidateMeaning(sunday, weekday);
      }
    }
  }

  lemma IntervalWeeks(rule: Rule)
    requires rule.interval > 0
    ensures 7 * rule.interval >= 7
  {
  }

  lemma CandidateAdded(startDate: string, durationDays: int, rule: Rule, weekOffset: int, i: nat,
                       candidate: string, before: seq<Occurrence>, occurrences: seq<Occurrence>)
    requires AtCandidate(startDate, durationDays, rule, weekOffset, i, candidate, before)
    requires !LexLess(candidate, startDate) && (rule.endMode == Until ==> !LexLess(rule.untilDate, candidate))
    requires occurrences == before + [BuildOccurrence(candidate, durationDays)]
    ensures InWeek(startDate, durationDays, rule, Sunday(startDate, weekOffset), i + 1, occurrences)
    ensures || Overshot(startDate, rule, occurrences)
            || (IsEarly(startDate, rule, weekOffset, i)
                && Progress(startDate, durationDays, rule,
                            Sunday(startDate, weekOffset) + SortedWeekdays(rule.weekdays)[i] + 1, occurrences))
  {
    hide DateFromString, LexLess, DateToString, AddDays, SortedWeekdays, Anchor, CivilOf, BuildOccurrence;
    hide UntilSearchIsExact, Pending, Progress, Due;
    var sunday, weekday := Sunday(startDate, weekOffset), SortedWeekdays(rule.weekdays)[i];
    assert weekday in SortedWeekdays(rule.weekdays);
    if !Overshot(startDate, rule, before) {
      if IsEarly(startDate, rule, weekOffset, i) {
        EarlyCandidate(startDate, durationDays, rule, weekOffset, i, candidate, before);
        EarlyAdded(startDate, durationDays, rule, weekOffset, i, before, occurrences);
      } else {
        if rule.endMode == Count { CountIsEarly(startDate, durationDays, rule, weekOffset, i, candidate, before); }
        LateAdded(startDate, durationDays, rule, weekOffset, i, candidate, before);
      }
    }
  }

  lemma EarlyAdded(startDate: string, durationDays: int, rule: Rule, weekOffset: int, i: nat,
                   before: seq<Occurrence>, occurrences: seq<Occurrence>)
    requires IsCheckedRule(startDate, rule) && weekOffset % rule.interval == 0 && i < |SortedWeekdays(rule.weekdays)|
    requires IsEarly(startDate, rule, weekOffset, i)
    requires var day := Sunday(startDate, weekOffset) + SortedWeekdays(rule.weekdays)[i];
             && DayOf(startDate) <= day && Progress(startDate, durationDays, rule, day, before)
             && occurrences == before + [BuildOccurrence(Printed(day), durationDays)]
    ensures var sunday, weekdays := Sunday(startDate, weekOffset), SortedWeekdays(rule.weekdays);
            && Progress(startDate, durationDays, rule, sunday + weekdays[i] + 1, occurrences)
            && Progress(startDate, durationDays, rule, sunday + NextWeekday(weekdays, i + 1), occurrences)
  {
    hide DateFromString, LexLess, DateToString, IsChosen, BuildOccurrence, SortedWeekdays, Weekday;
    var start, sunday, weekday := DayOf(startDate), Sunday(startDate, weekOffset), SortedWeekdays(rule.weekdays)[i];
    var day := sunday + weekday;
    assert weekday in SortedWeekdays(rule.weekdays);
    ChosenInWeek(start, rule, weekOffset, weekday);
    assert DueDays(start, rule, day + 1) == DueDays(start, rule, day) + [day];
    BetweenWeekdays(start, rule, weekOffset, weekday + 1, i + 1);
    NextInWeek(rule, i + 1);
    SameUpTo(start, rule, day + 1, sunday + NextWeekday(SortedWeekdays(rule.weekdays), i + 1), Limit(rule));
  }

  /** What is added past the end date is never right. */
  lemma LateAdded(startDate: string, durationDays: int, rule: Rule, weekOffset: int, i: nat,
                  candidate: string, before: seq<Occurrence>)
    requires AtCandidate(startDate, durationDays, rule, weekOffset, i, candidate, before)
    requires rule.endMode == Until && !IsEarly(startDate, rule, weekOffset, i) && !Overshot(startDate, rule, before)
    requires !LexLess(candidate, startDate) && !LexLess(rule.untilDate, candidate)
    ensures |before| == |Due(startDate, rule)| && !UntilSearchIsExact(startDate, rule)
  {
    hide DateFromString, LexLess, DateToString, AddDays, SortedWeekdays, DueDays, LastSunday, Anchor, CivilOf;
    var sunday, weekdays := Sunday(startDate, weekOffset), SortedWeekdays(rule.weekdays);
    var weekday := weekdays[i];
    assert weekday in weekdays;
    SundaysInYears(startDate, weekOffset);
    if sunday <= DayOf(rule.untilDate) {
      LateInLastWeek(startDate, rule, weekOffset, weekday);
      IntervalWeeks(rule);
      LastSundayIs(startDate, rule, weekOffset);
      forall w | w in rule.weekdays && DayOf(rule.untilDate) < sunday + w
        ensures sunday + w > LAST_DAY
      {
        assert w in weekdays;
        var j :| 0 <= j < |weekdays| && weekdays[j] == w;
        assert j > i ==> weekdays[i] < weekdays[j];
      }
    } else {
      LaterWeekUnreadable(startDate, rule, weekOffset);
      CandidateMeaning(sunday, weekday);
    }
  }

  lemma CountReached(startDate: string, durationDays: int, rule: Rule, bound: int, occurrences: seq<Occurrence>)
    requires IsCheckedRule(startDate, rule) && rule.endMode == Count && IsTracked(startDate, rule)
    requires Progress(startDate, durationDays, rule, bound, occurrences)
    requires bound <= LAST_DAY + 1 && |occurrences| == rule.occurrenceCount
    ensures IsExact(startDate, durationDays, rule, Ok(occurrences))
  {
    hide DateFromString, LexLess, DateToString, DueDays;
    DueDaysExtend(DayOf(startDate), rule, bound, LAST_DAY + 1);
  }

  lemma TooMany(startDate: string, durationDays: int, rule: Rule, bound: int, occurrences: seq<Occurrence>)
    requires IsCheckedRule(startDate, rule) && rule.endMode == Until
    requires Overshot(startDate, rule, occurrences) || Progress(startDate, durationDays, rule, bound, occurrences)
    requires |occurrences| == MAX_RECURRENCE_OCCURRENCES + 1
    ensures IsExact(startDate, durationDays, rule, Error(TooManyOccurrences)) <==> UntilSearchIsExact(startDate, rule)
  {
    hide DateFromString, LexLess, DateToString, DueDays, LastSunday, FirstWeekFrom;
    if !Overshot(startDate, rule, occurrences) {
      DueDaysExtend(DayOf(startDate), rule, Min(bound, Limit(rule)), Limit(rule));
    }
  }

  lemma TimePasses(startDate: string, weekOffset: int, interval: int)
    requires interval > 0
    ensures var left, next := TimeLeft(startDate, weekOffset), TimeLeft(startDate, weekOffset + interval);
            next < left || next == left == 0
    ensures TimeLeft(startDate, weekOffset) == 0 <==> Sunday(startDate, weekOffset) > LAST_DAY_OF_TIME
  {
  }

  lemma AllLost(durationDays: int, rule: Rule, occurrences: seq<Occurrence>)
    requires AllAre(occurrences, BuildOccurrence(LOST_ANCHOR, durationDays))
    requires rule.endMode == Count && |occurrences| == rule.occurrenceCount
    ensures Ok(occurrences) == LostOutcome(durationDays, rule)
  {
    hide LOST_ANCHOR, BuildOccurrence;
  }

  ghost predicate AllAre(occurrences: seq<Occurrence>, one: Occurrence) {
    forall i :: 0 <= i < |occurrences| ==> occurrences[i] == one
  }

  /** A search that was not tracked: a count rule without enough due days before year 10000. */
  lemma Untracked(startDate: string, durationDays: int, rule: Rule, result: GenerateResult)
    requires rule.interval > 0 && FourDigitDay(Anchor(startDate)) && !IsTracked(startDate, rule)
    ensures !IsExact(startDate, durationDays, rule, result) && !IsExactSearch(startDate, rule)
  {
    hide DateFromString, DueDays;
  }

  /** What ends a tracked search decides alike whether the result and the search are exact. */
  lemma Verdict(startDate: string, durationDays: int, rule: Rule, result: GenerateResult)
    requires rule.interval > 0 && IsTracked(startDate, rule)
    requires rule.endMode == Count ==> IsExact(startDate, durationDays, rule, result)
    requires rule.endMode == Until ==> (IsExact(startDate, durationDays, rule, result) <==> UntilSearchIsExact(startDate, rule))
    ensures IsExact(startDate, durationDays, rule, result) <==> IsExactSearch(startDate, rule)
  {
    hide DateFromString, DueDays, IsExact, UntilSearchIsExact;
  }

  lemma TrackedMeans(startDate: string, rule: Rule)
    requires rule.interval > 0
    ensures IsTracked(startDate, rule) ==> FourDigitDay(Anchor(startDate))
    ensures rule.endMode == Until && FourDigitDay(Anchor(startDate)) ==> IsTracked(startDate, rule)
  {
  }

  lemma Collect(startDate: string, durationDays: int, rule: Rule, weekOffset: int, i: nat, candidate: string, occurrences: seq<Occurrence>)
    requires IsCheckedRule(startDate, rule) && IsTracked(startDate, rule)
    requires weekOffset >= 0 && weekOffset % rule.interval == 0
    requires i < |SortedWeekdays(rule.weekdays)| && |occurrences| < Target(rule)
    requires candidate == AddDays(WeekText(Sunday(startDate, weekOffset)), SortedWeekdays(rule.weekdays)[i])
    requires InWeek(startDate, durationDays, rule, Sunday(startDate, weekOffset), i, occurrences)
    ensures AtCandidate(startDate, durationDays, rule, weekOffset, i, candidate, occurrences)
  {
  }

  /** What the loops read when the search cannot go on by days: the lost anchor, or no number. */
  lemma StuckWeek(startDate: string, rule: Rule, weekOffset: int, weekStart: string, weekday: int)
    requires IsValidDateString(startDate) && weekOffset >= 0 && 0 <= weekday < 7
    requires weekStart == if FourDigitDay(Anchor(startDate)) then WeekText(Sunday(startDate, weekOffset)) else LOST_ANCHOR
    requires !FourDigitDay(Anchor(startDate)) || Sunday(startDate, weekOffset) > LAST_DAY_OF_TIME
    ensures AddDays(weekStart, weekday) == weekStart && !LexLess(weekStart, startDate)
  {
    hide DateFromString, LexLess, DateToString, AddDays, LOST_ANCHOR;
    if FourDigitDay(Anchor(startDate)) {
      NotANumber(startDate);
      KeepsUnreadable(weekStart, weekday);
    } else {
      LostWeek(startDate, weekday);
    }
  }

  /** Generates the ranges of a custom weekly rule; see IsExact for what is promised. */
  method GenerateWeeklyCustomOccurrences(startDate: string, durationDays: int, rule: Rule)
    returns (result: GenerateResult)
    requires IsCheckedRule(startDate, rule)
    ensures FourDigitDay(Anchor(startDate)) ==>
              (IsExact(startDate, durationDays, rule, result) <==> IsExactSearch(startDate, rule))
    ensures !FourDigitDay(Anchor(startDate)) ==> result == LostOutcome(durationDays, rule)
    ensures result.Ok? ==> HaveDuration(result.occurrences, durationDays)
  {
    hide DueDays, DateFromString, LexLess, DateToString, AddDays, FourDigitDay, WeekdayForDate, SortedWeekdays;
    hide IsExact, IsExactSearch, IsValidDateString, BuildOccurrence, TimeLeft, Anchor, Sunday, LOST_ANCHOR;
    hide BeforeWeek, InWeek, AtCandidate, Overshot, Progress, IsTracked, UntilSearchIsExact, WeekText, IsEarly;
    ghost var inside, tracked := FourDigitDay(Anchor(startDate)), IsTracked(startDate, rule);
    TrackedMeans(startDate, rule);
    ghost var lostOne := BuildOccurrence(LOST_ANCHOR, durationDays);
    var occurrences: seq<Occurrence> := [];
    var anchorWeekStart := AddDays(startDate, -WeekdayForDate(startDate));
    if inside { AnchorKept(startDate); } else { AnchorLost(startDate); }
    if inside && !tracked {
      forall r ensures !IsExact(startDate, durationDays, rule, r) && !IsExactSearch(startDate, rule) {
        Untracked(startDate, durationDays, rule, r);
      }
    }
    var weekdays := SortedWeekdays(rule.weekdays);
    var weekOffset := 0;
    StartOfSearch(startDate, durationDays, rule);

    while true
      invariant weekOffset >= 0 && weekOffset % rule.interval == 0
      invariant |occurrences| < Target(rule) && HaveDuration(occurrences, durationDays)
      invariant tracked ==> BeforeWeek(startDate, durationDays, rule, Sunday(startDate, weekOffset), occurrences)
      invariant !inside ==> AllAre(occurrences, lostOne)
      invariant !inside && rule.endMode == Until && LexLess(rule.untilDate, LOST_ANCHOR) ==> occurrences == []
      decreases TimeLeft(startDate, weekOffset), 52 - |occurrences|
    {
      ghost var sunday := Sunday(startDate, weekOffset);
      ghost var stuck := !inside || TimeLeft(startDate, weekOffset) == 0;
      TimePasses(startDate, weekOffset, rule.interval);
      ghost var before := |occurrences|;
      var weekStart := AddDays(anchorWeekStart, weekOffset * 7);
      if inside { WeekStartMeaning(startDate, weekOffset); } else { LostWeek(startDate, weekOffset * 7); }

      if rule.endMode == Until && LexLess(rule.untilDate, weekStart) {
        if tracked {
          WeekPastEnd(startDate, durationDays, rule, weekOffset, occurrences);
          Verdict(startDate, durationDays, rule, Ok(occurrences));
        }
        break;
      }

      var i := 0;
      if tracked { FirstWeekday(startDate, durationDays, rule, weekOffset, occurrences); }
      while i < |weekdays|
        invariant 0 <= i <= |weekdays|
        invariant |occurrences| < Target(rule) && HaveDuration(occurrences, durationDays)
        invariant |occurrences| >= before && (stuck ==> |occurrences| == before + i)
        invariant tracked ==> InWeek(startDate, durationDays, rule, sunday, i, occurrences)
        invariant !inside ==> AllAre(occurrences, lostOne)
      {
        var weekday := weekdays[i];
        assert weekday in weekdays;
        var candidate := AddDays(weekStart, weekday);
        if stuck { StuckWeek(startDate, rule, weekOffset, weekStart, weekday); }
        if tracked { Collect(startDate, durationDays, rule, weekOffset, i, candidate, occurrences); }
        i := i + 1;
        if LexLess(candidate, startDate) {
          if tracked { CandidateSkipped(startDate, durationDays, rule, weekOffset, i - 1, candidate, occurrences); }
          continue;
        }
        if !ShouldAddOccurrence(candidate, rule, |occurrences|) {
          if tracked {
            CandidatePastEnd(startDate, durationDays, rule, weekOffset, i - 1, candidate, occurrences);
            Verdict(startDate, durationDays, rule, Ok(occurrences));
          }
          return Ok(occurrences);
        }

        ghost var shorter := occurrences;
        occurrences := occurrences + [BuildOccurrence(candidate, durationDays)];
        OneMore(shorter, candidate, durationDays);
        if tracked { CandidateAdded(startDate, durationDays, rule, weekOffset, i - 1, candidate, shorter, occurrences); }

        if |occurrences| > MAX_RECURRENCE_OCCURRENCES {
          if tracked {
            TooMany(startDate, durationDays, rule, sunday + weekday + 1, occurrences);
            Verdict(startDate, durationDays, rule, Error(TooManyOccurrences));
          }
          return Error(TooManyOccurrences);
        }
        if rule.endMode == Count && |occurrences| >= rule.occurrenceCount {
          if tracked {
            CountBound(startDate, rule, weekOffset, i - 1, occurrences);
            CountReached(startDate, durationDays, rule, sunday + weekday + 1, occurrences);
            Verdict(startDate, durationDays, rule, Ok(occurrences));
          }
          if !inside { AllLost(durationDays, rule, occurrences); }
          return Ok(occurrences);
        }
      }

      if tracked { WeekDone(startDate, durationDays, rule, weekOffset, occurrences); }
      NextMultiple(rule.interval, weekOffset);
      weekOffset := weekOffset + rule.interval;
    }
    return Ok(occurrences);
  }

  lemma CountBound(startDate: string, rule: Rule, weekOffset: int, i: nat, occurrences: seq<Occurrence>)
    requires rule.interval > 0 && rule.endMode == Count && i < |SortedWeekdays(rule.weekdays)|
    ensures !Overshot(startDate, rule, occurrences)
    ensures IsEarly(startDate, rule, weekOffset, i) ==>
              Sunday(startDate, weekOffset) + SortedWeekdays(rule.weekdays)[i] + 1 <= LAST_DAY + 1
  {
  }

  /** Every range lasts the same number of days, as far as its end can be printed. */
  ghost predicate HaveDuration(occurrences: seq<Occurrence>, durationDays: int) {
    forall k :: 0 <= k < |occurrences| ==> occurrences[k] == BuildOccurrence(occurrences[k].startDate, durationDays)
  }

  lemma OneMore(occurrences: seq<Occurrence>, startDate: string, durationDays: int)
    requires HaveDuration(occurrences, durationDays)
    ensures HaveDuration(occurrences + [BuildOccurrence(startDate, durationDays)], durationDays)
  {
    hide AddDays;
  }

  /** From 1000-01-01 to 1000-01-04 a count rule is never expanded as promised, and an until rule only
      when nothing is due before an end date that sorts below "999-12-29", or more than 50 days are due. */
  lemma LostSearchExactness(startDate: string, durationDays: int, rule: Rule)
    requires IsCheckedRule(startDate, rule) && !FourDigitDay(Anchor(startDate))
    ensures IsExact(startDate, durationDays, rule, LostOutcome(durationDays, rule)) <==>
              rule.endMode == Until &&
              (var due := Due(startDate, rule);
               if LexLess(rule.untilDate, LOST_ANCHOR) then due == [] else |due| > MAX_RECURRENCE_OCCURRENCES)
  {
    hide DateFromString, LexLess, DateToString, AddDays, IsChosen, LOST_ANCHOR;
    if rule.endMode == Count {
      var due := DueDays(DayOf(startDate), rule, LAST_DAY + 1);
      if IsExact(startDate, durationDays, rule, LostOutcome(durationDays, rule)) {
        DueDaysExact(DayOf(startDate), rule, LAST_DAY + 1);
        assert due[0] in due && due[..rule.occurrenceCount][0] == due[0];
        assert LostOutcome(durationDays, rule).occurrences[0].startDate == Printed(due[0]);
        ValidExact(startDate);
        ParsePrinted(due[0]);
        LostAnchorUnreadable();
      }
    }
  }

  /** An until rule is expanded as promised whenever its first selected week past the end date begins before
      year 10000. */
  lemma UntilSearchWithinYears(startDate: string, rule: Rule)
    requires IsCheckedRule(startDate, rule) && rule.endMode == Until && FourDigitDay(Anchor(startDate))
    requires LastSunday(startDate, rule) + 7 * rule.interval <= LAST_DAY
    ensures IsExactSearch(startDate, rule)
  {
    hide DateFromString, LexLess, DateToString, DueDays, CivilOf, Anchor;
    var next := LastSunday(startDate, rule) + 7 * rule.interval;
    UntilOrder(startDate, rule);
    LastDayInTime();
    assert DayOf(rule.untilDate) < next;
    ComparesAsDay(next, rule.untilDate);
    SortsAfterStart(startDate, rule, WeekText(next));
  }

  // ----- an until rule that lists a day past its end -----------------------------------------

  const EARLY_START := DayNumber(Civil(1200, 0, 1))
  const EARLY_END := DayNumber(Civil(1300, 11, 31))
  const LATE_SUNDAY := DayNumber(Civil(12507, 6, 17))

  function LongIntervalRule(): Rule {
    Rule(Until, Custom, 590_000, DayOfMonth, 1, WeekUnit, Printed(EARLY_END), [1])
  }

  lemma EarlyDays()
    ensures EARLY_START == -281237 && EARLY_END == -244348 && LATE_SUNDAY == -281243 + 7 * 590_000
    ensures FourDigitDay(EARLY_START) && FourDigitDay(EARLY_END) && LATE_SUNDAY <= LAST_DAY_OF_TIME
  {
    YearTable(1200);
    YearTable(1300);
    YearTable(12507);
  }

  /** The start week has one day left, a Saturday. */
  lemma SaturdayOnly(start: int, rule: Rule)
    requires rule.interval > 0 && Weekday(start) == 6 && rule.weekdays == [1]
    ensures DueDays(start, rule, start + 1) == []
  {
    assert DueDays(start, rule, start) == [];
  }

  lemma LateText()
    ensures WeekText(LATE_SUNDAY) == "12507-07-17"
  {
    hide DayNumber, CivilOf, Decimal, Digits;
    EarlyDays();
    YearTable(12507);
    var c := Civil(12507, 6, 17);
    DayNumberOrder(c, CivilOf(DayNumber(c)));
    PrintedParts(DayNumber(c));
    EarlyYears();
    SevenAndSeventeen();
  }

  lemma SevenAndSeventeen()
    ensures Digits(7, 2) == "07" && Digits(17, 2) == "17"
  {
    assert Digits(0, 1) == Digits(0, 0) + "0" && Digits(1, 1) == Digits(0, 0) + "1";
    assert Digits(7, 2) == Digits(0, 1) + "7" && Digits(17, 2) == Digits(1, 1) + "7";
  }

  /** The years of the three days, as their texts begin. */
  lemma EarlyTexts()
    ensures var start, end, late := Printed(EARLY_START), Printed(EARLY_END), WeekText(LATE_SUNDAY);
            !LexLess(late, start) && !LexLess(end, late) && !LexLess(end, start)
  {
    hide CivilOf, YearOf, MonthOf, DaysBeforeMonth, Digits, Decimal, LexLess, DayNumber;
    EarlyDays();
    YearTable(12507);
    PrintedYear(Civil(1200, 0, 1));
    PrintedYear(Civil(1300, 11, 31));
    PrintedYear(Civil(12507, 6, 17));
    EarlyYears();
    var start, end, late := Printed(EARLY_START), Printed(EARLY_END), WeekText(LATE_SUNDAY);
    assert start[0] == Decimal(1200)[0] && start[1] == Decimal(1200)[1] && start[2] == Decimal(1200)[2];
    assert end[0] == Decimal(1300)[0] && end[1] == Decimal(1300)[1];
    assert late[0] == Decimal(12507)[0] && late[1] == Decimal(12507)[1] && late[2] == Decimal(12507)[2];
    SecondDecides(end, late);
    SecondDecides(end, start);
    ThirdDecides(late, start);
  }

  lemma PrintedYear(c: Civil)
    requires IsDate(c) && c.year >= 0
    ensures var s := Printed(DayNumber(c)); Decimal(c.year) <= s
  {
    hide DayNumber, Digits, Decimal, CivilOf;
    DayNumberOrder(c, CivilOf(DayNumber(c)));
    PrintedParts(DayNumber(c));
  }

  lemma EarlyYears()
    ensures Decimal(1200) == "1200" && Decimal(1300) == "1300" && Decimal(12507) == "12507"
  {
    assert Decimal(12) == Decimal(1) + "2" && Decimal(13) == Decimal(1) + "3";
    assert Decimal(120) == Decimal(12) + "0" && Decimal(130) == Decimal(13) + "0" && Decimal(125) == Decimal(12) + "5";
    assert Decimal(1200) == Decimal(120) + "0" && Decimal(1300) == Decimal(130) + "0" && Decimal(1250) == Decimal(125) + "0";
    assert Decimal(12507) == Decimal(1250) + "7";
  }

  lemma SecondDecides(a: string, b: string)
    requires |a| >= 2 && |b| >= 2 && a[0] == b[0] && a[1] > b[1]
    ensures !LexLess(a, b)
  {
    assert LexLess(a, b) == LexLess(a[1..], b[1..]);
  }

  lemma ThirdDecides(a: string, b: string)
    requires |a| >= 3 && |b| >= 3 && a[0] == b[0] && a[1] == b[1] && a[2] > b[2]
    ensures !LexLess(a, b)
  {
    assert LexLess(a, b) == LexLess(a[1..], b[1..]);
    SecondDecides(a[1..], b[1..]);
  }

  /** From 1200-01-01 to 1300-12-31, every 590000 weeks on Mondays: no day is due, but the next week start,
      "12507-07-17", sorts between the two and is listed. */
  lemma LongIntervalFails()
    ensures var startDate, rule := Printed(EARLY_START), LongIntervalRule();
            && IsCheckedRule(startDate, rule) && FourDigitDay(Anchor(startDate)) && !IsExactSearch(startDate, rule)
            && Due(startDate, rule) == []
            && FirstWeekFrom(startDate, rule, LastSunday(startDate, rule) + 7 * rule.interval) == "12507-07-17"
  {
    hide DateFromString, LexLess, DateToString, CivilOf, DueDays, DayNumber;
    var startDate, rule := Printed(EARLY_START), LongIntervalRule();
    EarlyDays();
    ParsePrinted(EARLY_START);
    ParsePrinted(EARLY_END);
    EarlyTexts();
    FirstDayIsWednesday();
    assert Anchor(startDate) == -281243;
    assert LastSunday(startDate, rule) == -281243;
    SkippedWeeks(EARLY_START, rule, 0);
    DueDaysExtend(EARLY_START, rule, -281243 + 7, EARLY_END + 1);
    DueDaysExtend(EARLY_START, rule, EARLY_END + 1, LATE_SUNDAY);
    SaturdayOnly(EARLY_START, rule);
    assert Due(startDate, rule) == [];
    LateText();
  }

  /** A count rule is expanded as promised only if its start week begins in year 1000 or later and its last
      due day comes before year 10000. */
  lemma CountExactOnlyInside(startDate: string, durationDays: int, rule: Rule, result: GenerateResult)
    requires IsCheckedRule(startDate, rule) && rule.endMode == Count
    requires !FourDigitDay(Anchor(startDate)) ==> result == LostOutcome(durationDays, rule)
    requires IsExact(startDate, durationDays, rule, result)
    ensures IsExactSearch(startDate, rule)
  {
    hide DateFromString, LexLess, DateToString, AddDays, DueDays, LostOutcome, FourDigitDay;
    if !FourDigitDay(Anchor(startDate)) {
      LostSearchExactness(startDate, durationDays, rule);
    }
  }
}
