/** generateRecurrenceOccurrences: validation, the step loop of every rule that is not a custom
    weekly one, and what its result means in days. */
module RecurrenceGenerator {
  import opened Gregorian
  import opened Text
  import opened DateStrings
  import opened Recurrence
  import opened WeeklyRecurrence

  function StepOccurrence(startDate: string, durationDays: int, rule: Rule, k: nat): Occurrence {
    BuildOccurrence(AddStep(startDate, rule, k), durationDays)
  }

  /** What the step loop returns, told by the strings it compares. */
  ghost predicate IsStepExpansion(startDate: string, durationDays: int, rule: Rule, result: GenerateResult) {
    match result
    case Ok(occurrences) =>
      && |occurrences| <= MAX_RECURRENCE_OCCURRENCES
      && (forall k: nat :: k < |occurrences| ==> occurrences[k] == StepOccurrence(startDate, durationDays, rule, k))
      && (rule.endMode == Count ==> |occurrences| == rule.occurrenceCount)
      && (rule.endMode == Until ==>
            && (forall k: nat :: k < |occurrences| ==> LexAtMost(AddStep(startDate, rule, k), rule.untilDate))
            && LexLess(rule.untilDate, AddStep(startDate, rule, |occurrences|)))
    case Error(fault) =>
      && fault == TooManyOccurrences && rule.endMode == Until
      && (forall k: nat :: k <= MAX_RECURRENCE_OCCURRENCES ==> LexAtMost(AddStep(startDate, rule, k), rule.untilDate))
  }

  /** Expands a recurrence rule into date ranges. */
  method GenerateRecurrenceOccurrences(startDate: string, endDate: string, rule: Rule) returns (result: GenerateResult)
    ensures var validation := ValidationError(startDate, endDate, rule);
            if validation.Rejected? then result == Error(validation.fault)
            else if rule.frequency == Custom && rule.unit == WeekUnit then
              && (rule.endMode == Count || FourDigitDay(Anchor(startDate)) ==>
                    (IsExact(startDate, DaysBetween(startDate, endDate), rule, result) <==> IsExactSearch(startDate, rule)))
              && (!FourDigitDay(Anchor(startDate)) ==>
                    result == LostOutcome(DaysBetween(startDate, endDate), rule))
            else IsStepExpansion(startDate, DaysBetween(startDate, endDate), rule, result)
    ensures result.Ok? ==> HaveDuration(result.occurrences, DaysBetween(startDate, endDate))
  {
    hide IsValidDateString, LexLess, AddStep, BuildOccurrence, DaysBetween, IsExactSearch, IsExact, LostOutcome, Anchor, FourDigitDay;
    hide HaveDuration, DueDays, SortedWeekdays, CivilOf;
    var validation := ValidationError(startDate, endDate, rule);
    if validation.Rejected? {
      return Error(validation.fault);
    }
    var durationDays := DaysBetween(startDate, endDate);
    if rule.frequency == Custom && rule.unit == WeekUnit {
      result := GenerateWeeklyCustomOccurrences(startDate, durationDays, rule);
      if rule.endMode == Count && IsExact(startDate, durationDays, rule, result) {
        CountExactOnlyInside(startDate, durationDays, rule, result);
      }
      if IsExactSearch(startDate, rule) { SearchIsInside(startDate, rule); }
      return;
    }

    var occurrences: seq<Occurrence> := [];
    NoneYet(durationDays);
    var step := 0;
    while true
      invariant step == |occurrences| <= MAX_RECURRENCE_OCCURRENCES && HaveDuration(occurrences, durationDays)
      invariant rule.endMode == Count ==> step < rule.occurrenceCount
      invariant forall k: nat :: k < step ==> occurrences[k] == StepOccurrence(startDate, durationDays, rule, k)
      invariant rule.endMode == Until ==>
                  forall k: nat :: k < step ==> LexAtMost(AddStep(startDate, rule, k), rule.untilDate)
      decreases MAX_RECURRENCE_OCCURRENCES + 1 - step
    {
      var candidate := AddStep(startDate, rule, step);
      if !ShouldAddOccurrence(candidate, rule, |occurrences|) {
        break;
      }
      OneMore(occurrences, candidate, durationDays);
      occurrences := occurrences + [BuildOccurrence(candidate, durationDays)];
      if |occurrences| > MAX_RECURRENCE_OCCURRENCES {
        return Error(TooManyOccurrences);
      }
      if rule.endMode == Count && |occurrences| >= rule.occurrenceCount {
        break;
      }
      step := step + 1;
    }
    return Ok(occurrences);
  }

  lemma NoneYet(durationDays: int)
    ensures HaveDuration([], durationDays)
  {
  }

  lemma SearchIsInside(startDate: string, rule: Rule)
    requires rule.interval > 0 && IsExactSearch(startDate, rule)
    ensures FourDigitDay(Anchor(startDate))
  {
  }

  /** Validation accepts exactly the requests that make sense in days. */
  lemma ValidationMeaning(startDate: string, endDate: string, rule: Rule)
    ensures ValidationError(startDate, endDate, rule) == Fine <==>
              && IsValidDateString(startDate) && IsValidDateString(endDate) && DayOf(startDate) <= DayOf(endDate)
              && rule.interval >= 1
              && (rule.endMode == Count ==> 1 <= rule.occurrenceCount <= 50)
              && (rule.endMode == Until ==> IsValidDateString(rule.untilDate) && DayOf(startDate) <= DayOf(rule.untilDate))
              && (rule.frequency == Custom && rule.unit == WeekUnit ==> exists w :: w in rule.weekdays)
  {
    hide IsValidDateString, LexLess, DayOf;
    if IsValidDateString(startDate) {
      if IsValidDateString(endDate) { StringOrderIsDayOrder(endDate, startDate); }
      if IsValidDateString(rule.untilDate) { StringOrderIsDayOrder(rule.untilDate, startDate); }
    }
    if rule.weekdays != [] { assert rule.weekdays[0] in rule.weekdays; }
  }

  /** Which fault is returned, in days: the first of these that holds. */
  lemma FaultMeaning(startDate: string, endDate: string, rule: Rule)
    ensures ValidationError(startDate, endDate, rule) ==
              if !IsValidDateString(startDate) || !IsValidDateString(endDate) then Rejected(InvalidStartOrEnd)
              else if DayOf(endDate) < DayOf(startDate) then Rejected(EndBeforeStart)
              else if rule.interval < 1 then Rejected(IntervalBelowOne)
              else if rule.endMode == Count && (rule.occurrenceCount < 1 || rule.occurrenceCount > 50) then Rejected(CountOutOfRange)
              else if rule.endMode == Until && !IsValidDateString(rule.untilDate) then Rejected(InvalidUntil)
              else if rule.endMode == Until && DayOf(rule.untilDate) < DayOf(startDate) then Rejected(UntilBeforeStart)
              else if rule.frequency == Custom && rule.unit == WeekUnit && |rule.weekdays| == 0 then Rejected(NoWeekday)
              else Fine
  {
    hide IsValidDateString, LexLess, DayOf;
    if IsValidDateString(startDate) {
      if IsValidDateString(endDate) { StringOrderIsDayOrder(endDate, startDate); }
      if IsValidDateString(rule.untilDate) { StringOrderIsDayOrder(rule.untilDate, startDate); }
    }
  }

  // ----- the result in days ------------------------------------------------------------------

  /** The first candidate past the end day, counted from candidate k. */
  ghost function FirstPast(start: int, rule: Rule, until: int, k: nat): (n: nat)
    requires rule.interval >= 1
    requires forall j: nat :: j < k ==> StepDay(start, rule, j) <= until
    ensures forall j: nat :: StepDay(start, rule, j) <= until <==> j < n
    decreases until - start - k
  {
    StepDayFromStart(start, rule, k);
    if StepDay(start, rule, k) <= until then FirstPast(start, rule, until, k + 1)
    else
      assert forall j: nat :: StepDay(start, rule, j) <= until <==> j < k by {
        forall j: nat | k < j ensures StepDay(start, rule, j) > until {
          StepDayIncreases(start, rule, k, j);
        }
      }
      k
  }

  /** Rules that reach the step loop. */
  predicate IsCheckedStepRule(startDate: string, endDate: string, rule: Rule) {
    ValidationError(startDate, endDate, rule) == Fine && !(rule.frequency == Custom && rule.unit == WeekUnit)
  }

  /** The promised outcome of an until rule: the days of the result are exactly the candidates due by the
      end date, and it is the error exactly when 51 or more are due. */
  ghost predicate IsExactUntil(startDate: string, durationDays: int, rule: Rule, result: GenerateResult) {
    var start, until := DayOf(startDate), DayOf(rule.untilDate);
    match result
    case Ok(occurrences) =>
      && |occurrences| <= MAX_RECURRENCE_OCCURRENCES
      && (forall k: nat :: StepDay(start, rule, k) <= until <==> k < |occurrences|)
      && (forall k: nat :: k < |occurrences| ==>
            occurrences[k] == BuildOccurrence(Printed(StepDay(start, rule, k)), durationDays))
    case Error(fault) =>
      fault == TooManyOccurrences && StepDay(start, rule, MAX_RECURRENCE_OCCURRENCES) <= until
  }

  lemma DueCandidate(startDate: string, endDate: string, rule: Rule, k: nat)
    requires IsCheckedStepRule(startDate, endDate, rule) && rule.endMode == Until
    requires StepDay(DayOf(startDate), rule, k) <= DayOf(rule.untilDate)
    ensures FourDigitDay(StepDay(DayOf(startDate), rule, k))
    ensures AddStep(startDate, rule, k) == Printed(StepDay(DayOf(startDate), rule, k))
    ensures LexAtMost(AddStep(startDate, rule, k), rule.untilDate)
  {
    hide DateFromString, LexLess, DateToString, AddDays, AddMonths, AddStep, StepDay, CivilOf;
    ValidExact(startDate);
    ValidExact(rule.untilDate);
    StepDayFromStart(DayOf(startDate), rule, k);
    AddStepPrintsStepDay(startDate, rule, k);
    ComparesAsDay(StepDay(DayOf(startDate), rule, k), rule.untilDate);
  }

  /** An until rule is expanded as promised exactly when it has too many due days anyway, or the first
      candidate past the end date also sorts after it (which is so while that candidate prints four digits). */
  lemma UntilExpansionExact(startDate: string, endDate: string, rule: Rule, result: GenerateResult)
    requires rule.interval >= 1
    requires IsCheckedStepRule(startDate, endDate, rule) && rule.endMode == Until
    requires IsStepExpansion(startDate, DaysBetween(startDate, endDate), rule, result)
    ensures var n := FirstPast(DayOf(startDate), rule, DayOf(rule.untilDate), 0);
            IsExactUntil(startDate, DaysBetween(startDate, endDate), rule, result) <==>
              n > MAX_RECURRENCE_OCCURRENCES || LexLess(rule.untilDate, AddStep(startDate, rule, n))
  {
    hide DateFromString, LexLess, DateToString, AddStep, StepDay, DaysBetween, BuildOccurrence, FourDigitDay;
    var start, until := DayOf(startDate), DayOf(rule.untilDate);
    var n := FirstPast(start, rule, until, 0);
    forall k: nat | k < n
      ensures AddStep(startDate, rule, k) == Printed(StepDay(start, rule, k))
      ensures LexAtMost(AddStep(startDate, rule, k), rule.untilDate)
    {
      DueCandidate(startDate, endDate, rule, k);
    }
    if result.Ok? {
      OnlyLeastBound(start, rule, until, n, |result.occurrences|);
    }
  }

  lemma OnlyLeastBound(start: int, rule: Rule, until: int, n: nat, m: nat)
    requires forall j: nat :: StepDay(start, rule, j) <= until <==> j < n
    ensures (forall j: nat :: StepDay(start, rule, j) <= until <==> j < m) <==> m == n
  {
    hide StepDay;
    if m < n {
      assert StepDay(start, rule, m) <= until;
    } else if n < m {
      assert StepDay(start, rule, n) > until;
    }
  }

  /** So an until rule is exact whenever its first candidate past the end date is still before year 10000. */
  lemma UntilExpansionWithinYears(startDate: string, endDate: string, rule: Rule, result: GenerateResult)
    requires rule.interval >= 1
    requires IsCheckedStepRule(startDate, endDate, rule) && rule.endMode == Until
    requires IsStepExpansion(startDate, DaysBetween(startDate, endDate), rule, result)
    requires StepDay(DayOf(startDate), rule, FirstPast(DayOf(startDate), rule, DayOf(rule.untilDate), 0)) <= LAST_DAY
    ensures IsExactUntil(startDate, DaysBetween(startDate, endDate), rule, result)
  {
    hide DateFromString, LexLess, DateToString, AddStep, StepDay, DaysBetween, BuildOccurrence, IsExactUntil, IsStepExpansion;
    var n := FirstPast(DayOf(startDate), rule, DayOf(rule.untilDate), 0);
    UntilExpansionExact(startDate, endDate, rule, result);
    ValidExact(startDate);
    StepDayFromStart(DayOf(startDate), rule, n);
    AddStepPrintsStepDay(startDate, rule, n);
    ComparesAsDay(StepDay(DayOf(startDate), rule, n), rule.untilDate);
  }

  /** A daily rule on the last four-digit day runs on into year 10000, whose dates sort before its end date. */
  lemma UntilLastDayFails(result: GenerateResult)
    ensures var date := Printed(LAST_DAY);
            var rule := Rule(Until, Daily, 1, DayOfMonth, 1, DayUnit, date, []);
            && IsCheckedStepRule(date, date, rule)
            && (IsStepExpansion(date, 0, rule, result) ==> !IsExactUntil(date, 0, rule, result))
  {
    hide DateFromString, LexLess, DateToString, AddStep, AddDays, StepDay, DaysBetween, BuildOccurrence;
    hide IsExactUntil, IsStepExpansion, FirstPast;
    var date := Printed(LAST_DAY);
    var rule := Rule(Until, Daily, 1, DayOfMonth, 1, DayUnit, date, []);
    LastDayIsFourDigit();
    ParsePrinted(LAST_DAY);
    LexTotal(date, date);
    SameDayDuration(date);
    var n := FirstPast(LAST_DAY, rule, LAST_DAY, 0);
    DailySteps(LAST_DAY, rule);
    assert StepDay(LAST_DAY, rule, 0) <= LAST_DAY < StepDay(LAST_DAY, rule, 1);
    assert n == 1;
    LastDayInTime();
    Year10000SortsFirst(LAST_DAY, LAST_DAY + 1);
    DailyStepText(date, rule);
    if IsStepExpansion(date, 0, rule, result) {
      UntilExpansionExact(date, date, rule, result);
    }
  }

  lemma LastDayIsFourDigit()
    ensures FourDigitDay(LAST_DAY) && FourDigitDay(LAST_DAY - 1)
  {
  }

  lemma SameDayDuration(date: string)
    ensures DaysBetween(date, date) == 0
  {
  }

  lemma DailySteps(start: int, rule: Rule)
    requires rule.frequency == Daily
    ensures StepDay(start, rule, 0) == start && StepDay(start, rule, 1) == start + 1
  {
  }

  lemma DailyStepText(date: string, rule: Rule)
    requires rule.frequency == Daily && IsValidDateString(date)
    ensures AddStep(date, rule, 1) == DateToString(Clip(DayOf(date) + 1))
  {
    hide DateFromString, DateToString, AddDays;
    AddDaysShifts(date, 1);
  }

  /** The days from a date to the date `days` later are `days` exactly when the later one can be read back. */
  lemma ShiftReadsBack(date: string, days: int)
    ensures DaysBetween(date, AddDays(date, days)) == days <==>
              days == 0 || (DateFromString(date).Date? && FourDigitDay(DayOf(date) + days))
  {
    hide DateFromString, DateToString, AddDays, CivilOf, FourDigitDay;
    if DateFromString(date) == Null {
      KeepsUnreadable(date, days);
    } else {
      var day := DayOf(date) + days;
      AddDaysShifts(date, days);
      FourDigitYears(day);
      if FourDigitDay(day) {
        ParsePrinted(day);
      } else if Clip(day).Day? {
        OutsideYearsUnreadable(day);
      } else {
        InvalidUnreadable();
      }
    }
  }

  /** A range of a result lasts as long as the submitted one exactly when its start is a readable date and its
      end comes before year 10000 (or the submitted one is a single day). */
  lemma DurationKept(startDate: string, endDate: string, rule: Rule, result: GenerateResult, k: nat)
    requires ValidationError(startDate, endDate, rule) == Fine
    requires result.Ok? && HaveDuration(result.occurrences, DaysBetween(startDate, endDate))
    requires k < |result.occurrences|
    ensures var duration, o := DaysBetween(startDate, endDate), result.occurrences[k];
            && duration == DayOf(endDate) - DayOf(startDate) >= 0
            && (DaysBetween(o.startDate, o.endDate) == duration <==>
                  duration == 0 || (DateFromString(o.startDate).Date? && FourDigitDay(DayOf(o.startDate) + duration)))
  {
    hide DateFromString, LexLess, DateToString, AddDays, FourDigitDay;
    ValidationMeaning(startDate, endDate, rule);
    SubmittedDays(startDate, endDate);
    ShiftReadsBack(result.occurrences[k].startDate, DaysBetween(startDate, endDate));
  }

  /** For a rule of the step loop, said of the rule: its range number k keeps the duration exactly when it ends
      before year 10000. */
  lemma StepDurationKept(startDate: string, endDate: string, rule: Rule, result: GenerateResult, k: nat)
    requires rule.interval >= 1
    requires IsCheckedStepRule(startDate, endDate, rule)
    requires IsStepExpansion(startDate, DaysBetween(startDate, endDate), rule, result)
    requires result.Ok? && k < |result.occurrences|
    ensures var duration, o := DayOf(endDate) - DayOf(startDate), result.occurrences[k];
            DaysBetween(o.startDate, o.endDate) == duration <==>
              duration == 0 || StepDay(DayOf(startDate), rule, k) + duration <= LAST_DAY
  {
    hide DateFromString, LexLess, DateToString, AddDays, FourDigitDay, AddStep, StepDay, DaysBetween;
    ValidationMeaning(startDate, endDate, rule);
    SubmittedDays(startDate, endDate);
    ShiftReadsBack(AddStep(startDate, rule, k), DaysBetween(startDate, endDate));
    CandidateReadsBack(startDate, rule, k);
    ValidExact(startDate);
    StepDayFromStart(DayOf(startDate), rule, k);
    EndInYears(DayOf(startDate), StepDay(DayOf(startDate), rule, k), DayOf(endDate) - DayOf(startDate));
  }

  lemma EndInYears(start: int, day: int, duration: int)
    requires FourDigitDay(start) && start <= day && duration >= 0
    ensures FourDigitDay(day + duration) <==> day + duration <= LAST_DAY
  {
  }

  /** And for a custom weekly rule whose result is the promised one: range number k belongs to due day number k. */
  lemma WeeklyDurationKept(startDate: string, endDate: string, rule: Rule, result: GenerateResult, k: nat)
    requires rule.interval >= 1
    requires ValidationError(startDate, endDate, rule) == Fine && rule.frequency == Custom && rule.unit == WeekUnit
    requires IsExact(startDate, DaysBetween(startDate, endDate), rule, result)
    requires result.Ok? && k < |result.occurrences|
    ensures k < |Due(startDate, rule)|
    ensures var duration, o := DayOf(endDate) - DayOf(startDate), result.occurrences[k];
            DaysBetween(o.startDate, o.endDate) == duration <==>
              duration == 0 || Due(startDate, rule)[k] + duration <= LAST_DAY
  {
    hide DateFromString, LexLess, DateToString, AddDays, FourDigitDay, DueDays, DaysBetween, IsChosen;
    var due := Due(startDate, rule);
    ValidationMeaning(startDate, endDate, rule);
    SubmittedDays(startDate, endDate);
    ValidExact(startDate);
    if rule.endMode == Until { ValidExact(rule.untilDate); LimitInYears(rule); }
    DueDaysExact(DayOf(startDate), rule, Limit(rule));
    assert due[k] in due;
    InYears(DayOf(startDate), due[k]);
    ParsePrinted(due[k]);
    ShiftReadsBack(Printed(due[k]), DaysBetween(startDate, endDate));
    EndInYears(DayOf(startDate), due[k], DayOf(endDate) - DayOf(startDate));
  }

  lemma LimitInYears(rule: Rule)
    requires rule.endMode == Until && FourDigitDay(DayOf(rule.untilDate))
    ensures Limit(rule) <= LAST_DAY + 1
  {
    hide DateFromString;
  }

  /** From 9999-12-30 to 9999-12-31, daily, two times: the second range ends beyond year 9999, and its end date is
      no longer a day after its start. */
  lemma LastRangeCutOff(result: GenerateResult)
    ensures var startDate, endDate := Printed(LAST_DAY - 1), Printed(LAST_DAY);
            var rule := Rule(Count, Daily, 1, DayOfMonth, 2, DayUnit, "", []);
            && IsCheckedStepRule(startDate, endDate, rule)
            && (IsStepExpansion(startDate, DaysBetween(startDate, endDate), rule, result) ==>
                  && result.Ok? && |result.occurrences| == 2
                  && DaysBetween(result.occurrences[1].startDate, result.occurrences[1].endDate) != 1)
  {
    hide DateFromString, LexLess, DateToString, AddStep, AddDays, StepDay, DaysBetween, BuildOccurrence;
    var startDate, endDate := Printed(LAST_DAY - 1), Printed(LAST_DAY);
    var rule := Rule(Count, Daily, 1, DayOfMonth, 2, DayUnit, "", []);
    LastDayIsFourDigit();
    ParsePrinted(LAST_DAY - 1);
    ParsePrinted(LAST_DAY);
    ValidationMeaning(startDate, endDate, rule);
    DailySteps(LAST_DAY - 1, rule);
    if IsStepExpansion(startDate, DaysBetween(startDate, endDate), rule, result) {
      StepDurationKept(startDate, endDate, rule, result, 1);
    }
  }

  lemma SubmittedDays(startDate: string, endDate: string)
    requires IsValidDateString(startDate) && IsValidDateString(endDate)
    ensures DaysBetween(startDate, endDate) == DayOf(endDate) - DayOf(startDate)
  {
    hide DateFromString, DateToString;
  }

  /** Within four-digit years a count rule yields the first `occurrenceCount` candidate days, strictly
      increasing and never before the start day. */
  lemma CountExpansionDays(startDate: string, endDate: string, rule: Rule, result: GenerateResult)
    requires rule.interval >= 1 && rule.occurrenceCount >= 1
    requires IsCheckedStepRule(startDate, endDate, rule) && rule.endMode == Count
    requires IsStepExpansion(startDate, DaysBetween(startDate, endDate), rule, result)
    requires StepDay(DayOf(startDate), rule, rule.occurrenceCount - 1) <= LAST_DAY
    ensures result.Ok? && |result.occurrences| == rule.occurrenceCount
    ensures var start := DayOf(startDate);
            forall k: nat :: k < rule.occurrenceCount ==>
              && IsValidDateString(result.occurrences[k].startDate)
              && DayOf(result.occurrences[k].startDate) == StepDay(start, rule, k) >= start + k
              && (k > 0 ==> StepDay(start, rule, k - 1) < StepDay(start, rule, k))
  {
    hide DateFromString, LexLess, DateToString, AddStep, StepDay, DaysBetween, AddDays;
    var start := DayOf(startDate);
    ValidExact(startDate);
    forall k: nat | k < rule.occurrenceCount
      ensures && IsValidDateString(result.occurrences[k].startDate)
              && DayOf(result.occurrences[k].startDate) == StepDay(start, rule, k) >= start + k
              && (k > 0 ==> StepDay(start, rule, k - 1) < StepDay(start, rule, k))
    {
      StepDayFromStart(start, rule, k);
      if k > 0 { StepDayIncreases(start, rule, k - 1, k); }
      if k < rule.occurrenceCount - 1 { StepDayIncreases(start, rule, k, rule.occurrenceCount - 1); }
      AddStepPrintsStepDay(startDate, rule, k);
      ParsePrinted(StepDay(start, rule, k));
    }
  }

  /** Every start that an exact custom weekly result lists is a day on one of the chosen weekdays, not before the
      start day, in a week whose Sunday is a multiple of the interval away from that of the start week. */
  lemma WeeklyStartsChosen(startDate: string, endDate: string, rule: Rule, result: GenerateResult, k: nat)
    requires rule.interval >= 1
    requires ValidationError(startDate, endDate, rule) == Fine && rule.frequency == Custom && rule.unit == WeekUnit
    requires IsExact(startDate, DaysBetween(startDate, endDate), rule, result)
    requires result.Ok? && k < |result.occurrences|
    ensures var o, start := result.occurrences[k], DayOf(startDate);
            && IsValidDateString(o.startDate) && DayOf(o.startDate) >= start
            && Weekday(DayOf(o.startDate)) in rule.weekdays
            && ((DayOf(o.startDate) - Weekday(DayOf(o.startDate))) - (start - Weekday(start))) % (7 * rule.interval) == 0
  {
    hide DateFromString, LexLess, DateToString, AddDays, FourDigitDay, DueDays, DaysBetween, Weekday;
    var due := Due(startDate, rule);
    ValidationMeaning(startDate, endDate, rule);
    ValidExact(startDate);
    if rule.endMode == Until { ValidExact(rule.untilDate); LimitInYears(rule); }
    DueDaysExact(DayOf(startDate), rule, Limit(rule));
    assert due[k] in due;
    InYears(DayOf(startDate), due[k]);
    ParsePrinted(due[k]);
    ChosenMeaning(DayOf(startDate), rule, due[k]);
  }
}
