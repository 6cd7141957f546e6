/** Calendar days as date keys, local midnights in a time zone, and the query window of a day range. */
module DateKeys {
  import opened Gregorian
  import opened Text
  import opened DateStrings
  import Recurrence

  const MS_PER_DAY := 86_400_000

  // ----- date keys ---------------------------------------------------------------------------

  const FIRST_KEY_DAY := DayFromYear(0)

  /** The days whose key has the form YYYY-MM-DD: years 0 to 9999. */
  predicate IsKeyDay(day: int) {
    FIRST_KEY_DAY <= day <= LAST_DAY
  }

  /** toISOString().slice(0, 10) of a UTC midnight: outside years 0 to 9999 the year takes a sign and six digits. */
  function KeyOfDay(day: int): string {
    var c := CivilOf(day);
    if 0 <= c.year <= 9999 then Written(c)
    else if c.year < 0 then "-" + PadZeros(Decimal(-c.year), 6) + "-" + Digits(c.month + 1, 2)
    else "+" + PadZeros(Decimal(c.year), 6) + "-" + Digits(c.month + 1, 2)
  }

  /** The UTC day an instant (in milliseconds) falls on. */
  function UtcDay(instant: int): int {
    instant / MS_PER_DAY
  }

  function DateKeyOfUtcDate(instant: int): string {
    KeyOfDay(UtcDay(instant))
  }

  /** A signed six-digit year and a month, as KeyOfDay prints beyond year 9999. */
  predicate IsExpandedKey(s: string) {
    |s| == 10 && s[0] == '+' && AllDigits(s[1..7]) && s[7] == '-' && AllDigits(s[8..])
  }

  /** The day of `${key}T00:00:00.000Z` (date-time string format, section 21.4.1.32 of ECMA-262);
      Null where Date.parse yields NaN and the caller's toISOString throws. */
  function ParseKey(key: string): Parsed {
    if IsDatePattern(key) then
      var c := Civil(Value(key[..4]), Value(key[5..7]) - 1, Value(key[8..]));
      if IsDate(c) then Date(DayNumber(c)) else Null
    else if IsExpandedKey(key) then
      var c := Civil(Value(key[1..7]), Value(key[8..]) - 1, 1);
      if IsDate(c) then Date(DayNumber(c)) else Null
    else Null
  }

  /** A date key of a real day in years 0 to 9999. */
  predicate IsDateKey(key: string) {
    IsDatePattern(key) && ParseKey(key).Date?
  }

  function KeyDay(key: string): int {
    match ParseKey(key)
    case Null => 0
    case Date(n) => n
  }

  function AddDaysToDateKey(key: string, days: int): string
    requires ParseKey(key).Date?
  {
    KeyOfDay(KeyDay(key) + days)
  }

  lemma KeyYears(day: int)
    ensures IsKeyDay(day) <==> 0 <= CivilOf(day).year <= 9999
  {
    hide CivilOf, DayNumber;
    var c := CivilOf(day);
    DateWithinYear(c);
    if c.year < 0 { YearsIncrease(c.year + 1, 0); }
    if 0 <= c.year { YearsIncrease(0, c.year); }
    if c.year <= 9999 { YearsIncrease(c.year + 1, 10000); }
    if 9999 < c.year { YearsIncrease(10000, c.year); }
  }

  /** Reading a printed key gives the day back, and every date key is a printed one. */
  lemma KeyRoundTrip(day: int)
    requires IsKeyDay(day)
    ensures IsDateKey(KeyOfDay(day)) && KeyDay(KeyOfDay(day)) == day
  {
    hide CivilOf, DayFromYear, DaysBeforeMonth, Written, DayNumber;
    KeyYears(day);
    WrittenParts(CivilOf(day));
  }

  lemma KeyIsPrinted(key: string)
    requires IsDateKey(key)
    ensures IsKeyDay(KeyDay(key)) && key == KeyOfDay(KeyDay(key))
  {
    hide CivilOf, DayFromYear, DaysBeforeMonth, DayNumber, IsKeyDay;
    var c := Civil(Value(key[..4]), Value(key[5..7]) - 1, Value(key[8..]));
    PatternIsWritten(key);
    DayNumberOrder(c, CivilOf(DayNumber(c)));
    KeyYears(DayNumber(c));
  }

  /** String comparison of date keys is comparison of their days. */
  lemma KeyOrder(a: int, b: int)
    requires IsKeyDay(a) && IsKeyDay(b)
    ensures LexLess(KeyOfDay(a), KeyOfDay(b)) <==> a < b
    ensures KeyOfDay(a) == KeyOfDay(b) <==> a == b
  {
    hide CivilOf, DayFromYear, DaysBeforeMonth, Written, DayNumber, LexLess;
    KeyYears(a);
    KeyYears(b);
    DayNumberOrder(CivilOf(a), CivilOf(b));
    WrittenOrder(CivilOf(a), CivilOf(b));
  }

  /** Adding days to keys is an action of the integers. */
  lemma AddDaysToKeyComposes(key: string, a: int, b: int)
    requires IsDateKey(key) && IsKeyDay(KeyDay(key) + a)
    ensures IsDateKey(AddDaysToDateKey(key, a))
    ensures AddDaysToDateKey(AddDaysToDateKey(key, a), b) == AddDaysToDateKey(key, a + b)
  {
    hide KeyOfDay, ParseKey;
    KeyRoundTrip(KeyDay(key) + a);
  }

  /** Within years 1000 to 9999 it is the addDays of the recurrence form. */
  lemma AddDaysAgree(key: string, days: int)
    requires IsDateKey(key) && FourDigitDay(KeyDay(key)) && FourDigitDay(KeyDay(key) + days)
    ensures AddDaysToDateKey(key, days) == Recurrence.AddDays(key, days)
  {
    hide KeyOfDay, ParseKey, Printed, Recurrence.AddDays, DateFromString, FourDigitDay, IsValidDateString, IsDatePattern;
    KeyIsPrinted(key);
    PrintedAsKey(KeyDay(key));
    PrintedAsKey(KeyDay(key) + days);
    ParsePrinted(KeyDay(key));
    Recurrence.AddDaysWithinYears(key, days);
  }

  lemma PrintedAsKey(day: int)
    requires FourDigitDay(day)
    ensures Printed(day) == KeyOfDay(day)
  {
    hide CivilOf, DayFromYear, DaysBeforeMonth, Written, DayNumber, Printed;
    FourDigitYears(day);
    PrintedIsWritten(day);
  }

  // ----- every key of a range ----------------------------------------------------------------

  const LAST_KEY := "9999-12-31"
  const KEY_AFTER_LAST := "+010000-01"

  lemma LastKey()
    ensures KeyOfDay(LAST_DAY) == LAST_KEY && IsKeyDay(LAST_DAY)
  {
    hide CivilOf, YearOf;
    var c := Civil(9999, 11, 31);
    YearTable(9999);
    assert DayNumber(c) == LAST_DAY;
    DayNumberOrder(c, CivilOf(LAST_DAY));
    WrittenLastKey();
    LastDayAfterFirst();
  }

  lemma LastDayAfterFirst()
    ensures FIRST_KEY_DAY <= LAST_DAY
  {
  }

  lemma WrittenLastKey()
    ensures Written(Civil(9999, 11, 31)) == LAST_KEY
  {
    hide Digits;
    assert Digits(9999, 4) == "9999" by { Nines(); }
    assert Digits(12, 2) == "12" && Digits(31, 2) == "31" by { TwelveAndLast(); }
  }

  lemma Nines()
    ensures Digits(9999, 4) == "9999"
  {
    assert Digits(9, 1) == Digits(0, 0) + "9";
    assert Digits(99, 2) == Digits(9, 1) + "9";
    assert Digits(999, 3) == Digits(99, 2) + "9";
  }

  lemma TwelveAndLast()
    ensures Digits(12, 2) == "12" && Digits(31, 2) == "31"
  {
    assert Digits(1, 1) == Digits(0, 0) + "1";
    assert Digits(3, 1) == Digits(0, 0) + "3";
  }

  /** Every date key from `from` to `to`, inclusive. The loop ends only if some key sorts after `to`. */
  method DateKeysBetween(from: string, to: string) returns (keys: seq<string>)
    requires IsDateKey(from) && IsDateKey(to)
    requires LexLess(to, from) || to != LAST_KEY
    ensures |keys| == if KeyDay(from) <= KeyDay(to) then KeyDay(to) - KeyDay(from) + 1 else 0
    ensures forall i :: 0 <= i < |keys| ==> IsDateKey(keys[i]) && KeyDay(keys[i]) == KeyDay(from) + i
  {
    hide KeyOfDay, ParseKey, LexLess, DayFromYear;
    ghost var first, last := KeyDay(from), KeyDay(to);
    KeyIsPrinted(from);
    KeyIsPrinted(to);
    KeyOrder(last, first);
    LastKey();
    keys := [];
    var key := from;
    while !LexLess(to, key)
      invariant |keys| == if first <= last then KeyDay(key) - first else 0
      invariant first <= last ==> first <= KeyDay(key) <= last + 1
      invariant first > last ==> KeyDay(key) == first
      invariant IsDateKey(key)
      invariant forall i :: 0 <= i < |keys| ==> IsDateKey(keys[i]) && KeyDay(keys[i]) == first + i
      decreases last + 1 - KeyDay(key)
    {
      KeyIsPrinted(key);
      KeyOrder(last, KeyDay(key));
      KeyOrder(last, LAST_DAY);
      keys := keys + [key];
      KeyRoundTrip(KeyDay(key) + 1);
      key := AddDaysToDateKey(key, 1);
    }
    KeyIsPrinted(key);
    KeyOrder(last, KeyDay(key));
  }

  /** The loop variable of DateKeysBetween after k rounds. */
  ghost function KeyAfter(from: string, k: nat): string
    requires ParseKey(from).Date?
  {
    if k == 0 then from
    else
      var before := KeyAfter(from, k - 1);
      if ParseKey(before).Date? then AddDaysToDateKey(before, 1) else before
  }

  /** The key after the last: it sorts before every date, and a day added to it is cut off again. */
  lemma KeyAfterLast()
    ensures KeyOfDay(LAST_DAY + 1) == KEY_AFTER_LAST && KeyOfDay(LAST_DAY + 2) == KEY_AFTER_LAST
    ensures ParseKey(KEY_AFTER_LAST) == Date(LAST_DAY + 1)
    ensures LexLess(KEY_AFTER_LAST, LAST_KEY)
  {
    hide CivilOf, YearOf, Value, LexLess, Digits, PadZeros, Decimal;
    var c, d := Civil(10000, 0, 1), Civil(10000, 0, 2);
    assert DayNumber(c) == LAST_DAY + 1 && DayNumber(d) == LAST_DAY + 2;
    DayNumberOrder(c, CivilOf(LAST_DAY + 1));
    DayNumberOrder(d, CivilOf(LAST_DAY + 2));
    TenThousand();
    assert KEY_AFTER_LAST[1..7] == "010000" && KEY_AFTER_LAST[8..] == "01";
    PlusSortsFirst();
  }

  lemma PlusSortsFirst()
    ensures LexLess(KEY_AFTER_LAST, LAST_KEY)
  {
  }

  lemma TenThousand()
    ensures "+" + PadZeros(Decimal(10000), 6) + "-" + Digits(1, 2) == KEY_AFTER_LAST
    ensures Value("010000") == 10000 && Value("01") == 1
  {
    hide Value, Digits, Pow10, Decimal;
    ExpandedYearDigits();
    assert "01" == Digits(1, 2) && Value(Digits(1, 2)) == 1 by { ValueOfDigits(1, 2); }
    assert "010000" == Digits(10000, 6) && Value(Digits(10000, 6)) == 10000 by { ValueOfDigits(10000, 6); }
  }

  lemma ExpandedYearDigits()
    ensures Decimal(10000) == "10000"
    ensures Digits(1, 2) == "01" && Digits(10000, 6) == "010000"
    ensures 1 < Pow10(2) && 10000 < Pow10(6)
  {
    PowersOfTen();
    assert Pow10(5) == 10 * Pow10(4) && Pow10(6) == 10 * Pow10(5);
    assert Digits(0, 1) == Digits(0, 0) + "0";
    assert Digits(1, 2) == Digits(0, 1) + "1";
    assert Digits(10, 3) == Digits(1, 2) + "0";
    assert Digits(100, 4) == Digits(10, 3) + "0";
    assert Digits(1000, 5) == Digits(100, 4) + "0";
    DecimalIsDigits(10000, 5);
    assert Digits(1, 1) == Digits(0, 0) + "1";
    assert Digits(10, 2) == Digits(1, 1) + "0";
    assert Digits(100, 3) == Digits(10, 2) + "0";
    assert Digits(1000, 4) == Digits(100, 3) + "0";
  }

  lemma {:induction false} KeysCount(from: string, k: nat)
    requires IsDateKey(from)
    ensures KeyDay(from) + k <= LAST_DAY ==> KeyAfter(from, k) == KeyOfDay(KeyDay(from) + k)
    ensures KeyDay(from) + k > LAST_DAY ==> KeyAfter(from, k) == KEY_AFTER_LAST
  {
    hide KeyOfDay, ParseKey, DayFromYear;
    KeyIsPrinted(from);
    KeyAfterLast();
    if k > 0 {
      KeysCount(from, k - 1);
      if KeyDay(from) + k - 1 <= LAST_DAY {
        KeyRoundTrip(KeyDay(from) + k - 1);
      }
    }
  }

  /** dateKeysBetween ends exactly for the ranges that DateKeysBetween asks for: counting up to 9999-12-31
      never passes it. */
  lemma KeysBetweenEnds(from: string, to: string)
    requires IsDateKey(from) && IsDateKey(to)
    ensures (exists k: nat :: LexLess(to, KeyAfter(from, k))) <==> (LexLess(to, from) || to != LAST_KEY)
  {
    hide KeyOfDay, ParseKey, DayFromYear, LexLess, KeyAfter;
    KeyIsPrinted(from);
    KeyIsPrinted(to);
    LastKey();
    KeyAfterLast();
    KeyOrder(KeyDay(to), LAST_DAY);
    KeyOrder(KeyDay(to), KeyDay(from));
    KeysCount(from, 0);
    if to == LAST_KEY {
      forall k: nat ensures !LexLess(to, KeyAfter(from, k)) {
        KeysCount(from, k);
        if KeyDay(from) + k <= LAST_DAY { KeyOrder(LAST_DAY, KeyDay(from) + k); }
        LexTotal(KEY_AFTER_LAST, LAST_KEY);
      }
    } else {
      var k: nat := if KeyDay(from) <= KeyDay(to) then KeyDay(to) + 1 - KeyDay(from) else 0;
      KeysCount(from, k);
      KeyOrder(KeyDay(to), KeyDay(from) + k);
      assert LexLess(to, KeyAfter(from, k));
    }
  }

  // ----- local midnights ---------------------------------------------------------------------

  /** A time zone: its offset from UTC, in milliseconds, at every instant. */
  type Zone = int -> int

  ghost predicate HasWholeSecondOffsets(zone: Zone) {
    forall t :: zone(t) % 1000 == 0
  }

  ghost predicate OffsetsSpanAtMostADay(zone: Zone) {
    forall s, t :: zone(s) - zone(t) <= MS_PER_DAY
  }

  /** The local wall clock at an instant, to the second, read as if it were UTC. */
  function LocalWallClockAsUtc(instant: int, zone: Zone): int {
    var local := instant + zone(instant);
    local - local % 1000
  }

  /** The clock shows whole seconds, and the second that is running. */
  lemma ClockMeaning(instant: int, zone: Zone)
    ensures var shown := LocalWallClockAsUtc(instant, zone);
            shown % 1000 == 0 && shown <= instant + zone(instant) < shown + 1000
  {
    var local := instant + zone(instant);
    assert (local - local % 1000) % 1000 == 0;
  }

  /** The instant the two passes settle on for a day. */
  function StartOfDay(day: int, zone: Zone): int {
    var target := day * MS_PER_DAY;
    var first := target + (target - LocalWallClockAsUtc(target, zone));
    first + (target - LocalWallClockAsUtc(first, zone))
  }

  method ZonedStartOfDay(dateKey: string, zone: Zone) returns (start: int)
    requires ParseKey(dateKey).Date?
    ensures start == StartOfDay(KeyDay(dateKey), zone)
  {
    hide ParseKey;
    var target := KeyDay(dateKey) * MS_PER_DAY;
    var guess := target;
    for pass := 0 to 2
      invariant pass == 0 ==> guess == target
      invariant pass == 1 ==> guess == target + (target - LocalWallClockAsUtc(target, zone))
      invariant pass == 2 ==> guess == StartOfDay(KeyDay(dateKey), zone)
    {
      guess := guess + (target - LocalWallClockAsUtc(guess, zone));
    }
    return guess;
  }

  /** Midnight of a day: the local clock shows the day's first moment. */
  ghost predicate IsLocalMidnight(instant: int, day: int, zone: Zone) {
    instant + zone(instant) == day * MS_PER_DAY
  }

  /** At most one offset change within a day of the day's UTC midnight: from `before` to `after` at `change`. */
  ghost predicate ChangesOnce(zone: Zone, day: int, change: int, before: int, after: int) {
    && -MS_PER_DAY <= before <= MS_PER_DAY && -MS_PER_DAY <= after <= MS_PER_DAY
    && forall t :: (day - 1) * MS_PER_DAY <= t <= (day + 1) * MS_PER_DAY ==> zone(t) == if t < change then before else after
  }

  ghost predicate OffsetsWithinADay(zone: Zone) {
    forall t :: -MS_PER_DAY <= zone(t) <= MS_PER_DAY
  }

  lemma TwoPasses(day: int, zone: Zone)
    requires HasWholeSecondOffsets(zone)
    ensures var target := day * MS_PER_DAY;
            StartOfDay(day, zone) == target - zone(target - zone(target))
  {
    var target := day * MS_PER_DAY;
    assert zone(target) % 1000 == 0 && zone(target - zone(target)) % 1000 == 0;
    assert target == 1000 * (day * 86_400);
    var first := target - zone(target);
    assert LocalWallClockAsUtc(target, zone) == target + zone(target);
    assert LocalWallClockAsUtc(first, zone) == first + zone(first);
  }

  /** The two passes find local midnight exactly when there is one, across at most one clock change:
      the one whose offset holds at the day's UTC midnight when the clock shows it twice. */
  lemma StartOfDayIsMidnight(day: int, zone: Zone, change: int, before: int, after: int)
    requires HasWholeSecondOffsets(zone) && OffsetsWithinADay(zone) && ChangesOnce(zone, day, change, before, after)
    ensures IsLocalMidnight(StartOfDay(day, zone), day, zone) <==> exists t :: IsLocalMidnight(t, day, zone)
    ensures var target := day * MS_PER_DAY;
            IsLocalMidnight(target - before, day, zone) && IsLocalMidnight(target - after, day, zone) ==>
              StartOfDay(day, zone) == target - zone(target)
  {
    var target := day * MS_PER_DAY;
    TwoPasses(day, zone);
    assert zone(target) == if target < change then before else after;
    var first := target - zone(target);
    assert zone(first) == if first < change then before else after;
    var second := target - zone(first);
    assert zone(second) == if second < change then before else after;
    if t :| IsLocalMidnight(t, day, zone) {
      assert -MS_PER_DAY <= zone(t) <= MS_PER_DAY;
      assert zone(t) == if t < change then before else after;
    }
  }

  /** Where midnight is skipped the result misses it by the clock change: late if the change came
      before the day's UTC midnight, early (the evening before) if after. */
  lemma SkippedMidnight(day: int, zone: Zone, change: int, before: int, after: int)
    requires HasWholeSecondOffsets(zone) && OffsetsWithinADay(zone) && ChangesOnce(zone, day, change, before, after)
    requires forall t :: !IsLocalMidnight(t, day, zone)
    ensures var target, start := day * MS_PER_DAY, StartOfDay(day, zone);
            && before < after
            && start + zone(start) == if target < change then target - (after - before) else target + (after - before)
  {
    var target := day * MS_PER_DAY;
    TwoPasses(day, zone);
    assert !IsLocalMidnight(target - before, day, zone) && !IsLocalMidnight(target - after, day, zone);
    assert zone(target) == if target < change then before else after;
    assert zone(target - before) == if target - before < change then before else after;
    assert zone(target - after) == if target - after < change then before else after;
  }

  /** Later days start no earlier. */
  lemma StartOfDayMonotone(day: int, later: int, zone: Zone)
    requires HasWholeSecondOffsets(zone) && OffsetsSpanAtMostADay(zone) && day <= later
    ensures StartOfDay(day, zone) <= StartOfDay(later, zone)
  {
    TwoPasses(day, zone);
    TwoPasses(later, zone);
    if day < later {
      var target, target' := day * MS_PER_DAY, later * MS_PER_DAY;
      assert target + MS_PER_DAY <= target';
      assert zone(target' - zone(target')) - zone(target - zone(target)) <= MS_PER_DAY;
    }
  }

  // ----- records and the query window --------------------------------------------------------

  datatype Record = Record(allDay: bool, startsAt: int, endsAt: int)
  datatype LocalDay = LocalDay(dateKey: string, start: int, end: int)
  datatype Window = Window(start: int, end: int)

  predicate RecordFallsOnDay(record: Record, day: LocalDay) {
    if record.allDay then
      LexAtMost(DateKeyOfUtcDate(record.startsAt), day.dateKey) && LexAtMost(day.dateKey, DateKeyOfUtcDate(record.endsAt))
    else
      record.startsAt < day.end && record.endsAt > day.start
  }

  function RecordQueryWindow(from: string, to: string, zone: Zone): Window
    requires IsDateKey(from) && IsDateKey(to)
  {
    var afterTo := KeyDay(AddDaysToDateKey(to, 1));
    var localStart, localEnd := StartOfDay(KeyDay(from), zone), StartOfDay(afterTo, zone);
    var utcStart, utcEnd := KeyDay(from) * MS_PER_DAY, afterTo * MS_PER_DAY;
    Window(if localStart < utcStart then localStart else utcStart, if localEnd > utcEnd then localEnd else utcEnd)
  }

  /** A local day as the callers build it: its key and the starts of it and of the next day. */
  function LocalDayOf(day: int, zone: Zone): LocalDay {
    LocalDay(KeyOfDay(day), StartOfDay(day, zone), StartOfDay(day + 1, zone))
  }

  /** The day after a key, also after 9999-12-31, whose successor is printed with an expanded year. */
  lemma NextKeyDay(key: string)
    requires IsDateKey(key)
    ensures KeyDay(AddDaysToDateKey(key, 1)) == KeyDay(key) + 1
  {
    hide KeyOfDay, ParseKey, DayFromYear;
    KeyIsPrinted(key);
    if KeyDay(key) == LAST_DAY {
      KeyAfterLast();
    } else {
      KeyRoundTrip(KeyDay(key) + 1);
    }
  }

  /** Keys outside years 0 to 9999 begin with a sign, which sorts before every date key. */
  lemma SignedKeySortsFirst(day: int, other: int)
    requires !IsKeyDay(day) && IsKeyDay(other)
    ensures LexLess(KeyOfDay(day), KeyOfDay(other))
  {
    hide CivilOf, DayFromYear, DaysBeforeMonth, DayNumber, Digits, PadZeros, Decimal;
    KeyYears(day);
    KeyYears(other);
    assert IsDigit(KeyOfDay(other)[0]) by { assert KeyOfDay(other)[0] == KeyOfDay(other)[..4][0]; }
    assert KeyOfDay(day)[0] == '+' || KeyOfDay(day)[0] == '-';
  }

  lemma KeysBracketDay(record: Record, day: int)
    requires IsKeyDay(day) && UtcDay(record.startsAt) <= LAST_DAY
    requires LexAtMost(DateKeyOfUtcDate(record.startsAt), KeyOfDay(day)) && LexAtMost(KeyOfDay(day), DateKeyOfUtcDate(record.endsAt))
    ensures UtcDay(record.startsAt) <= day <= UtcDay(record.endsAt)
  {
    hide KeyOfDay, DayFromYear, LexLess;
    var s, e := UtcDay(record.startsAt), UtcDay(record.endsAt);
    if !IsKeyDay(e) { SignedKeySortsFirst(e, day); }
    KeyOrder(e, day);
    if IsKeyDay(s) { KeyOrder(day, s); }
  }

  /** recordQueryWindow misses nothing: whatever recordFallsOnDay matches on a local day of the range
      ends at or after the window's start and starts before its end. (The key of an all-day record that starts
      beyond year 9999 begins with a sign, and would match every day.) */
  lemma QueryWindowComplete(from: string, to: string, zone: Zone, day: int, record: Record)
    requires HasWholeSecondOffsets(zone) && OffsetsSpanAtMostADay(zone)
    requires IsDateKey(from) && IsDateKey(to) && KeyDay(from) <= day <= KeyDay(to)
    requires record.allDay ==> UtcDay(record.startsAt) <= LAST_DAY
    requires RecordFallsOnDay(record, LocalDayOf(day, zone))
    ensures var window := RecordQueryWindow(from, to, zone);
            record.endsAt >= window.start && record.startsAt < window.end
  {
    hide KeyOfDay, ParseKey, DayFromYear, LexLess, StartOfDay;
    NextKeyDay(to);
    KeyIsPrinted(from);
    KeyIsPrinted(to);
    if record.allDay {
      KeysBracketDay(record, day);
    } else {
      StartOfDayMonotone(KeyDay(from), day, zone);
      StartOfDayMonotone(day + 1, KeyDay(to) + 1, zone);
    }
  }

  /** An all-day record falls on exactly the days from its first to its last, both included, in every zone. */
  lemma AllDayFallsExactly(record: Record, day: int, zone: Zone)
    requires record.allDay && IsKeyDay(day) && IsKeyDay(UtcDay(record.startsAt)) && IsKeyDay(UtcDay(record.endsAt))
    ensures RecordFallsOnDay(record, LocalDayOf(day, zone)) <==> UtcDay(record.startsAt) <= day <= UtcDay(record.endsAt)
  {
    hide KeyOfDay, DayFromYear, LexLess, StartOfDay;
    KeyOrder(day, UtcDay(record.startsAt));
    KeyOrder(UtcDay(record.endsAt), day);
  }

  /** A timed record falls on exactly the days that hold one of its instants. */
  lemma TimedFallsExactly(record: Record, day: int, zone: Zone)
    requires !record.allDay && record.startsAt < record.endsAt && StartOfDay(day, zone) < StartOfDay(day + 1, zone)
    ensures RecordFallsOnDay(record, LocalDayOf(day, zone)) <==>
              exists t :: record.startsAt <= t < record.endsAt && LiesInDay(t, day, zone)
  {
    hide KeyOfDay, StartOfDay;
    var start := StartOfDay(day, zone);
    if RecordFallsOnDay(record, LocalDayOf(day, zone)) {
      assert LiesInDay(if record.startsAt < start then start else record.startsAt, day, zone);
    }
  }

  /** The window is no larger than it must be: there are records on its first and last day that it would miss if
      it began two milliseconds later, or ended one earlier. */
  lemma QueryWindowTight(from: string, to: string, zone: Zone)
    requires HasWholeSecondOffsets(zone) && OffsetsSpanAtMostADay(zone)
    requires IsDateKey(from) && IsDateKey(to) && KeyDay(from) <= KeyDay(to)
    ensures var window := RecordQueryWindow(from, to, zone);
            && (exists r :: RecordFallsOnDay(r, LocalDayOf(KeyDay(from), zone)) && r.endsAt <= window.start + 1)
            && (exists r :: RecordFallsOnDay(r, LocalDayOf(KeyDay(to), zone)) && r.startsAt == window.end - 1)
  {
    hide KeyOfDay, ParseKey, DayFromYear, LexLess, StartOfDay;
    var first, last := KeyDay(from), KeyDay(to);
    var window := RecordQueryWindow(from, to, zone);
    NextKeyDay(to);
    KeyIsPrinted(from);
    KeyIsPrinted(to);
    LexTotal(KeyOfDay(first), KeyOfDay(first));
    LexTotal(KeyOfDay(last), KeyOfDay(last));
    StartOfDayMonotone(first, first + 1, zone);
    StartOfDayMonotone(last, last + 1, zone);
    var wholeFirst := Record(true, first * MS_PER_DAY, first * MS_PER_DAY);
    var wholeLast := Record(true, (last + 1) * MS_PER_DAY - 1, (last + 1) * MS_PER_DAY - 1);
    var timedFirst := Record(false, StartOfDay(first, zone) - 1, StartOfDay(first, zone) + 1);
    var timedLast := Record(false, StartOfDay(last + 1, zone) - 1, StartOfDay(last + 1, zone) + 1);
    assert RecordFallsOnDay(wholeFirst, LocalDayOf(first, zone));
    assert RecordFallsOnDay(wholeLast, LocalDayOf(last, zone));
    assert RecordFallsOnDay(timedFirst, LocalDayOf(first, zone));
    assert RecordFallsOnDay(timedLast, LocalDayOf(last, zone));
    assert wholeFirst.endsAt <= window.start + 1 || timedFirst.endsAt <= window.start + 1;
    assert wholeLast.startsAt == window.end - 1 || timedLast.startsAt == window.end - 1;
  }

  /** The local days of a range leave no gap: a timed record that meets the range falls on one of its days. */
  lemma {:induction false} DaysTileRange(first: int, last: int, zone: Zone, record: Record)
    requires first <= last && !record.allDay && record.startsAt < record.endsAt
    requires record.startsAt < StartOfDay(last + 1, zone) && record.endsAt > StartOfDay(first, zone)
    ensures exists day :: first <= day <= last && RecordFallsOnDay(record, LocalDayOf(day, zone))
    decreases last - first
  {
    hide KeyOfDay, StartOfDay;
    if first == last || record.endsAt > StartOfDay(last, zone) {
      assert RecordFallsOnDay(record, LocalDayOf(last, zone));
    } else {
      DaysTileRange(first, last - 1, zone, record);
      var day :| first <= day <= last - 1 && RecordFallsOnDay(record, LocalDayOf(day, zone));
    }
  }

  ghost predicate LiesInDay(instant: int, day: int, zone: Zone) {
    StartOfDay(day, zone) <= instant < StartOfDay(day + 1, zone)
  }

  /** Nor do they overlap: an instant between the range's ends lies in exactly one day. */
  lemma InstantInOneDay(first: int, last: int, zone: Zone, instant: int)
    requires HasWholeSecondOffsets(zone) && OffsetsSpanAtMostADay(zone)
    requires first <= last && StartOfDay(first, zone) <= instant < StartOfDay(last + 1, zone)
    ensures exists day :: first <= day <= last && LiesInDay(instant, day, zone)
    ensures forall d, e :: LiesInDay(instant, d, zone) && LiesInDay(instant, e, zone) ==> d == e
  {
    hide StartOfDay;
    InstantInSomeDay(first, last, zone, instant);
    forall d, e | LiesInDay(instant, d, zone) && LiesInDay(instant, e, zone)
      ensures d == e
    {
      if d < e { StartOfDayMonotone(d + 1, e, zone); }
      if e < d { StartOfDayMonotone(e + 1, d, zone); }
    }
  }

  lemma {:induction false} InstantInSomeDay(first: int, last: int, zone: Zone, instant: int)
    requires first <= last && StartOfDay(first, zone) <= instant < StartOfDay(last + 1, zone)
    ensures exists day :: first <= day <= last && LiesInDay(instant, day, zone)
    decreases last - first
  {
    hide StartOfDay;
    if first < last && instant < StartOfDay(last, zone) {
      InstantInSomeDay(first, last - 1, zone, instant);
      var day :| first <= day <= last - 1 && LiesInDay(instant, day, zone);
    } else {
      assert LiesInDay(instant, last, zone);
    }
  }
}
