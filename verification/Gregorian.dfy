/** Day-number arithmetic of the proleptic Gregorian calendar, as section 21.4.1 of
    ECMA-262 defines it for Date: day 0 is 1 January 1970, months count from 0. */
module Gregorian {

  datatype Civil = Civil(year: int, month: int, date: int)

  predicate IsLeap(y: int) {
    y % 4 == 0 && (y % 100 != 0 || y % 400 == 0)
  }

  function MonthLength(y: int, m: int): int
    requires 0 <= m < 12
  {
    if m == 1 then (if IsLeap(y) then 29 else 28)
    else if m == 3 || m == 5 || m == 8 || m == 10 then 30
    else 31
  }

  /** Number of the first day of year y (DayFromYear). */
  function DayFromYear(y: int): int {
    365 * (y - 1970) + (y - 1969) / 4 - (y - 1901) / 100 + (y - 1601) / 400
  }

  /** Days of year y before month m (the table of MonthFromTime). */
  function DaysBeforeMonth(y: int, m: int): int
    requires 0 <= m <= 12
  {
    if m == 0 then 0 else DaysBeforeMonth(y, m - 1) + MonthLength(y, m - 1)
  }

  predicate IsDate(c: Civil) {
    0 <= c.month < 12 && 1 <= c.date <= MonthLength(c.year, c.month)
  }

  /** MakeDay: months outside 0..11 carry into the year, dates run on into other months. */
  function MakeDay(y: int, m: int, d: int): int {
    DayFromYear(y + m / 12) + DaysBeforeMonth(y + m / 12, m % 12) + d - 1
  }

  /** The day number of a date, counted year by year and month by month. */
  function DayNumber(c: Civil): int
    requires 0 <= c.month < 12
  {
    DayFromYear(c.year) + DaysBeforeMonth(c.year, c.month) + c.date - 1
  }

  ghost predicate Earlier(a: Civil, b: Civil) {
    a.year < b.year || (a.year == b.year && (a.month < b.month || (a.month == b.month && a.date < b.date)))
  }

  lemma YearStep(y: int)
    ensures DayFromYear(y + 1) == DayFromYear(y) + (if IsLeap(y) then 366 else 365)
  {
    EveryFourth(y);
    EveryHundredth(y);
    EveryFourHundredth(y);
    Divides(y, 100, 4);
    Divides(y, 400, 100);
  }

  lemma Divides(y: int, a: int, b: int)
    requires (a, b) == (100, 4) || (a, b) == (400, 100)
    ensures y % a == 0 ==> y % b == 0
  {
    var q := y / a;
    if y % a == 0 && a == 100 { assert y == 4 * (25 * q); }
    if y % a == 0 && a == 400 { assert y == 100 * (4 * q); }
  }

  lemma EveryFourth(y: int)
    ensures (y - 1968) / 4 - (y - 1969) / 4 == if y % 4 == 0 then 1 else 0
  {
  }

  lemma EveryHundredth(y: int)
    ensures (y - 1900) / 100 - (y - 1901) / 100 == if y % 100 == 0 then 1 else 0
  {
  }

  lemma EveryFourHundredth(y: int)
    ensures (y - 1600) / 400 - (y - 1601) / 400 == if y % 400 == 0 then 1 else 0
  {
  }

  lemma {:induction false} YearsIncrease(y: int, z: int)
    requires y <= z
    ensures DayFromYear(z) >= DayFromYear(y) + 365 * (z - y)
    decreases z - y
  {
    if y < z {
      YearsIncrease(y, z - 1);
      YearStep(z - 1);
    }
  }

  lemma YearTable(y: int)
    ensures DaysBeforeMonth(y, 0) == 0
    ensures DaysBeforeMonth(y, 1) == 31
    ensures var l := if IsLeap(y) then 1 else 0;
            && DaysBeforeMonth(y, 2) == 59 + l
            && DaysBeforeMonth(y, 3) == 90 + l
            && DaysBeforeMonth(y, 4) == 120 + l
            && DaysBeforeMonth(y, 5) == 151 + l
            && DaysBeforeMonth(y, 6) == 181 + l
            && DaysBeforeMonth(y, 7) == 212 + l
            && DaysBeforeMonth(y, 8) == 243 + l
            && DaysBeforeMonth(y, 9) == 273 + l
            && DaysBeforeMonth(y, 10) == 304 + l
            && DaysBeforeMonth(y, 11) == 334 + l
            && DaysBeforeMonth(y, 12) == 365 + l
  {
    assert DaysBeforeMonth(y, 1) == 31;
    assert DaysBeforeMonth(y, 2) == DaysBeforeMonth(y, 1) + MonthLength(y, 1);
    assert DaysBeforeMonth(y, 4) == DaysBeforeMonth(y, 2) + 61;
    assert DaysBeforeMonth(y, 6) == DaysBeforeMonth(y, 4) + 61;
    assert DaysBeforeMonth(y, 8) == DaysBeforeMonth(y, 6) + 62;
    assert DaysBeforeMonth(y, 10) == DaysBeforeMonth(y, 8) + 61;
    assert DaysBeforeMonth(y, 12) == DaysBeforeMonth(y, 10) + 61;
  }

  /** Month lengths are positive, so month starts increase within a year. */
  lemma {:induction false} MonthsIncrease(y: int, m: int, n: int)
    requires 0 <= m < n <= 12
    ensures DaysBeforeMonth(y, n) >= DaysBeforeMonth(y, m) + MonthLength(y, m)
    decreases n
  {
    if m < n - 1 {
      MonthsIncrease(y, m, n - 1);
    }
  }

  /** The year a day falls in (YearFromTime), searched upwards from a year y. */
  function YearFrom(day: int, y: int): (r: int)
    requires DayFromYear(y) <= day
    ensures DayFromYear(r) <= day < DayFromYear(r + 1)
    decreases day - DayFromYear(y)
  {
    YearStep(y);
    if day < DayFromYear(y + 1) then y else YearFrom(day, y + 1)
  }

  function YearOf(day: int): (y: int)
    ensures DayFromYear(y) <= day < DayFromYear(y + 1)
  {
    var start := if day < 0 then 1970 + day / 365 else 1970;
    YearsIncrease(start, 1970);
    YearFrom(day, start)
  }

  function MonthOf(y: int, dayInYear: int): (m: int)
    requires 0 <= dayInYear < DaysBeforeMonth(y, 12)
    ensures 0 <= m < 12 && DaysBeforeMonth(y, m) <= dayInYear < DaysBeforeMonth(y, m + 1)
  {
    MonthFrom(y, dayInYear, 11)
  }

  function MonthFrom(y: int, dayInYear: int, m: int): (r: int)
    requires 0 <= m < 12 && 0 <= dayInYear < DaysBeforeMonth(y, m + 1)
    ensures 0 <= r < 12 && DaysBeforeMonth(y, r) <= dayInYear < DaysBeforeMonth(y, r + 1)
  {
    if DaysBeforeMonth(y, m) <= dayInYear then m else MonthFrom(y, dayInYear, m - 1)
  }

  /** The calendar date of a day number. */
  function CivilOf(day: int): (c: Civil)
    ensures IsDate(c) && DayNumber(c) == day
  {
    var y := YearOf(day);
    YearStep(y);
    YearTable(y);
    var m := MonthOf(y, day - DayFromYear(y));
    Civil(y, m, day - DayFromYear(y) - DaysBeforeMonth(y, m) + 1)
  }

  /** A date lies within its year and within its month. */
  lemma DateWithinYear(c: Civil)
    requires IsDate(c)
    ensures DayFromYear(c.year) <= DayNumber(c) < DayFromYear(c.year + 1)
    ensures DayNumber(c) == MakeDay(c.year, c.month, c.date)
  {
    hide DayFromYear;
    YearStep(c.year);
    YearTable(c.year);
    MonthsIncrease(c.year, c.month, 12);
    if c.month > 0 { MonthsIncrease(c.year, 0, c.month); }
  }

  /** Day numbers order dates as year, month and date do. */
  lemma DayNumberIncreases(a: Civil, b: Civil)
    requires IsDate(a) && IsDate(b) && Earlier(a, b)
    ensures DayNumber(a) < DayNumber(b)
  {
    hide DayFromYear, DaysBeforeMonth;
    DateWithinYear(a);
    DateWithinYear(b);
    if a.year < b.year {
      YearsIncrease(a.year + 1, b.year);
    } else if a.month < b.month {
      MonthsIncrease(a.year, a.month, b.month);
    }
  }

  lemma DayNumberOrder(a: Civil, b: Civil)
    requires IsDate(a) && IsDate(b)
    ensures Earlier(a, b) <==> DayNumber(a) < DayNumber(b)
    ensures a == b <==> DayNumber(a) == DayNumber(b)
  {
    if Earlier(a, b) {
      DayNumberIncreases(a, b);
    } else if Earlier(b, a) {
      DayNumberIncreases(b, a);
    } else {
      assert a == b;
    }
  }

  /** Reading back a written date: a triple survives MakeDay exactly when it is a real date. */
  lemma MakeDayRoundTrip(y: int, m: int, d: int)
    ensures CivilOf(MakeDay(y, m, d)) == Civil(y, m, d) <==> IsDate(Civil(y, m, d))
  {
    hide CivilOf, DayFromYear, DaysBeforeMonth;
    if IsDate(Civil(y, m, d)) {
      DayNumberOrder(CivilOf(MakeDay(y, m, d)), Civil(y, m, d));
    }
  }

  /** Day 0 of the next month is the last day of this one, by the Gregorian leap rule. */
  lemma DayZeroOfNextMonth(y: int, m: int)
    requires 0 <= m < 12
    ensures CivilOf(MakeDay(y, m + 1, 0)) == Civil(y, m, MonthLength(y, m))
  {
    YearStep(y);
    YearTable(y);
    var last := Civil(y, m, MonthLength(y, m));
    if m == 11 {
      assert MakeDay(y, 12, 0) == DayFromYear(y + 1) + DaysBeforeMonth(y + 1, 0) - 1;
    } else {
      assert (m + 1) / 12 == 0 && (m + 1) % 12 == m + 1;
    }
    assert DayNumber(last) == MakeDay(y, m + 1, 0);
    DayNumberOrder(CivilOf(MakeDay(y, m + 1, 0)), last);
  }

  /** 0 for Sunday to 6 for Saturday (WeekDay). */
  function Weekday(day: int): (w: int)
    ensures 0 <= w < 7
  {
    (day + 4) % 7
  }
}
