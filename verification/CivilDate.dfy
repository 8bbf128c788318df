/** Civil-date arithmetic against the Gregorian calendar. */
module CivilDate {
  import opened Basics

  // --- the calendar, independently of the formula -----------------------------------

  predicate Leap(year: int) {
    year % 4 == 0 && (year % 100 != 0 || year % 400 == 0)
  }

  function DaysInMonth(year: int, month: int): (n: int)
    requires 1 <= month <= 12
    ensures 28 <= n <= 31
  {
    if month == 2 then (if Leap(year) then 29 else 28)
    else if month == 4 || month == 6 || month == 9 || month == 11 then 30
    else 31
  }

  datatype Date = Date(year: int, month: int, day: int)

  predicate Valid(d: Date) {
    1 <= d.month <= 12 && 1 <= d.day <= DaysInMonth(d.year, d.month)
  }

  function NextDay(d: Date): (n: Date)
    requires Valid(d)
    ensures Valid(n)
  {
    if d.day < DaysInMonth(d.year, d.month) then Date(d.year, d.month, d.day + 1)
    else if d.month < 12 then Date(d.year, d.month + 1, 1)
    else Date(d.year + 1, 1, 1)
  }

  /** Calendar order. */
  predicate Before(a: Date, b: Date) {
    a.year < b.year || (a.year == b.year && (a.month < b.month || (a.month == b.month && a.day < b.day)))
  }

  // --- the formula -------------------------------------------------------------------

  /** C++ integer division by a positive constant: towards zero. */
  function TruncDiv(a: int, b: int): int
    requires b > 0
  {
    if a >= 0 then a / b else -((-a) / b)
  }

  /** Day of the March-based year; the month shift is unsigned, so -3 wraps. */
  function DayOfYear(month: u32, day: u32): u32 {
    Wrap32(Wrap32(Wrap32(153 * Wrap32(month + (if month > 2 then 0x1_0000_0000 - 3 else 9))) + 2) / 5 + day - 1)
  }

  /** Days since 1970-01-01. */
  function CivilDays(year: int, month: u32, day: u32): int {
    var y := if month <= 2 then year - 1 else year;
    var era := TruncDiv(if y >= 0 then y else y - 399, 400);
    var yoe := Wrap32(y - era * 400);
    var doe := Wrap32(yoe * 365 + yoe / 4 - yoe / 100 + DayOfYear(month, day));
    era * 146097 + doe - 719468
  }

  function DaysOf(d: Date): int
    requires Valid(d)
  {
    CivilDays(d.year, d.month, d.day)
  }

  // --- the formula counts calendar days ------------------------------------------------

  /** Truncated division of the shifted year is the floor, so the year of the era is 0..399. */
  lemma EraIsFloor(y: int)
    ensures TruncDiv(if y >= 0 then y else y - 399, 400) == y / 400
    ensures 0 <= y - (y / 400) * 400 < 400
  {}

  /** The day of the March-based year as a table over the months. */
  function MonthStart(month: int): int
    requires 1 <= month <= 12
  {
    [306, 337, 0, 31, 61, 92, 122, 153, 184, 214, 245, 275][month - 1]
  }

  lemma DayOfYearIs(month: u32, day: u32)
    requires 1 <= month <= 12 && 1 <= day <= 31
    ensures DayOfYear(month, day) == MonthStart(month) + day - 1 <= 367
    ensures 0 <= MonthStart(month)
  {
    var shifted: nat := if month > 2 then month - 3 else month + 9;
    WrapIs(month + (if month > 2 then 0x1_0000_0000 - 3 else 9), shifted, if month > 2 then 1 else 0);
    WrapIs(153 * shifted, 153 * shifted, 0);
    WrapIs(153 * shifted + 2, 153 * shifted + 2, 0);
    MonthStartIs(month, shifted);
    WrapIs(MonthStart(month) + day - 1, MonthStart(month) + day - 1, 0);
  }

  lemma MonthStartIs(month: int, shifted: nat)
    requires 1 <= month <= 12 && shifted == if month > 2 then month - 3 else month + 9
    ensures (153 * shifted + 2) / 5 == MonthStart(month)
    ensures 0 <= MonthStart(month) <= 337
  {
    if month <= 6 {
      if month == 1 {} else if month == 2 {} else if month == 3 {} else if month == 4 {} else if month == 5 {}
    } else {
      if month == 7 {} else if month == 8 {} else if month == 9 {} else if month == 10 {} else if month == 11 {}
    }
  }

  /** Days before the March-based year `y`, without eras. */
  function YearStart(y: int): int {
    y * 365 + y / 4 - y / 100 + y / 400 - 719468
  }

  lemma CivilDaysIs(year: int, month: u32, day: u32)
    requires 1 <= month <= 12 && 1 <= day <= 31
    ensures CivilDays(year, month, day) ==
            YearStart(if month <= 2 then year - 1 else year) + MonthStart(month) + day - 1
  {
    var y := if month <= 2 then year - 1 else year;
    EraIsFloor(y);
    DayOfYearIs(month, day);
    var era, yoe := y / 400, y % 400;
    assert y == era * 400 + yoe;
    QuarterDays(era, yoe);
    WrapIs(y - era * 400, yoe, 0);
    var doe := yoe * 365 + yoe / 4 - yoe / 100 + (MonthStart(month) + day - 1);
    EraDayIs(yoe, MonthStart(month) + day - 1);
    assert CivilDays(year, month, day) == era * 146097 + doe - 719468;
  }

  lemma EraDayIs(yoe: int, doy: int)
    requires 0 <= yoe < 400 && 0 <= doy <= 367
    ensures Wrap32(yoe * 365 + yoe / 4 - yoe / 100 + doy) == yoe * 365 + yoe / 4 - yoe / 100 + doy
  {
    WrapIs(yoe * 365 + yoe / 4 - yoe / 100 + doy, yoe * 365 + yoe / 4 - yoe / 100 + doy, 0);
  }

  lemma QuarterDays(era: int, yoe: int)
    requires 0 <= yoe < 400
    ensures (era * 400 + yoe) / 4 == era * 100 + yoe / 4
    ensures (era * 400 + yoe) / 100 == era * 4 + yoe / 100
    ensures (era * 400 + yoe) / 400 == era
  {}

  /** Consecutive March-based years are 365 or, when the closing February is a leap one, 366 days apart. */
  lemma YearLength(y: int)
    ensures YearStart(y) - YearStart(y - 1) == if Leap(y) then 366 else 365
  {
    StepOf4(y);
    StepOf100(y);
    StepOf400(y);
    Divisors(y);
  }

  lemma Divisors(y: int)
    ensures y % 400 == 0 ==> y % 100 == 0
    ensures y % 100 == 0 ==> y % 4 == 0
  {
    if y % 400 == 0 { HundredTimes(4 * (y / 400)); }
    if y % 100 == 0 { FourTimes(25 * (y / 100)); }
  }

  lemma HundredTimes(q: int)
    ensures (100 * q) % 100 == 0
  {}

  lemma FourTimes(q: int)
    ensures (4 * q) % 4 == 0
  {}

  lemma StepOf4(y: int)
    ensures y / 4 - (y - 1) / 4 == if y % 4 == 0 then 1 else 0
  {}

  lemma StepOf100(y: int)
    ensures y / 100 - (y - 1) / 100 == if y % 100 == 0 then 1 else 0
  {}

  lemma StepOf400(y: int)
    ensures y / 400 - (y - 1) / 400 == if y % 400 == 0 then 1 else 0
  {}

  /** The day count of the table form. */
  function TableDays(d: Date): int
    requires 1 <= d.month <= 12
  {
    YearStart(if d.month <= 2 then d.year - 1 else d.year) + MonthStart(d.month) + d.day - 1
  }

  lemma NextTableDay(d: Date)
    requires Valid(d)
    ensures TableDays(NextDay(d)) == TableDays(d) + 1
  {
    if d.month == 2 { YearLength(d.year); }
  }

  /** Every calendar day counts exactly one, across months, leap days and centuries, and the epoch is 0. */
  lemma NextDayCountsOne(d: Date)
    requires Valid(d)
    ensures DaysOf(NextDay(d)) == DaysOf(d) + 1
    ensures DaysOf(Date(1970, 1, 1)) == 0
  {
    DaysFromTable(d);
    DaysFromTable(NextDay(d));
    DaysFromTable(Date(1970, 1, 1));
    NextTableDay(d);
    assert TableDays(Date(1970, 1, 1)) == 0;
  }

  lemma DaysFromTable(d: Date)
    requires Valid(d)
    ensures DaysOf(d) == TableDays(d)
  {
    CivilDaysIs(d.year, d.month, d.day);
  }

  /** Walking `n` days on adds exactly `n`. */
  function AfterDays(d: Date, n: nat): (r: Date)
    requires Valid(d)
    ensures Valid(r)
  {
    if n == 0 then d else NextDay(AfterDays(d, n - 1))
  }

  lemma {:induction false} DaysAreExact(d: Date, n: nat)
    requires Valid(d)
    ensures DaysOf(AfterDays(d, n)) == DaysOf(d) + n
  {
    if n > 0 {
      DaysAreExact(d, n - 1);
      NextDayCountsOne(AfterDays(d, n - 1));
    }
  }

  function Rank(d: Date): int {
    (d.year * 12 + d.month) * 31 + d.day
  }

  /** The day count orders dates as the calendar does, so equal counts mean equal dates. */
  lemma {:induction false} StrictlyMonotone(a: Date, b: Date)
    requires Valid(a) && Valid(b) && Before(a, b)
    ensures DaysOf(a) < DaysOf(b)
    decreases Rank(b) - Rank(a)
  {
    var n := NextDay(a);
    NextDayCountsOne(a);
    if n != b {
      assert Before(n, b);
      StrictlyMonotone(n, b);
    }
  }

  lemma CountsDetermineDates(a: Date, b: Date)
    requires Valid(a) && Valid(b)
    ensures DaysOf(a) < DaysOf(b) <==> Before(a, b)
    ensures DaysOf(a) == DaysOf(b) <==> a == b
  {
    if Before(a, b) { StrictlyMonotone(a, b); }
    if Before(b, a) { StrictlyMonotone(b, a); }
  }

  // --- weekdays -------------------------------------------------------------------------

  /** Weekday counted from Sunday = 0. */
  function Weekday(year: int, month: u32, day: u32): (w: int)
    ensures 0 <= w <= 6
  {
    (CivilDays(year, month, day) + 4) % 7
  }

  /** The weekday function is the calendar's: 1970-01-01 is a Thursday and every next day is the next weekday. */
  lemma WeekdayIsTrue(d: Date)
    requires Valid(d)
    ensures Weekday(1970, 1, 1) == 4
    ensures var n := NextDay(d); Weekday(n.year, n.month, n.day) == (Weekday(d.year, d.month, d.day) + 1) % 7
  {
    NextDayCountsOne(d);
    CivilDaysIs(1970, 1, 1);
    NextResidue(DaysOf(d) + 4);
  }

  lemma NextResidue(x: int)
    ensures (x + 1) % 7 == (x % 7 + 1) % 7
  {}

  // --- seconds --------------------------------------------------------------------------

  datatype DateTime = DateTime(year: u16, month: u8, day: u8, hour: u8, minute: u8, second: u8)

  function CivilSeconds(t: DateTime): int {
    CivilDays(t.year, t.month, t.day) * 86400 + t.hour * 3600 + t.minute * 60 + t.second
  }

  predicate ValidTime(t: DateTime) {
    Valid(Date(t.year, t.month, t.day)) && t.hour <= 23 && t.minute <= 59 && t.second <= 59
  }

  /** One second later, for any time whose day has a successor below year 65536. */
  function NextSecond(t: DateTime): (n: DateTime)
    requires ValidTime(t) && t.year < 0xFFFF
    ensures ValidTime(n)
  {
    if t.second < 59 then t.(second := t.second + 1)
    else if t.minute < 59 then t.(minute := t.minute + 1, second := 0)
    else if t.hour < 23 then t.(hour := t.hour + 1, minute := 0, second := 0)
    else
      var d := NextDay(Date(t.year, t.month, t.day));
      DateTime(d.year, d.month, d.day, 0, 0, 0)
  }

  /** The drift a sync compares is exact: each elapsed second adds one. */
  lemma NextSecondCountsOne(t: DateTime)
    requires ValidTime(t) && t.year < 0xFFFF
    ensures CivilSeconds(NextSecond(t)) == CivilSeconds(t) + 1
  {
    NextDayCountsOne(Date(t.year, t.month, t.day));
  }

  /** `b` is `n` seconds after `a`, counted one by one. */
  predicate SecondsLater(a: DateTime, b: DateTime, n: nat)
    decreases n
  {
    if n == 0 then a == b else ValidTime(a) && a.year < 0xFFFF && SecondsLater(NextSecond(a), b, n - 1)
  }

  lemma {:induction false} SecondsCount(a: DateTime, b: DateTime, n: nat)
    requires SecondsLater(a, b, n)
    ensures CivilSeconds(b) == CivilSeconds(a) + n
    decreases n
  {
    if n > 0 {
      NextSecondCountsOne(a);
      SecondsCount(NextSecond(a), b, n - 1);
    }
  }
}
