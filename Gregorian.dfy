/**
  An explicit proleptic Gregorian calendar in one fixed time zone without
  daylight-saving shifts. It stands in for the parts of Foundation's `Calendar`
  the booking views use: start of day, same-day tests, year/month/day
  components, month lengths, month arithmetic and the weekday number
  (1 = Sunday ... 7 = Saturday, Foundation's numbering).
*/
module Gregorian {

  /** An instant: seconds since 0001-01-01 00:00:00 in the fixed zone (negative before it). */
  type Instant = int

  /** A day number: whole days since 0001-01-01, which is day 0. */
  type DayNumber = int

  const SecondsPerDay: int := 86400

  /** The day an instant falls in (floor division: Dafny's `/` by a positive divisor). */
  function DayOf(t: Instant): DayNumber {
    t / SecondsPerDay
  }

  /** The first instant of a day. */
  function DayStart(n: DayNumber): Instant {
    n * SecondsPerDay
  }

  /** `calendar.startOfDay(for:)`. */
  function StartOfDay(t: Instant): (r: Instant)
    ensures r <= t < r + SecondsPerDay
    ensures DayOf(r) == DayOf(t)
    ensures r % SecondsPerDay == 0
  {
    DayStart(DayOf(t))
  }

  /** `calendar.isDate(a, inSameDayAs: b)`. */
  predicate SameDay(a: Instant, b: Instant) {
    DayOf(a) == DayOf(b)
  }

  lemma DayStartIsDay(n: DayNumber)
    ensures DayOf(DayStart(n)) == n
  {
  }

  /** Later instants never fall in earlier days. */
  lemma DayOfMonotone(a: Instant, b: Instant)
    requires a <= b
    ensures DayOf(a) <= DayOf(b)
  {
  }

  /** An instant in a strictly later day is strictly later. */
  lemma EarlierDayEarlierInstant(a: Instant, b: Instant)
    requires DayOf(a) < DayOf(b)
    ensures a < b
  {
    if b <= a {
      DayOfMonotone(b, a);
    }
  }

  // ---------------------------------------------------------------------------
  // Years and months

  predicate IsLeapYear(y: int) {
    (y % 4 == 0 && y % 100 != 0) || y % 400 == 0
  }

  function DaysInYear(y: int): (r: int)
    ensures r == 365 || r == 366
  {
    if IsLeapYear(y) then 366 else 365
  }

  /** `calendar.range(of: .day, in: .month, for:)` has this many days. */
  function DaysInMonth(y: int, m: int): (r: int)
    requires 1 <= m <= 12
    ensures 28 <= r <= 31
    ensures r == 29 <==> m == 2 && IsLeapYear(y)
  {
    if m == 2 then (if IsLeapYear(y) then 29 else 28)
    else if m == 4 || m == 6 || m == 9 || m == 11 then 30
    else 31
  }

  /** Days of year `y` before the first of month `m`; month 13 stands for the next January. */
  function DaysBeforeMonth(y: int, m: int): (r: int)
    requires 1 <= m <= 13
    ensures 0 <= r <= DaysInYear(y)
    ensures r == DaysInYear(y) <==> m == 13
  {
    var common := [0, 31, 59, 90, 120, 151, 181, 212, 243, 273, 304, 334, 365];
    common[m - 1] + (if m > 2 && IsLeapYear(y) then 1 else 0)
  }

  lemma DaysBeforeMonthStep(y: int, m: int)
    requires 1 <= m <= 12
    ensures DaysBeforeMonth(y, m + 1) == DaysBeforeMonth(y, m) + DaysInMonth(y, m)
  {
  }

  lemma DaysBeforeMonthMonotone(y: int, a: int, b: int)
    requires 1 <= a < b <= 13
    ensures DaysBeforeMonth(y, a + 1) <= DaysBeforeMonth(y, b)
  {
  }

  /** Days from 0001-01-01 to the first of January of year `y`. */
  function DaysBeforeYear(y: int): int {
    365 * (y - 1) + (y - 1) / 4 - (y - 1) / 100 + (y - 1) / 400
  }

  lemma DaysBeforeYearStep(y: int)
    ensures DaysBeforeYear(y + 1) == DaysBeforeYear(y) + DaysInYear(y)
  {
    var k := y - 1;
    assert (k + 1) / 4 == k / 4 + (if y % 4 == 0 then 1 else 0);
    assert (k + 1) / 100 == k / 100 + (if y % 100 == 0 then 1 else 0);
    assert (k + 1) / 400 == k / 400 + (if y % 400 == 0 then 1 else 0);
  }

  /** The calendar repeats every 400 years, which have 146097 days. */
  lemma DaysBeforeYearCycle(y: int, q: int)
    ensures DaysBeforeYear(y + 400 * q) == DaysBeforeYear(y) + 146097 * q
  {
    var k := y - 1;
    assert (k + 400 * q) / 4 == k / 4 + 100 * q;
    assert (k + 400 * q) / 100 == k / 100 + 4 * q;
    assert (k + 400 * q) / 400 == k / 400 + q;
  }

  lemma DaysBeforeYearMonotone(a: int, b: int)
    requires a < b
    ensures DaysBeforeYear(a + 1) <= DaysBeforeYear(b)
  {
    var i := a + 1;
    DaysBeforeYearStep(a);
    while i < b
      invariant a + 1 <= i <= b
      invariant DaysBeforeYear(a + 1) <= DaysBeforeYear(i)
    {
      DaysBeforeYearStep(i);
      i := i + 1;
    }
  }

  predicate ValidDate(y: int, m: int, d: int) {
    1 <= m <= 12 && 1 <= d <= DaysInMonth(y, m)
  }

  /** The day number of the first of (y, m). */
  function FirstDayOfMonth(y: int, m: int): DayNumber
    requires 1 <= m <= 12
  {
    DaysBeforeYear(y) + DaysBeforeMonth(y, m)
  }

  /** `calendar.date(from: DateComponents(year: y, month: m, day: d))`, as a day number. */
  function DayNumberOf(y: int, m: int, d: int): DayNumber
    requires ValidDate(y, m, d)
  {
    FirstDayOfMonth(y, m) + d - 1
  }

  // ---------------------------------------------------------------------------
  // From a day number back to year, month and day

  /** The year containing day `n`, found by stepping forward from year `y`. */
  function YearFrom(n: DayNumber, y: int): (r: int)
    requires DaysBeforeYear(y) <= n
    ensures DaysBeforeYear(r) <= n < DaysBeforeYear(r + 1)
    decreases n - DaysBeforeYear(y)
  {
    DaysBeforeYearStep(y);
    if n < DaysBeforeYear(y + 1) then y else YearFrom(n, y + 1)
  }

  /** `calendar.component(.year, from:)` of a day: whole 400-year cycles, then a search inside one. */
  function YearOf(n: DayNumber): (r: int)
    ensures DaysBeforeYear(r) <= n < DaysBeforeYear(r + 1)
  {
    var q := n / 146097;
    var y := YearFrom(n % 146097, 1);
    DaysBeforeYearCycle(y, q);
    DaysBeforeYearCycle(y + 1, q);
    assert y + 1 + 400 * q == (y + 400 * q) + 1;
    y + 400 * q
  }

  /** A day lies in exactly one year. */
  lemma YearOfUnique(n: DayNumber, y: int)
    requires DaysBeforeYear(y) <= n < DaysBeforeYear(y + 1)
    ensures YearOf(n) == y
  {
    var r := YearOf(n);
    if r < y {
      DaysBeforeYearMonotone(r, y);
    } else if y < r {
      DaysBeforeYearMonotone(y, r);
    }
  }

  /** The month of year `y` containing day-of-year `r`, found by stepping forward from month `m`. */
  function MonthFrom(y: int, r: int, m: int): (res: int)
    requires 1 <= m <= 12
    requires DaysBeforeMonth(y, m) <= r < DaysInYear(y)
    ensures 1 <= res <= 12
    ensures DaysBeforeMonth(y, res) <= r < DaysBeforeMonth(y, res + 1)
    decreases 12 - m
  {
    if r < DaysBeforeMonth(y, m + 1) then m else MonthFrom(y, r, m + 1)
  }

  datatype Civil = Civil(year: int, month: int, day: int)

  /** Year, month and day of a day number: the inverse of DayNumberOf. */
  function CivilOf(n: DayNumber): (c: Civil)
    ensures ValidDate(c.year, c.month, c.day)
    ensures DayNumberOf(c.year, c.month, c.day) == n
  {
    var y := YearOf(n);
    DaysBeforeYearStep(y);
    var r := n - DaysBeforeYear(y);
    var m := MonthFrom(y, r, 1);
    DaysBeforeMonthStep(y, m);
    Civil(y, m, r - DaysBeforeMonth(y, m) + 1)
  }

  /** Round trip the other way: the components of a valid date are recovered from its day number. */
  lemma CivilOfDayNumber(y: int, m: int, d: int)
    requires ValidDate(y, m, d)
    ensures CivilOf(DayNumberOf(y, m, d)) == Civil(y, m, d)
  {
    var n := DayNumberOf(y, m, d);
    DaysBeforeMonthStep(y, m);
    DaysBeforeYearStep(y);
    YearOfUnique(n, y);
    var c := CivilOf(n);
    if c.month < m {
      DaysBeforeMonthMonotone(y, c.month, m);
      DaysBeforeMonthStep(y, c.month);
    } else if m < c.month {
      DaysBeforeMonthMonotone(y, m, c.month);
    }
  }

  /** Two days are equal exactly when their calendar components are. */
  lemma DayNumberInjective(y1: int, m1: int, d1: int, y2: int, m2: int, d2: int)
    requires ValidDate(y1, m1, d1) && ValidDate(y2, m2, d2)
    ensures DayNumberOf(y1, m1, d1) == DayNumberOf(y2, m2, d2) <==> (y1, m1, d1) == (y2, m2, d2)
  {
    CivilOfDayNumber(y1, m1, d1);
    CivilOfDayNumber(y2, m2, d2);
  }

  // ---------------------------------------------------------------------------
  // Weekdays and month arithmetic

  /** `calendar.component(.weekday, from:)`: 1 = Sunday ... 7 = Saturday; 0001-01-01 is a Monday. */
  function Weekday(n: DayNumber): (w: int)
    ensures 1 <= w <= 7
  {
    (n + 1) % 7 + 1
  }

  lemma WeekdayNext(n: DayNumber)
    ensures Weekday(n + 1) == Weekday(n) % 7 + 1
  {
  }

  /** 1 February 2024 fell on a Thursday. */
  lemma WeekdayFebruary2024()
    ensures ValidDate(2024, 2, 1) && Weekday(DayNumberOf(2024, 2, 1)) == 5
    ensures DaysInMonth(2024, 2) == 29
  {
  }

  datatype YearMonth = YearMonth(year: int, month: int) {
    predicate Valid() {
      1 <= month <= 12
    }

    /** The day number of the month's first day. */
    function First(): DayNumber
      requires Valid()
    {
      FirstDayOfMonth(year, month)
    }

    /** `calendar.range(of: .day, in: .month, for:).count`. */
    function Length(): int
      requires Valid()
    {
      DaysInMonth(year, month)
    }
  }

  /** The month of a day: `calendar.dateInterval(of: .month, for:)` names this month. */
  function MonthOfDay(n: DayNumber): (ym: YearMonth)
    ensures ym.Valid()
    ensures FirstDayOfMonth(ym.year, ym.month) <= n < FirstDayOfMonth(ym.year, ym.month) + DaysInMonth(ym.year, ym.month)
  {
    var c := CivilOf(n);
    YearMonth(c.year, c.month)
  }

  /** `calendar.isDate(a, equalTo: b, toGranularity: .month)`. */
  predicate SameMonth(a: Instant, b: Instant) {
    MonthOfDay(DayOf(a)) == MonthOfDay(DayOf(b))
  }

  /** `calendar.date(byAdding: .month, value: 1, to:)` applied to the first of a month. */
  function NextMonth(ym: YearMonth): (r: YearMonth)
    requires ym.Valid()
    ensures r.Valid()
    ensures FirstDayOfMonth(r.year, r.month) == FirstDayOfMonth(ym.year, ym.month) + DaysInMonth(ym.year, ym.month)
  {
    DaysBeforeMonthStep(ym.year, ym.month);
    DaysBeforeYearStep(ym.year);
    if ym.month == 12 then YearMonth(ym.year + 1, 1) else YearMonth(ym.year, ym.month + 1)
  }

  /** `calendar.date(byAdding: .month, value: -1, to:)` applied to the first of a month. */
  function PreviousMonth(ym: YearMonth): (r: YearMonth)
    requires ym.Valid()
    ensures r.Valid()
    ensures FirstDayOfMonth(r.year, r.month) + DaysInMonth(r.year, r.month) == FirstDayOfMonth(ym.year, ym.month)
    ensures NextMonth(r) == ym
  {
    if ym.month == 1 then
      DaysBeforeYearStep(ym.year - 1);
      DaysBeforeMonthStep(ym.year - 1, 12);
      YearMonth(ym.year - 1, 12)
    else
      DaysBeforeMonthStep(ym.year, ym.month - 1);
      YearMonth(ym.year, ym.month - 1)
  }

  /** A day lies in the month that MonthOfDay gives and in no other. */
  lemma MonthOfDayUnique(n: DayNumber, ym: YearMonth)
    requires ym.Valid()
    requires FirstDayOfMonth(ym.year, ym.month) <= n < FirstDayOfMonth(ym.year, ym.month) + DaysInMonth(ym.year, ym.month)
    ensures MonthOfDay(n) == ym
  {
    var d := n - FirstDayOfMonth(ym.year, ym.month) + 1;
    assert n == DayNumberOf(ym.year, ym.month, d);
    CivilOfDayNumber(ym.year, ym.month, d);
  }

  /** The first of the month after `ym` lies in that month. */
  lemma NextMonthFirstDay(ym: YearMonth)
    requires ym.Valid()
    ensures MonthOfDay(NextMonth(ym).First()) == NextMonth(ym)
  {
    MonthOfDayUnique(NextMonth(ym).First(), NextMonth(ym));
  }

  /** The instant `s` seconds into day `n`. */
  function AtTimeOfDay(n: DayNumber, s: int): (r: Instant)
    requires 0 <= s < SecondsPerDay
    ensures DayOf(r) == n && r % SecondsPerDay == s
  {
    DayStart(n) + s
  }

  /** `calendar.date(bySetting: .day, value: day, of:)` applied to the first of `ym`: that month's `day`. */
  function DateBySettingDay(ym: YearMonth, day: int): (r: Instant)
    requires ym.Valid() && 1 <= day <= ym.Length()
    ensures r == DayStart(ym.First() + day - 1)
    ensures DayOf(r) == ym.First() + day - 1
    ensures CivilOf(DayOf(r)) == Civil(ym.year, ym.month, day)
  {
    CivilOfDayNumber(ym.year, ym.month, day);
    DayStart(DayNumberOf(ym.year, ym.month, day))
  }

  /**
    `(weekday - firstWeekday + 7) % 7`: how many cells precede a day of weekday `weekday`
    in a week row whose first column is `firstWeekday`.
  */
  function ColumnOffset(weekday: int, firstWeekday: int): (r: int)
    requires 1 <= weekday <= 7 && 1 <= firstWeekday <= 7
    ensures 0 <= r <= 6
    ensures (firstWeekday - 1 + r) % 7 + 1 == weekday
  {
    (weekday - firstWeekday + 7) % 7
  }

  /**
    `calendar.date(byAdding: .month, value: 1 or -1, to: t)`: the same day of the month,
    clamped to the length of the target month, at the same time of day.
  */
  function AddingMonth(t: Instant, forward: bool): (r: Instant)
    ensures r % SecondsPerDay == t % SecondsPerDay
    ensures var ym := MonthOfDay(DayOf(t));
      MonthOfDay(DayOf(r)) == if forward then NextMonth(ym) else PreviousMonth(ym)
    ensures var target := MonthOfDay(DayOf(r));
      CivilOf(DayOf(r)).day == Min(CivilOf(DayOf(t)).day, target.Length())
  {
    var c := CivilOf(DayOf(t));
    var ym := YearMonth(c.year, c.month);
    var target := if forward then NextMonth(ym) else PreviousMonth(ym);
    var day := Min(c.day, target.Length());
    var n := DayNumberOf(target.year, target.month, day);
    CivilOfDayNumber(target.year, target.month, day);
    assert CivilOf(n) == Civil(target.year, target.month, day);
    AtTimeOfDay(n, t % SecondsPerDay)
  }

  /** One month on from the start of the first of `ym` lies in the month after `ym`. */
  lemma AddingMonthToMonthStart(ym: YearMonth)
    requires ym.Valid()
    ensures MonthOfDay(DayOf(AddingMonth(DayStart(ym.First()), true))) == NextMonth(ym)
  {
    DayStartIsDay(ym.First());
    MonthOfDayUnique(ym.First(), ym);
  }

  function Min(a: int, b: int): int {
    if a <= b then a else b
  }
}
