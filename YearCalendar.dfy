/**
  The whole-year booking calendar: twelve month grids of day numbers for the
  year on show, the ranges handed to them, the weekday header, and the day
  cell's booked and today marks.
*/
module YearCalendar {
  import opened Swift
  import opened Gregorian
  import opened Apartments
  import Seqs
  import DateRangePicker

  // ---------------------------------------------------------------------------
  // Ranges per year

  /** `calendar.component(.year, from: range.startDate)`. */
  function StartYear(r: BookingRange): int {
    YearOf(DayOf(r.startDate))
  }

  /** `bookedRangesForYear(_:)` as written: the ranges whose start falls in `year`, in their order. */
  function BookedRangesForYear(ranges: seq<BookingRange>, year: int): (r: seq<BookingRange>)
    ensures Seqs.IsSubsequence(r, ranges)
    ensures forall i :: 0 <= i < |r| ==> StartYear(r[i]) == year
    ensures forall i :: 0 <= i < |ranges| && StartYear(ranges[i]) == year ==> ranges[i] in r
    ensures forall x :: multiset(r)[x] == if StartYear(x) == year then multiset(ranges)[x] else 0
  {
    Seqs.Filter((x: BookingRange) => StartYear(x) == year, ranges)
  }

  /** An alternative to the start-year filter: the ranges that reach into `year`, started by its end and ended after its start. */
  function BookedRangesTouchingYear(ranges: seq<BookingRange>, year: int): (r: seq<BookingRange>)
    ensures Seqs.IsSubsequence(r, ranges)
    ensures forall i :: 0 <= i < |r| ==> StartYear(r[i]) <= year <= YearOf(DayOf(r[i].endDate))
    ensures forall i :: 0 <= i < |ranges| && StartYear(ranges[i]) <= year <= YearOf(DayOf(ranges[i].endDate)) ==> ranges[i] in r
    ensures forall x :: multiset(r)[x] == if StartYear(x) <= year <= YearOf(DayOf(x.endDate)) then multiset(ranges)[x] else 0
  {
    Seqs.Filter((x: BookingRange) => StartYear(x) <= year <= YearOf(DayOf(x.endDate)), ranges)
  }

  /** Later days lie in the same or a later year. */
  lemma YearOfMonotone(a: DayNumber, b: DayNumber)
    requires a <= b
    ensures YearOf(a) <= YearOf(b)
  {
    if YearOf(a) > YearOf(b) {
      DaysBeforeYearMonotone(YearOf(b), YearOf(a));
    }
  }

  /**
    A booking from late December into January is handed to its start year only, so the
    January cell of the next year's calendar is shown free although it is booked.
    (For example 30 December 2024 to 2 January 2025.)
  */
  lemma NewYearBookingMissing(r: BookingRange)
    requires r.Valid() && YearOf(DayOf(r.endDate)) == StartYear(r) + 1
    ensures var nextYear, newYearsDay := StartYear(r) + 1, DayStart(FirstDayOfMonth(StartYear(r) + 1, 1));
      && DateRangePicker.IsDateBooked([r], newYearsDay)
      && !DateRangePicker.IsDateBooked(BookedRangesForYear([r], nextYear), newYearsDay)
  {
    var y := StartYear(r);
    var newYearsDay := DayStart(FirstDayOfMonth(y + 1, 1));
    DayStartIsDay(FirstDayOfMonth(y + 1, 1));
    assert DayOf(r.startDate) < DaysBeforeYear(y + 1) <= DayOf(r.endDate);
    assert r.CoversDay(newYearsDay);
    DateRangePicker.IsDateBookedIffCovered([r], newYearsDay);
    assert [r][0] == r;
    assert BookedRangesForYear([r], y + 1) == [];
  }

  /** A range that covers a day of `year` reaches into `year`. */
  lemma CoveringRangeTouchesYear(r: BookingRange, date: Instant)
    requires r.CoversDay(date)
    ensures StartYear(r) <= YearOf(DayOf(date)) <= YearOf(DayOf(r.endDate))
  {
    YearOfMonotone(DayOf(r.startDate), DayOf(date));
    YearOfMonotone(DayOf(date), DayOf(r.endDate));
  }

  /** A sublist that keeps every range covering `date` covers `date` exactly when the whole list does. */
  lemma SublistKeepsCover(ranges: seq<BookingRange>, shown: seq<BookingRange>, date: Instant)
    requires forall j :: 0 <= j < |shown| ==> shown[j] in ranges
    requires forall i :: 0 <= i < |ranges| && ranges[i].CoversDay(date) ==> ranges[i] in shown
    ensures (exists i :: 0 <= i < |ranges| && ranges[i].CoversDay(date)) <==>
            (exists j :: 0 <= j < |shown| && shown[j].CoversDay(date))
  {
    if exists i :: 0 <= i < |ranges| && ranges[i].CoversDay(date) {
      var i :| 0 <= i < |ranges| && ranges[i].CoversDay(date);
      var j :| 0 <= j < |shown| && shown[j] == ranges[i];
    }
    if exists j :: 0 <= j < |shown| && shown[j].CoversDay(date) {
      var j :| 0 <= j < |shown| && shown[j].CoversDay(date);
      var i :| 0 <= i < |ranges| && ranges[i] == shown[j];
    }
  }

  /** Handing over the ranges that touch the year loses no booked day of that year. */
  lemma TouchingYearKeepsBookedDays(ranges: seq<BookingRange>, year: int, date: Instant)
    requires DateRangePicker.AllValid(ranges) && YearOf(DayOf(date)) == year
    ensures DateRangePicker.AllValid(BookedRangesTouchingYear(ranges, year))
    ensures DateRangePicker.IsDateBooked(BookedRangesTouchingYear(ranges, year), date) == DateRangePicker.IsDateBooked(ranges, date)
  {
    var shown := BookedRangesTouchingYear(ranges, year);
    forall j | 0 <= j < |shown|
      ensures shown[j] in ranges && shown[j].Valid()
    {
      var i :| 0 <= i < |ranges| && ranges[i] == shown[j];
    }
    forall i | 0 <= i < |ranges| && ranges[i].CoversDay(date)
      ensures ranges[i] in shown
    {
      CoveringRangeTouchesYear(ranges[i], date);
    }
    SublistKeepsCover(ranges, shown, date);
    DateRangePicker.IsDateBookedIffCovered(ranges, date);
    DateRangePicker.IsDateBookedIffCovered(shown, date);
  }

  // ---------------------------------------------------------------------------
  // The view and its year navigation

  class YearCalendarView {
    const bookedRanges: seq<BookingRange>
    var currentYear: int

    /** `init`: the year of today (`components.year` is always present in the Gregorian model). */
    constructor (bookedRanges: seq<BookingRange>, now: Instant)
      ensures this.bookedRanges == bookedRanges
      ensures DaysBeforeYear(currentYear) <= DayOf(now) < DaysBeforeYear(currentYear + 1)
    {
      this.bookedRanges := bookedRanges;
      currentYear := YearOf(DayOf(now));
    }

    /** `bookedRangesForYear(currentYear)`: the ranges each month view of the year on show receives. */
    function RangesShown(): (r: seq<BookingRange>)
      reads this
      ensures forall x :: x in r <==> x in bookedRanges && StartYear(x) == currentYear
    {
      BookedRangesForYear(bookedRanges, currentYear)
    }

    /** `previousYear()`. */
    method PreviousYear()
      modifies this
      ensures currentYear == old(currentYear) - 1
    {
      currentYear := currentYear - 1;
    }

    /** `nextYear()`. */
    method NextYear()
      modifies this
      ensures currentYear == old(currentYear) + 1
    {
      currentYear := currentYear + 1;
    }
  }

  // ---------------------------------------------------------------------------
  // One month

  /** `MonthView.daysInMonth`: `offset` blanks (zeros), then the day numbers 1 to the month's length. */
  function MonthDays(ym: YearMonth, firstWeekday: int): (days: seq<int>)
    requires ym.Valid() && 1 <= firstWeekday <= 7
    ensures |days| == DateRangePicker.Offset(ym, firstWeekday) + ym.Length()
    ensures forall i :: 0 <= i < |days| ==> (days[i] == 0 <==> i < DateRangePicker.Offset(ym, firstWeekday))
    ensures forall i :: 0 <= i < |days| && days[i] != 0 ==> ValidDate(ym.year, ym.month, days[i])
  {
    var offset := ColumnOffset(Weekday(ym.First()), firstWeekday);
    seq(offset, _ => 0) + seq(ym.Length(), i => i + 1)
  }

  /** The date a day cell stands for: `calendar.date(from: DateComponents(year:month:day:))`. */
  function CellDate(ym: YearMonth, day: int): Instant
    requires ym.Valid() && 1 <= day <= ym.Length()
  {
    DayStart(DayNumberOf(ym.year, ym.month, day))
  }

  /**
    Each non-blank entry sits where the picker's grid shows the same day, so it falls in
    the column of its own weekday.
  */
  lemma MonthDaysMatchGrid(ym: YearMonth, firstWeekday: int, i: int)
    requires ym.Valid() && 1 <= firstWeekday <= 7
    requires 0 <= i < |MonthDays(ym, firstWeekday)| && MonthDays(ym, firstWeekday)[i] != 0
    ensures CellDate(ym, MonthDays(ym, firstWeekday)[i]) == DateRangePicker.MonthGrid(ym, firstWeekday)[i]
    ensures Weekday(DayNumberOf(ym.year, ym.month, MonthDays(ym, firstWeekday)[i])) == (firstWeekday - 1 + i) % 7 + 1
  {
    var offset := DateRangePicker.Offset(ym, firstWeekday);
    assert MonthDays(ym, firstWeekday)[i] == i - offset + 1;
    DateRangePicker.MonthGridCell(ym, firstWeekday, i);
    DateRangePicker.MonthGridColumns(ym, firstWeekday, i);
    DayStartIsDay(DayNumberOf(ym.year, ym.month, i - offset + 1));
  }

  /** The header of one month: the standalone short names rotated to start on `firstWeekday`, first letters only. */
  function WeekdaySymbols(symbols: Option<seq<string>>, firstWeekday: int): (r: seq<string>)
    requires 1 <= firstWeekday <= 7
    requires symbols.Some? ==> firstWeekday - 1 <= |symbols.value|
    ensures symbols.None? ==> r == ["П", "В", "С", "Ч", "П", "С", "В"]
    ensures symbols.Some? ==> |r| == |symbols.value|
    ensures symbols.Some? ==> forall i :: 0 <= i < |r| ==>
      r[i] == FirstLetter(symbols.value[(firstWeekday - 1 + i) % |symbols.value|])
  {
    match symbols
    case None => ["П", "В", "С", "Ч", "П", "С", "В"]
    case Some(names) =>
      var startIndex := firstWeekday - 1;
      var rotated := names[startIndex..] + names[..startIndex];
      RotationIndices(names, startIndex);
      seq(|rotated|, i requires 0 <= i < |rotated| => FirstLetter(rotated[i]))
  }

  /** `s[k...] + s[..<k]` holds at position `i` the element `k + i` places on, counted round. */
  lemma RotationIndices<T>(s: seq<T>, k: int)
    requires 0 <= k <= |s|
    ensures |s[k..] + s[..k]| == |s|
    ensures forall i :: 0 <= i < |s| ==> (s[k..] + s[..k])[i] == s[(k + i) % |s|]
  {
    var r := s[k..] + s[..k];
    forall i | 0 <= i < |s|
      ensures r[i] == s[(k + i) % |s|]
    {
      ModOnce(k + i, |s|);
      if i < |s| - k {
        assert r[i] == s[k..][i];
      } else {
        assert r[i] == s[..k][i - (|s| - k)];
      }
    }
  }

  /** Reducing a number below twice the modulus takes at most one subtraction. */
  lemma ModOnce(x: int, n: int)
    requires 0 < n && 0 <= x < 2 * n
    ensures x % n == if x < n then x else x - n
  {
    if x < n {
      assert x == n * 0 + x;
    } else {
      assert x == n * 1 + (x - n);
    }
  }

  /** `String($0.prefix(1))`. */
  function FirstLetter(s: string): (r: string)
    ensures |r| == if s == [] then 0 else 1
    ensures r <= s
  {
    if s == [] then [] else s[..1]
  }

  // ---------------------------------------------------------------------------
  // One day cell

  /** The cell's `isBooked`: the picker's three-way test on the cell's date. */
  predicate IsBookedCell(ranges: seq<BookingRange>, ym: YearMonth, day: int)
    requires DateRangePicker.AllValid(ranges) && ym.Valid() && 1 <= day <= ym.Length()
  {
    DateRangePicker.IsDateBooked(ranges, CellDate(ym, day))
  }

  /** `calendar.isDate(date, inSameDayAs: Date())`. */
  predicate IsTodayCell(ym: YearMonth, day: int, now: Instant)
    requires ym.Valid() && 1 <= day <= ym.Length()
  {
    SameDay(CellDate(ym, day), now)
  }

  /** Exactly one cell of the year's calendar is today's. */
  lemma TodayIsOneCell(ym: YearMonth, day: int, now: Instant)
    requires ym.Valid() && 1 <= day <= ym.Length()
    ensures IsTodayCell(ym, day, now) <==> CivilOf(DayOf(now)) == Civil(ym.year, ym.month, day)
  {
    DayStartIsDay(DayNumberOf(ym.year, ym.month, day));
    CivilOfDayNumber(ym.year, ym.month, day);
  }

  datatype Tint = BlueTint | RedTint | NoTint

  /** The cell's background: today's circle wins over the booked one. */
  function Background(isToday: bool, isBooked: bool): (t: Tint)
    ensures t == BlueTint <==> isToday
    ensures t == RedTint <==> isBooked && !isToday
  {
    if isToday then BlueTint else if isBooked then RedTint else NoTint
  }

  /** The cell's text colour: booked wins over today. */
  function Foreground(isToday: bool, isBooked: bool): (c: Color)
    ensures c == Red <==> isBooked
    ensures c == Blue <==> isToday && !isBooked
    ensures c == Primary <==> !isToday && !isBooked
  {
    if isBooked then Red else if isToday then Blue else Primary
  }

  /** A booked today is drawn blue behind red text: the two layers rank the marks the other way round. */
  lemma LayersDisagreeOnBookedToday()
    ensures Background(true, true) == BlueTint && Foreground(true, true) == Red
  {
  }
}
