/**
  The month picker used to choose a booking range: a six-week grid of day
  cells for the month on show, month navigation, and the per-cell booked,
  selected and colour tests.
*/
module DateRangePicker {
  import opened Swift
  import opened Gregorian
  import opened Apartments
  import opened DateSelection

  // ---------------------------------------------------------------------------
  // The six-week grid

  /** `count` consecutive day cells, the first on day `start`. */
  function Cells(start: DayNumber, count: nat): (r: seq<Instant>)
    ensures |r| == count
  {
    seq(count, i => DayStart(start + i))
  }

  /** Two runs of cells that meet form one run. */
  lemma CellsSplit(start: DayNumber, a: nat, b: nat)
    ensures Cells(start, a) + Cells(start + a, b) == Cells(start, a + b)
  {
    var joined, whole := Cells(start, a) + Cells(start + a, b), Cells(start, a + b);
    forall i | 0 <= i < a + b
      ensures joined[i] == whole[i]
    {
    }
  }

  /** Cells before the first of `ym` when week rows start on `firstWeekday` (`daysToAdd`). */
  function Offset(ym: YearMonth, firstWeekday: int): int
    requires ym.Valid() && 1 <= firstWeekday <= 7
  {
    ColumnOffset(Weekday(ym.First()), firstWeekday)
  }

  /** The intended grid: 42 consecutive days from the start of the week row that holds the first of `ym`. */
  function MonthGrid(ym: YearMonth, firstWeekday: int): (g: seq<Instant>)
    requires ym.Valid() && 1 <= firstWeekday <= 7
    ensures |g| == 42
  {
    Cells(ym.First() - Offset(ym, firstWeekday), 42)
  }

  /**
    The grid as `daysInMonth` builds it: the leading and in-month cells of MonthGrid,
    then trailing cells taken from the month after the next one.
  */
  function MonthGridAsWritten(ym: YearMonth, firstWeekday: int): (g: seq<Instant>)
    requires ym.Valid() && 1 <= firstWeekday <= 7
    ensures |g| == 42
  {
    var offset := Offset(ym, firstWeekday);
    var n := ym.Length();
    Cells(ym.First() - offset, offset + n) + Cells(NextMonth(NextMonth(ym)).First(), 42 - offset - n)
  }

  /**
    The first two stages of `daysInMonth`: the tail of the previous month that fills the
    first week row, then every day of the month. Returns the cells and the loop's final
    `current`, the start of the next month.
  */
  method LeadingAndMonthDays(ym: YearMonth, firstWeekday: int) returns (dates: seq<Instant>, current: Instant)
    requires ym.Valid() && 1 <= firstWeekday <= 7
    ensures dates == Cells(ym.First() - Offset(ym, firstWeekday), Offset(ym, firstWeekday) + ym.Length())
    ensures current == DayStart(NextMonth(ym).First())
  {
    var rangeStart := DayStart(ym.First());
    var rangeEnd := DayStart(NextMonth(ym).First());
    dates := [];
    current := rangeStart;
    DayStartIsDay(ym.First());
    var firstWeekdayOfMonth := Weekday(DayOf(current));
    var daysToAdd := (firstWeekdayOfMonth - firstWeekday + 7) % 7;
    assert daysToAdd == Offset(ym, firstWeekday);
    if daysToAdd > 0 {
      var prevMonth := PreviousMonth(ym);
      var prevMonthDays := prevMonth.Length();
      var startDay := prevMonthDays - daysToAdd + 1;
      for day := startDay to prevMonthDays + 1
        invariant |dates| == day - startDay
        invariant forall i :: 0 <= i < |dates| ==> dates[i] == DayStart(ym.First() - daysToAdd + i)
      {
        dates := dates + [DateBySettingDay(prevMonth, day)];
      }
    }
    while current < rangeEnd
      invariant daysToAdd <= |dates| <= daysToAdd + ym.Length()
      invariant current == DayStart(ym.First() + |dates| - daysToAdd)
      invariant forall i :: 0 <= i < |dates| ==> dates[i] == DayStart(ym.First() - daysToAdd + i)
      decreases rangeEnd - current
    {
      dates := dates + [current];
      current := current + SecondsPerDay;  // `date(byAdding: .day, value: 1, to:)` in a zone without DST
    }
  }

  /** The last stage of `daysInMonth`: days 1 to `count` of `month` appended to the cells. */
  method AppendFirstDays(dates: seq<Instant>, month: YearMonth, count: int) returns (result: seq<Instant>)
    requires month.Valid() && 0 <= count <= month.Length()
    ensures result == dates + Cells(month.First(), count)
  {
    result := dates;
    for day := 1 to count + 1
      invariant |result| == |dates| + day - 1
      invariant result[..|dates|] == dates
      invariant forall j :: |dates| <= j < |result| ==> result[j] == DayStart(month.First() + j - |dates|)
    {
      var cell := DateBySettingDay(month, day);
      assert cell == DayStart(month.First() + day - 1);
      result := result + [cell];
    }
    assert result == result[..|dates|] + result[|dates|..];
  }

  /** The trailing stage as written: `current` is moved on one month more before the days are set. */
  method TrailingAsWritten(ym: YearMonth, dates: seq<Instant>, current: Instant) returns (result: seq<Instant>)
    requires ym.Valid() && |dates| <= 42
    requires 42 - |dates| <= NextMonth(NextMonth(ym)).Length()
    requires current == DayStart(NextMonth(ym).First())
    ensures result == dates + Cells(NextMonth(NextMonth(ym)).First(), 42 - |dates|)
  {
    result := dates;
    var remaining := 42 - |dates|;
    if remaining > 0 {
      AddingMonthToMonthStart(NextMonth(ym));
      var nextMonth := MonthOfDay(DayOf(AddingMonth(current, true)));
      result := AppendFirstDays(dates, nextMonth, remaining);
    }
  }

  /** `daysInMonth` exactly as written: the trailing cells come from one month too far on. */
  method DaysInMonthAsWritten(currentMonth: Instant, firstWeekday: int) returns (dates: seq<Instant>)
    requires 1 <= firstWeekday <= 7
    ensures dates == MonthGridAsWritten(MonthOfDay(DayOf(currentMonth)), firstWeekday)
  {
    var ym := MonthOfDay(DayOf(currentMonth));
    var current;
    var offset, n, later := Offset(ym, firstWeekday), ym.Length(), NextMonth(NextMonth(ym));
    assert 28 <= n && 28 <= later.Length();
    dates, current := LeadingAndMonthDays(ym, firstWeekday);
    assert |dates| == offset + n;
    dates := TrailingAsWritten(ym, dates, current);
    assert dates == Cells(ym.First() - offset, offset + n) + Cells(later.First(), 42 - offset - n);
  }

  /** The trailing stage with the days set in the month that `current` has reached. */
  method Trailing(ym: YearMonth, dates: seq<Instant>, current: Instant) returns (result: seq<Instant>)
    requires ym.Valid() && |dates| <= 42
    requires 42 - |dates| <= NextMonth(ym).Length()
    requires current == DayStart(NextMonth(ym).First())
    ensures result == dates + Cells(NextMonth(ym).First(), 42 - |dates|)
  {
    result := dates;
    var remaining := 42 - |dates|;
    if remaining > 0 {
      DayStartIsDay(NextMonth(ym).First());
      NextMonthFirstDay(ym);
      var nextMonth := MonthOfDay(DayOf(current));
      result := AppendFirstDays(dates, nextMonth, remaining);
    }
  }

  /** `daysInMonth` with the trailing cells taken from the month that `current` has reached. */
  method DaysInMonth(currentMonth: Instant, firstWeekday: int) returns (dates: seq<Instant>)
    requires 1 <= firstWeekday <= 7
    ensures dates == MonthGrid(MonthOfDay(DayOf(currentMonth)), firstWeekday)
  {
    var ym := MonthOfDay(DayOf(currentMonth));
    var current;
    dates, current := LeadingAndMonthDays(ym, firstWeekday);
    var start, count := ym.First() - Offset(ym, firstWeekday), |dates|;
    dates := Trailing(ym, dates, current);
    CellsSplit(start, count, 42 - count);
  }

  // ---------------------------------------------------------------------------
  // What the grid shows

  /** Counting `i` days on from `offset` days before `first`, the weekday advances with `i` from `firstWeekday`. */
  lemma ConsecutiveWeekdays(first: DayNumber, firstWeekday: int, i: int)
    requires 1 <= firstWeekday <= 7
    ensures Weekday(first - ColumnOffset(Weekday(first), firstWeekday) + i) == (firstWeekday - 1 + i) % 7 + 1
  {
    var w := Weekday(first);
    var offset := ColumnOffset(w, firstWeekday);
    var a := (first + 1) / 7;
    var b := (firstWeekday - 1 + offset) / 7;
    assert first + 1 == 7 * a + w - 1;
    assert firstWeekday - 1 + offset == 7 * b + w - 1;
    assert first - offset + i + 1 == (firstWeekday - 1 + i) + 7 * (a - b);
  }

  /** Column `i % 7` always holds the same weekday, counted from `firstWeekday`. */
  lemma MonthGridColumns(ym: YearMonth, firstWeekday: int, i: int)
    requires ym.Valid() && 1 <= firstWeekday <= 7 && 0 <= i < 42
    ensures Weekday(DayOf(MonthGrid(ym, firstWeekday)[i])) == (firstWeekday - 1 + i) % 7 + 1
  {
    var first := ym.First();
    DayStartIsDay(first - Offset(ym, firstWeekday) + i);
    ConsecutiveWeekdays(first, firstWeekday, i);
  }

  /**
    Leading cells are the last `Offset` days of the previous month, the next `Length` cells
    are the month's days 1, 2, ... in order, and the remaining cells are days 1, 2, ... of
    the following month.
  */
  lemma MonthGridCell(ym: YearMonth, firstWeekday: int, i: int)
    requires ym.Valid() && 1 <= firstWeekday <= 7 && 0 <= i < 42
    ensures var g, offset, n := MonthGrid(ym, firstWeekday), Offset(ym, firstWeekday), ym.Length();
      var prev, next := PreviousMonth(ym), NextMonth(ym);
      && (i < offset ==> g[i] == DateBySettingDay(prev, prev.Length() - offset + 1 + i))
      && (offset <= i < offset + n ==> g[i] == DateBySettingDay(ym, i - offset + 1))
      && (offset + n <= i ==> g[i] == DateBySettingDay(next, i - offset - n + 1))
  {
    var g, offset, n := MonthGrid(ym, firstWeekday), Offset(ym, firstWeekday), ym.Length();
    var first := ym.First();
    assert g[i] == DayStart(first - offset + i);
    var prev, next := PreviousMonth(ym), NextMonth(ym);
    if i < offset {
      assert prev.First() + prev.Length() == first;
      var d := prev.Length() - offset + 1 + i;
      assert DateBySettingDay(prev, d) == DayStart(prev.First() + d - 1);
    } else if i < offset + n {
      assert DateBySettingDay(ym, i - offset + 1) == DayStart(first + i - offset);
    } else {
      assert next.First() == first + n;
      var d := i - offset - n + 1;
      assert DateBySettingDay(next, d) == DayStart(next.First() + d - 1);
    }
  }

  /** A cell belongs to the month on show exactly when it lies in the middle stretch. */
  lemma MonthGridInMonth(ym: YearMonth, firstWeekday: int, i: int)
    requires ym.Valid() && 1 <= firstWeekday <= 7 && 0 <= i < 42
    ensures var offset := Offset(ym, firstWeekday);
      MonthOfDay(DayOf(MonthGrid(ym, firstWeekday)[i])) == ym <==> offset <= i < offset + ym.Length()
  {
    MonthGridCell(ym, firstWeekday, i);
    var offset := Offset(ym, firstWeekday);
    if i < offset {
      assert MonthOfDay(DayOf(MonthGrid(ym, firstWeekday)[i])) == PreviousMonth(ym);
      assert PreviousMonth(ym).First() < ym.First();
    } else if i >= offset + ym.Length() {
      assert MonthOfDay(DayOf(MonthGrid(ym, firstWeekday)[i])) == NextMonth(ym);
      assert NextMonth(ym).First() > ym.First();
    }
  }

  /** Every day of the month is on show, in its own cell; the grid always ends with some padding. */
  lemma MonthGridShowsEveryDay(ym: YearMonth, firstWeekday: int, d: int)
    requires ym.Valid() && 1 <= firstWeekday <= 7 && 1 <= d <= ym.Length()
    ensures Offset(ym, firstWeekday) + ym.Length() <= 37
    ensures MonthGrid(ym, firstWeekday)[Offset(ym, firstWeekday) + d - 1] == DateBySettingDay(ym, d)
  {
  }

  /** The grid of February 2024 with Monday-first rows: three January cells, then the 29 days. */
  lemma February2024Grid()
    ensures var ym := YearMonth(2024, 2);
      Offset(ym, 2) == 3 && ym.Length() == 29 &&
      MonthGrid(ym, 2)[2] == DayStart(DayNumberOf(2024, 1, 31)) &&
      MonthGrid(ym, 2)[3] == DayStart(DayNumberOf(2024, 2, 1)) &&
      MonthGrid(ym, 2)[31] == DayStart(DayNumberOf(2024, 2, 29)) &&
      MonthGrid(ym, 2)[32] == DayStart(DayNumberOf(2024, 3, 1))
  {
    var ym := YearMonth(2024, 2);
    WeekdayFebruary2024();
    assert Weekday(ym.First()) == 5;
    assert Offset(ym, 2) == 3;
    assert PreviousMonth(ym) == YearMonth(2024, 1) && NextMonth(ym) == YearMonth(2024, 3);
    assert MonthGrid(ym, 2)[2] == DayStart(ym.First() - 1);
    assert MonthGrid(ym, 2)[32] == DayStart(ym.First() + 29);
  }

  /** As written, the grid agrees with MonthGrid up to and including the month's last day. */
  lemma AsWrittenAgreesThroughMonth(ym: YearMonth, firstWeekday: int, i: int)
    requires ym.Valid() && 1 <= firstWeekday <= 7 && 0 <= i < Offset(ym, firstWeekday) + ym.Length()
    ensures MonthGridAsWritten(ym, firstWeekday)[i] == MonthGrid(ym, firstWeekday)[i]
  {
  }

  /**
    As written, every trailing cell shows a day of the month after the next one,
    so it differs from the corrected grid's cell.
  */
  lemma AsWrittenTrailingCells(ym: YearMonth, firstWeekday: int, i: int)
    requires ym.Valid() && 1 <= firstWeekday <= 7
    requires Offset(ym, firstWeekday) + ym.Length() <= i < 42
    ensures var g, d := MonthGridAsWritten(ym, firstWeekday), i - Offset(ym, firstWeekday) - ym.Length() + 1;
      && g[i] == DateBySettingDay(NextMonth(NextMonth(ym)), d)
      && MonthOfDay(DayOf(g[i])) != NextMonth(ym)
      && g[i] != MonthGrid(ym, firstWeekday)[i]
  {
    var g, offset, n := MonthGridAsWritten(ym, firstWeekday), Offset(ym, firstWeekday), ym.Length();
    var next := NextMonth(ym);
    var later := NextMonth(next);
    var d := i - offset - n + 1;
    assert g[i] == DayStart(later.First() + d - 1);
    assert DateBySettingDay(later, d) == g[i];
    assert MonthOfDay(DayOf(g[i])) == later;
    assert later.First() == next.First() + next.Length();
    assert MonthGrid(ym, firstWeekday)[i] == DayStart(next.First() + d - 1);
  }

  /** April 2025 with Sunday-first rows: the cell after 30 April shows 1 June instead of 1 May. */
  lemma AsWrittenApril2025()
    ensures var ym := YearMonth(2025, 4);
      Offset(ym, 1) == 2 && ym.Length() == 30 &&
      MonthGridAsWritten(ym, 1)[32] == DayStart(DayNumberOf(2025, 6, 1)) &&
      MonthGrid(ym, 1)[32] == DayStart(DayNumberOf(2025, 5, 1))
  {
    var ym := YearMonth(2025, 4);
    assert DaysBeforeYear(2025) == 739251;
    assert ym.First() == 739341;
    assert Weekday(739341) == 3;
    assert Offset(ym, 1) == 2;
    assert NextMonth(ym) == YearMonth(2025, 5);
    assert NextMonth(NextMonth(ym)) == YearMonth(2025, 6);
    assert MonthGridAsWritten(ym, 1)[32] == DayStart(YearMonth(2025, 6).First());
    assert MonthGrid(ym, 1)[32] == DayStart(ym.First() + 30);
  }

  // ---------------------------------------------------------------------------
  // Day cells

  predicate AllValid(ranges: seq<BookingRange>) {
    forall i :: 0 <= i < |ranges| ==> ranges[i].Valid()
  }

  /** One range's test inside `isDateBooked(_:)`: either end's day, or inside the closed range. */
  predicate RangeBooks(r: BookingRange, date: Instant)
    requires r.Valid()
  {
    SameDay(date, r.startDate) || SameDay(date, r.endDate) || Through(r.startDate, r.endDate).Contains(date)
  }

  /** `isDateBooked(_:)`. */
  predicate IsDateBooked(ranges: seq<BookingRange>, date: Instant)
    requires AllValid(ranges)
  {
    exists i :: 0 <= i < |ranges| && RangeBooks(ranges[i], date)
  }

  /** A range books a date exactly when it covers that date's calendar day. */
  lemma RangeBooksIffCoversDay(r: BookingRange, date: Instant)
    requires r.Valid()
    ensures RangeBooks(r, date) <==> r.CoversDay(date)
  {
    DayOfMonotone(r.startDate, r.endDate);
    if r.startDate <= date <= r.endDate {
      DayOfMonotone(r.startDate, date);
      DayOfMonotone(date, r.endDate);
    }
    if r.CoversDay(date) && !SameDay(date, r.startDate) && !SameDay(date, r.endDate) {
      EarlierDayEarlierInstant(r.startDate, date);
      EarlierDayEarlierInstant(date, r.endDate);
    }
  }

  /** A cell is booked exactly when some range covers its day. */
  lemma IsDateBookedIffCovered(ranges: seq<BookingRange>, date: Instant)
    requires AllValid(ranges)
    ensures IsDateBooked(ranges, date) <==> exists i :: 0 <= i < |ranges| && ranges[i].CoversDay(date)
  {
    forall i | 0 <= i < |ranges|
      ensures RangeBooks(ranges[i], date) <==> ranges[i].CoversDay(date)
    {
      RangeBooksIffCoversDay(ranges[i], date);
    }
  }

  /**
    For a grid cell (a day start) and ranges that start at a day start, the two same-day
    checks add nothing: the cell is booked exactly when it lies inside some range.
  */
  lemma BookedCellIffInside(ranges: seq<BookingRange>, date: Instant)
    requires AllValid(ranges)
    requires forall i :: 0 <= i < |ranges| ==> ranges[i].startDate % SecondsPerDay == 0
    requires date % SecondsPerDay == 0
    ensures IsDateBooked(ranges, date) <==> exists i :: 0 <= i < |ranges| && ranges[i].startDate <= date <= ranges[i].endDate
  {
    forall i | 0 <= i < |ranges|
      ensures RangeBooks(ranges[i], date) <==> ranges[i].startDate <= date <= ranges[i].endDate
    {
      var r := ranges[i];
      if SameDay(date, r.startDate) {
        assert date == DayStart(DayOf(date)) && r.startDate == DayStart(DayOf(r.startDate));
        DayOfMonotone(r.startDate, r.endDate);
        if date > r.endDate {
          DayOfMonotone(r.endDate, date);
        }
      }
      if SameDay(date, r.endDate) {
        assert date == DayStart(DayOf(date)) && r.startDate == DayStart(DayOf(r.startDate));
        DayOfMonotone(r.startDate, r.endDate);
      }
    }
  }

  /** `foregroundColor(for:isBooked:)`: booked days are red, others primary in the month and secondary outside. */
  function ForegroundColor(isCurrentMonth: bool, isBooked: bool): (c: Color)
    ensures c == Red <==> isBooked
    ensures !isBooked ==> (c == Primary <==> isCurrentMonth) && (c == Secondary <==> !isCurrentMonth)
  {
    if isBooked then Red else if isCurrentMonth then Primary else Secondary
  }

  datatype Fill = StrongBlue | LightBlue | NoFill

  /** `background(for:isStart:isEnd:)`: the ends of the selection get the strong fill, the inside the light one. */
  function Background(isSelected: bool, isStart: bool, isEnd: bool): (f: Fill)
    ensures f == StrongBlue <==> isStart || isEnd
    ensures f == LightBlue <==> isSelected && !isStart && !isEnd
  {
    if isStart || isEnd then StrongBlue else if isSelected then LightBlue else NoFill
  }

  /** The picker: its bindings, its booked ranges and the month on show. */
  class DateRangePickerView {
    const selection: SelectionBinding
    const bookedRanges: seq<BookingRange>
    const firstWeekday: int
    var currentMonth: Instant

    constructor (selection: SelectionBinding, bookedRanges: seq<BookingRange>, firstWeekday: int, now: Instant)
      requires 1 <= firstWeekday <= 7
      ensures this.selection == selection && this.bookedRanges == bookedRanges
      ensures this.firstWeekday == firstWeekday && currentMonth == now
    {
      this.selection := selection;
      this.bookedRanges := bookedRanges;
      this.firstWeekday := firstWeekday;
      currentMonth := now;
    }

    /** `.onAppear`: the month on show is pinned to the start of its day. */
    method OnAppear()
      modifies this
      ensures currentMonth == StartOfDay(old(currentMonth))
      ensures MonthOfDay(DayOf(currentMonth)) == MonthOfDay(DayOf(old(currentMonth)))
    {
      currentMonth := StartOfDay(currentMonth);
    }

    /** `previousMonth()`: the chevron steps back exactly one month. */
    method ShowPreviousMonth()
      modifies this
      ensures currentMonth == AddingMonth(old(currentMonth), false)
      ensures MonthOfDay(DayOf(currentMonth)) == PreviousMonth(MonthOfDay(DayOf(old(currentMonth))))
    {
      currentMonth := AddingMonth(currentMonth, false);
    }

    /** `nextMonth()`: the chevron steps forward exactly one month. */
    method ShowNextMonth()
      modifies this
      ensures currentMonth == AddingMonth(old(currentMonth), true)
      ensures MonthOfDay(DayOf(currentMonth)) == NextMonth(MonthOfDay(DayOf(old(currentMonth))))
    {
      currentMonth := AddingMonth(currentMonth, true);
    }

    /** A tap on a day cell: `.disabled(isBooked)` swallows taps on booked days. */
    method TapDay(date: Instant)
      requires AllValid(bookedRanges)
      modifies selection
      ensures IsDateBooked(bookedRanges, date) ==> selection.Value() == old(selection.Value())
      ensures !IsDateBooked(bookedRanges, date) ==> selection.Value() == SelectDate(old(selection.Value()), date)
    {
      if !IsDateBooked(bookedRanges, date) {
        selection.Select(date);
      }
    }
  }
}
