/**
  The apartment detail screen: confirming the selected range as a booking,
  and its embedded month picker, whose grid starts weeks on Monday and has no
  trailing padding and whose day cell uses its own booked and end-marker tests.
*/
module ApartmentDetail {
  import opened Swift
  import opened Gregorian
  import opened Apartments
  import opened DateSelection
  import DateRangePicker

  // ---------------------------------------------------------------------------
  // Confirming a booking

  /** The `contains { existing in ... }` test: the new range touches or crosses an existing one. */
  predicate HasConflict(existing: seq<BookingRange>, newStart: Instant, newEnd: Instant) {
    exists i :: 0 <= i < |existing| && newStart <= existing[i].endDate && newEnd >= existing[i].startDate
  }

  /** On well-formed ranges the conflict test is the closed-range overlap of the new range with an existing one. */
  lemma ConflictIffOverlap(existing: seq<BookingRange>, candidate: BookingRange)
    requires candidate.Valid() && forall i :: 0 <= i < |existing| ==> existing[i].Valid()
    ensures HasConflict(existing, candidate.startDate, candidate.endDate) <==>
      exists i :: 0 <= i < |existing| && candidate.Overlaps(existing[i])
  {
    forall i | 0 <= i < |existing|
      ensures candidate.Overlaps(existing[i]) <==>
        candidate.startDate <= existing[i].endDate && candidate.endDate >= existing[i].startDate
    {
      OverlapsProperties(candidate, existing[i]);
    }
  }

  /**
    With day-start bounds for the new range and existing ranges that start at a day start
    (as the picker's cells do), a conflict is exactly a shared calendar day.
  */
  lemma ConflictIffSharedDay(existing: seq<BookingRange>, newStart: Instant, newEnd: Instant)
    requires newStart % SecondsPerDay == 0 && newEnd % SecondsPerDay == 0
    requires forall i :: 0 <= i < |existing| ==> existing[i].startDate % SecondsPerDay == 0
    ensures HasConflict(existing, newStart, newEnd) <==>
      exists i :: 0 <= i < |existing| &&
        DayOf(newStart) <= DayOf(existing[i].endDate) && DayOf(existing[i].startDate) <= DayOf(newEnd)
  {
    forall i | 0 <= i < |existing|
      ensures (newStart <= existing[i].endDate && newEnd >= existing[i].startDate) <==>
        (DayOf(newStart) <= DayOf(existing[i].endDate) && DayOf(existing[i].startDate) <= DayOf(newEnd))
    {
      var e := existing[i];
      assert newStart == DayStart(DayOf(newStart)) && newEnd == DayStart(DayOf(newEnd));
      assert e.startDate == DayStart(DayOf(e.startDate));
      if newStart <= e.endDate {
        DayOfMonotone(newStart, e.endDate);
      }
      if newEnd >= e.startDate {
        DayOfMonotone(e.startDate, newEnd);
      }
    }
  }

  /** A new range starting on the day an existing midnight-started one ends is refused: touching days conflict. */
  lemma TouchingDaysConflict(existing: BookingRange, newEnd: Instant)
    requires existing.Valid() && existing.startDate % SecondsPerDay == 0 && existing.endDate <= newEnd
    ensures HasConflict([existing], StartOfDay(existing.endDate), StartOfDay(newEnd))
  {
    DayOfMonotone(existing.endDate, newEnd);
    DayOfMonotone(existing.startDate, existing.endDate);
    assert existing.startDate == DayStart(DayOf(existing.startDate));
    assert StartOfDay(newEnd) >= StartOfDay(existing.endDate) >= existing.startDate;
    assert [existing][0] == existing;
  }

  /** The detail screen's booking state: the apartment shown, the selection its picker drives, and the alert flag. */
  class ApartmentDetailView {
    const apartment: Apartment
    const selection: SelectionBinding
    var bookingType: BookingType
    var showOverlapAlert: bool

    constructor (apartment: Apartment, selection: SelectionBinding)
      ensures this.apartment == apartment && this.selection == selection
      ensures bookingType == Reserved && !showOverlapAlert
    {
      this.apartment := apartment;
      this.selection := selection;
      bookingType := Reserved;
      showOverlapAlert := false;
    }

    /**
      `confirmBooking()`: nothing without both dates; on a conflict (compared by day start)
      only the alert is raised; otherwise the range is added with the dates as selected,
      and the selection is cleared. `newId` is the fresh `UUID()` of the added range.
    */
    method ConfirmBooking(newId: Uuid)
      modifies this, apartment, selection
      ensures old(selection.startDate).None? || old(selection.endDate).None? ==>
        && apartment.bookingRanges == old(apartment.bookingRanges)
        && apartment.status == old(apartment.status)
        && showOverlapAlert == old(showOverlapAlert)
        && selection.Value() == old(selection.Value())
      ensures old(selection.startDate).Some? && old(selection.endDate).Some? ==>
        var start, end := old(selection.startDate).value, old(selection.endDate).value;
        if HasConflict(old(apartment.bookingRanges), StartOfDay(start), StartOfDay(end)) then
          && apartment.bookingRanges == old(apartment.bookingRanges)
          && apartment.status == old(apartment.status)
          && showOverlapAlert
          && selection.Value() == old(selection.Value())
        else
          && apartment.bookingRanges == old(apartment.bookingRanges) + [BookingRange(newId, start, end, bookingType)]
          && apartment.status == StatusOf(apartment.bookingRanges)
          && showOverlapAlert == old(showOverlapAlert)
          && selection.Value() == Pending(None, None)
      ensures bookingType == old(bookingType)
    {
      if selection.startDate.None? || selection.endDate.None? {
        return;
      }
      var start, end := selection.startDate.value, selection.endDate.value;
      var newStart, newEnd := StartOfDay(start), StartOfDay(end);
      var hasConflict := HasConflict(apartment.bookingRanges, newStart, newEnd);
      if hasConflict {
        showOverlapAlert := true;
      } else {
        apartment.AddBooking(newId, start, end, bookingType);
        selection.Clear();
      }
    }
  }

  // ---------------------------------------------------------------------------
  // The embedded picker

  /** `(weekday + 5) % 7` is the general offset for weeks that start on Monday (`firstWeekday` 2, as in ru_RU). */
  lemma MondayOffset(weekday: int)
    requires 1 <= weekday <= 7
    ensures (weekday + 5) % 7 == ColumnOffset(weekday, 2)
  {
  }

  /**
    `daysInMonth` of the embedded picker: the previous month's tail up to Monday, then the
    month's days, with no trailing padding. It is the general six-week grid cut after
    the month's last day.
  */
  method DaysInMonthMondayFirst(currentMonth: Instant) returns (dates: seq<Instant>)
    ensures var ym := MonthOfDay(DayOf(currentMonth));
      && |dates| == (Weekday(ym.First()) + 5) % 7 + ym.Length()
      && dates == DateRangePicker.MonthGrid(ym, 2)[..|dates|]
  {
    var ym := MonthOfDay(DayOf(currentMonth));
    MondayOffset(Weekday(ym.First()));
    var current;
    dates, current := DateRangePicker.LeadingAndMonthDays(ym, 2);
    var start := ym.First() - DateRangePicker.Offset(ym, 2);
    DateRangePicker.CellsSplit(start, |dates|, 42 - |dates|);
    assert (dates + DateRangePicker.Cells(start + |dates|, 42 - |dates|))[..|dates|] == dates;
  }

  /** The embedded cell's `isBooked`: the start's day, or inside `start...end`. */
  predicate IsBooked(ranges: seq<BookingRange>, date: Instant)
    requires DateRangePicker.AllValid(ranges)
  {
    exists i :: 0 <= i < |ranges| && (SameDay(date, ranges[i].startDate) || Through(ranges[i].startDate, ranges[i].endDate).Contains(date))
  }

  /**
    On a grid cell (a day start) the embedded test agrees with the picker's: the end
    day is always reached through the closed range.
  */
  lemma IsBookedOnCellsAgrees(ranges: seq<BookingRange>, day: DayNumber)
    requires DateRangePicker.AllValid(ranges)
    ensures IsBooked(ranges, DayStart(day)) == DateRangePicker.IsDateBooked(ranges, DayStart(day))
  {
    var date := DayStart(day);
    DayStartIsDay(day);
    DateRangePicker.IsDateBookedIffCovered(ranges, date);
    forall i | 0 <= i < |ranges|
      ensures (SameDay(date, ranges[i].startDate) || Through(ranges[i].startDate, ranges[i].endDate).Contains(date))
              <==> ranges[i].CoversDay(date)
    {
      var r := ranges[i];
      DayOfMonotone(r.startDate, r.endDate);
      if r.startDate <= date <= r.endDate {
        DayOfMonotone(r.startDate, date);
        DayOfMonotone(date, r.endDate);
      }
      if r.CoversDay(date) && !SameDay(date, r.startDate) {
        EarlierDayEarlierInstant(r.startDate, date);
        assert date <= StartOfDay(r.endDate);
      }
    }
  }

  /** Where a nil binding points: `Date.distantPast`, the first instant of the calendar. */
  const DistantPast: Instant := 0

  /** The embedded cell's `isStart`/`isEnd`: `isDate(date, inSameDayAs: binding ?? .distantPast)`. */
  predicate IsMarkedEnd(binding: Option<Instant>, date: Instant) {
    SameDay(date, binding.GetOr(DistantPast))
  }

  /** Away from the distant-past day the markers agree with the picker's `isStartDate`/`isEndDate`. */
  lemma MarkersAgree(p: Pending, date: Instant)
    requires DayOf(date) != DayOf(DistantPast)
    ensures IsMarkedEnd(p.start, date) == IsStartDate(p, date)
    ensures IsMarkedEnd(p.end, date) == IsEndDate(p, date)
  {
  }

  /** A tap on an embedded cell: `.disabled(isBooked)` swallows taps on booked days. */
  method TapDay(selection: SelectionBinding, date: Instant, bookedRanges: seq<BookingRange>)
    requires DateRangePicker.AllValid(bookedRanges)
    modifies selection
    ensures IsBooked(bookedRanges, date) ==> selection.Value() == old(selection.Value())
    ensures !IsBooked(bookedRanges, date) ==> selection.Value() == SelectDate(old(selection.Value()), date)
  {
    if !IsBooked(bookedRanges, date) {
      selection.Select(date);
    }
  }
}
