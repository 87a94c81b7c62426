/**
  The day cell of the apartment booking calendar: its booked and past tests,
  its colour, and the tap that drives the shared date selection.
*/
module DayCell {
  import opened Swift
  import opened Gregorian
  import opened Apartments
  import opened DateSelection
  import DateRangePicker

  /** `startOfDay(start)...startOfDay(end)` can be formed. */
  predicate DayOrdered(r: BookingRange) {
    StartOfDay(r.startDate) <= StartOfDay(r.endDate)
  }

  predicate AllDayOrdered(ranges: seq<BookingRange>) {
    forall i :: 0 <= i < |ranges| ==> DayOrdered(ranges[i])
  }

  /** One range's test inside `isInAnyBookedRange(_:)`: the day starts are compared. */
  predicate InRangeByDay(r: BookingRange, date: Instant)
    requires DayOrdered(r)
  {
    var start := StartOfDay(r.startDate);
    var end := StartOfDay(r.endDate);
    var current := StartOfDay(date);
    Through(start, end).Contains(current)
  }

  /** `isInAnyBookedRange(_:)`. */
  predicate IsInAnyBookedRange(ranges: seq<BookingRange>, date: Instant)
    requires AllDayOrdered(ranges)
  {
    exists i :: 0 <= i < |ranges| && InRangeByDay(ranges[i], date)
  }

  /** `isDateBooked(_:)`: the date's day start is computed once, outside the per-range test. */
  predicate IsDateBooked(ranges: seq<BookingRange>, date: Instant)
    requires AllDayOrdered(ranges)
  {
    var currentDate := StartOfDay(date);
    exists i :: 0 <= i < |ranges| && Through(StartOfDay(ranges[i].startDate), StartOfDay(ranges[i].endDate)).Contains(currentDate)
  }

  /** Comparing day starts is comparing day numbers. */
  lemma StartOfDayOrder(a: Instant, b: Instant)
    ensures StartOfDay(a) <= StartOfDay(b) <==> DayOf(a) <= DayOf(b)
  {
    assert StartOfDay(a) == DayStart(DayOf(a)) && StartOfDay(b) == DayStart(DayOf(b));
  }

  /** A range's day-start test holds exactly when the range covers the date's day. */
  lemma InRangeByDayIffCovers(r: BookingRange, date: Instant)
    requires DayOrdered(r)
    ensures InRangeByDay(r, date) <==> r.CoversDay(date)
  {
    StartOfDayOrder(r.startDate, date);
    StartOfDayOrder(date, r.endDate);
  }

  /** Booked exactly when some range covers the date's day; both booked tests agree on every date. */
  lemma IsDateBookedIffCovered(ranges: seq<BookingRange>, date: Instant)
    requires AllDayOrdered(ranges)
    ensures IsDateBooked(ranges, date) <==> exists i :: 0 <= i < |ranges| && ranges[i].CoversDay(date)
    ensures IsInAnyBookedRange(ranges, date) == IsDateBooked(ranges, date)
  {
    forall i | 0 <= i < |ranges|
      ensures InRangeByDay(ranges[i], date) <==> ranges[i].CoversDay(date)
    {
      InRangeByDayIffCovers(ranges[i], date);
    }
  }

  /** On well-formed ranges this cell and the picker's cell call the same days booked. */
  lemma BookedAgreesWithPicker(ranges: seq<BookingRange>, date: Instant)
    requires DateRangePicker.AllValid(ranges)
    ensures AllDayOrdered(ranges)
    ensures IsDateBooked(ranges, date) == DateRangePicker.IsDateBooked(ranges, date)
  {
    forall i | 0 <= i < |ranges|
      ensures DayOrdered(ranges[i])
    {
      DayOfMonotone(ranges[i].startDate, ranges[i].endDate);
      StartOfDayOrder(ranges[i].startDate, ranges[i].endDate);
    }
    IsDateBookedIffCovered(ranges, date);
    DateRangePicker.IsDateBookedIffCovered(ranges, date);
  }

  /** `date < calendar.startOfDay(for: Date())`. */
  predicate IsPast(date: Instant, now: Instant) {
    date < StartOfDay(now)
  }

  /** A date is past exactly when its day is before today. */
  lemma IsPastIffEarlierDay(date: Instant, now: Instant)
    ensures IsPast(date, now) <==> DayOf(date) < DayOf(now)
  {
    if DayOf(date) < DayOf(now) {
      EarlierDayEarlierInstant(date, StartOfDay(now));
    }
    if IsPast(date, now) {
      DayOfMonotone(date, StartOfDay(now));
    }
  }

  /** `!calendar.isDate(date, equalTo: currentMonth, toGranularity: .month)`. */
  predicate IsFromOtherMonth(date: Instant, currentMonth: Instant) {
    !SameMonth(date, currentMonth)
  }

  /** `foregroundColor(for:isPast:isFromOtherMonth:)`. */
  function ForegroundColor(isBooked: bool, isPast: bool, isFromOtherMonth: bool): (c: Color)
    ensures c == Red <==> isBooked && !isFromOtherMonth
    ensures c == Gray <==> isPast && !(isBooked && !isFromOtherMonth)
    ensures c == FadedGray <==> isFromOtherMonth && !isPast
    ensures c == Primary <==> !isBooked && !isPast && !isFromOtherMonth
  {
    if isBooked && !isFromOtherMonth then Red
    else if isPast then Gray
    else if isFromOtherMonth then FadedGray
    else Primary
  }

  /**
    `.onTapGesture` with `.disabled(isBooked || isPast)`: only a free day from today on
    reaches `selectDate`.
  */
  method Tap(selection: SelectionBinding, date: Instant, bookedRanges: seq<BookingRange>, now: Instant)
    requires AllDayOrdered(bookedRanges)
    modifies selection
    ensures IsDateBooked(bookedRanges, date) || IsPast(date, now) ==> selection.Value() == old(selection.Value())
    ensures !IsDateBooked(bookedRanges, date) && !IsPast(date, now) ==>
      selection.Value() == SelectDate(old(selection.Value()), date)
  {
    var isBooked := IsDateBooked(bookedRanges, date);
    var isPast := date < StartOfDay(now);
    if !isBooked && !isPast {
      selection.Select(date);
    }
  }
}
