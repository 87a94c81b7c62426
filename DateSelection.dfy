/**
  The two-slot pending selection `(startDate?, endDate?)` that the day cells of
  every booking calendar drive, and the cell tests that read it. The three day
  views carry the same `selectDate`, `isDateSelected`, `isStartDate` and
  `isEndDate`; they are modelled once here.
*/
module DateSelection {
  import opened Swift
  import opened Gregorian

  datatype Pending = Pending(start: Option<Instant>, end: Option<Instant>)

  /** An end is only ever set after a strictly earlier start. */
  predicate Ordered(p: Pending) {
    p.end.Some? ==> p.start.Some? && p.start.value < p.end.value
  }

  /** `selectDate(_:)`: the first tap sets the start, a later day closes the range, anything else restarts. */
  function SelectDate(p: Pending, date: Instant): (r: Pending)
    ensures Ordered(r)
    ensures (r.start == Some(date) && r.end == None) || (r.start == p.start && r.end == Some(date))
    ensures r.end.Some? <==> p.start.Some? && p.end.None? && p.start.value < date
  {
    if p.start.None? then Pending(Some(date), None)
    else if p.end.None? then
      if date > p.start.value then Pending(p.start, Some(date)) else Pending(Some(date), None)
    else Pending(Some(date), None)
  }

  /** `isDateSelected(_:)`: inside the closed range once both ends are set, else the start's day. */
  predicate IsDateSelected(p: Pending, date: Instant) {
    match p.start
    case None => false
    case Some(start) =>
      match p.end
      case Some(end) => date >= start && date <= end
      case None => SameDay(date, start)
  }

  /** `isStartDate(_:)`. */
  predicate IsStartDate(p: Pending, date: Instant) {
    p.start.Some? && SameDay(date, p.start.value)
  }

  /** `isEndDate(_:)`. */
  predicate IsEndDate(p: Pending, date: Instant) {
    p.end.Some? && SameDay(date, p.end.value)
  }

  /** The four transitions of the machine. */
  lemma SelectDateTransitions(p: Pending, d: Instant)
    ensures p.start.None? ==> SelectDate(p, d) == Pending(Some(d), None)
    ensures p.start.Some? && p.end.None? && d > p.start.value ==> SelectDate(p, d) == Pending(p.start, Some(d))
    ensures p.start.Some? && p.end.None? && d <= p.start.value ==> SelectDate(p, d) == Pending(Some(d), None)
    ensures p.start.Some? && p.end.Some? ==> SelectDate(p, d) == Pending(Some(d), None)
  {
  }

  /** The day just tapped is shown selected and outlined as one of the two ends. */
  lemma TappedDayIsSelected(p: Pending, d: Instant)
    ensures IsDateSelected(SelectDate(p, d), d)
    ensures IsStartDate(SelectDate(p, d), d) || IsEndDate(SelectDate(p, d), d)
  {
  }

  /** Tapping `a` and then a later `b` from scratch selects exactly the instants from `a` to `b`. */
  lemma TwoTapsSelectRange(a: Instant, b: Instant, t: Instant)
    requires a < b
    ensures SelectDate(SelectDate(Pending(None, None), a), b) == Pending(Some(a), Some(b))
    ensures IsDateSelected(Pending(Some(a), Some(b)), t) <==> a <= t <= b
  {
  }

  /** A nil binding marks no cell: no start without a start date, no end without an end date. */
  lemma NilBindingsMarkNothing(p: Pending, d: Instant)
    ensures p.start.None? ==> !IsStartDate(p, d) && !IsDateSelected(p, d)
    ensures p.end.None? ==> !IsEndDate(p, d)
  {
  }

  /** The `@State`/`@Binding` pair a parent view shares with its day cells. */
  class SelectionBinding {
    var startDate: Option<Instant>
    var endDate: Option<Instant>

    constructor ()
      ensures startDate == None && endDate == None
    {
      startDate := None;
      endDate := None;
    }

    function Value(): Pending
      reads this
    {
      Pending(startDate, endDate)
    }

    /** A day cell's `selectDate(_:)` writing through the bindings. */
    method Select(date: Instant)
      modifies this
      ensures Value() == SelectDate(old(Value()), date)
      ensures Ordered(Value())
    {
      if startDate == None {
        startDate := Some(date);
        endDate := None;
      } else if endDate == None {
        if date > startDate.value {
          endDate := Some(date);
        } else {
          startDate := Some(date);
          endDate := None;
        }
      } else {
        startDate := Some(date);
        endDate := None;
      }
    }

    /** Both bindings set to nil. */
    method Clear()
      modifies this
      ensures Value() == Pending(None, None)
    {
      startDate := None;
      endDate := None;
    }
  }
}
