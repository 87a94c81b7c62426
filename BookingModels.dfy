/**
  Booking value types of the map-based target: a booking type and an object
  status with their UI colours, and a booking range with its instant-level
  overlap test and its day-level membership test.
*/
module BookingModels {
  import opened Swift
  import opened Gregorian

  /** An upper-case hexadecimal digit. */
  predicate IsHexDigit(c: char) {
    '0' <= c <= '9' || 'A' <= c <= 'F'
  }

  /** A `#RRGGBB` colour: a hash and six hexadecimal digits. */
  predicate IsHexColor(s: string) {
    |s| == 7 && s[0] == '#' && forall k :: 1 <= k < 7 ==> IsHexDigit(s[k])
  }

  datatype BookingType = Confirmed | Tentative {

    /** The UI colour of a booking of this type. */
    function ColorHex(): (hex: string)
      ensures IsHexColor(hex)
    {
      match this
      case Confirmed => "#FF3B30"
      case Tentative => "#FF9500"
    }
  }

  datatype ApartmentStatus = Available | Rented {

    /** The UI colour of an object with this status. */
    function ColorHex(): (hex: string)
      ensures IsHexColor(hex)
    {
      match this
      case Available => "#34C759"
      case Rented => "#FF3B30"
    }
  }

  /** The two booking types, and the two statuses, are told apart by colour. */
  lemma ColorsDistinguish()
    ensures Confirmed.ColorHex() != Tentative.ColorHex()
    ensures Available.ColorHex() != Rented.ColorHex()
  {
  }

  datatype BookingRange = BookingRange(id: Uuid, startDate: Instant, endDate: Instant, kind: BookingType) {

    /** `startDate...endDate` can be formed. */
    predicate Valid() {
      startDate <= endDate
    }

    /** `overlaps(with:)`: both closed ranges of instants are formed (trapping otherwise) and compared. */
    function Overlaps(other: BookingRange): bool
      requires Valid() && other.Valid()
    {
      Through(startDate, endDate).Overlaps(Through(other.startDate, other.endDate))
    }

    /** `contains(_:calendar:)`: the day of `date` lies between the days of the two ends. */
    predicate Contains(date: Instant) {
      var startDay := StartOfDay(startDate);
      var endDay := StartOfDay(endDate);
      var targetDay := StartOfDay(date);
      targetDay >= startDay && targetDay <= endDay
    }
  }

  /** Two valid ranges overlap exactly when some instant lies in both; touching ends count. */
  lemma OverlapsIffSharedInstant(a: BookingRange, b: BookingRange)
    requires a.Valid() && b.Valid()
    ensures a.Overlaps(b) <==> a.startDate <= b.endDate && b.startDate <= a.endDate
    ensures a.Overlaps(b) <==>
      exists t :: Through(a.startDate, a.endDate).Contains(t) && Through(b.startDate, b.endDate).Contains(t)
  {
    OverlapsIffCommonValue(Through(a.startDate, a.endDate), Through(b.startDate, b.endDate));
  }

  lemma OverlapsSymmetricReflexive(a: BookingRange, b: BookingRange)
    requires a.Valid() && b.Valid()
    ensures a.Overlaps(b) == b.Overlaps(a)
    ensures a.Overlaps(a)
  {
  }

  /** `contains` compares whole days: it holds iff the day of `date` is between the ends' days. */
  lemma {:induction false} ContainsIffDayBetween(r: BookingRange, date: Instant)
    ensures r.Contains(date) <==> DayOf(r.startDate) <= DayOf(date) <= DayOf(r.endDate)
  {
  }

  /** Two instants of the same day get the same answer. */
  lemma ContainsDependsOnlyOnDay(r: BookingRange, d1: Instant, d2: Instant)
    requires SameDay(d1, d2)
    ensures r.Contains(d1) == r.Contains(d2)
  {
  }

  /** A valid range contains both of its ends. */
  lemma ContainsEnds(r: BookingRange)
    requires r.Valid()
    ensures r.Contains(r.startDate) && r.Contains(r.endDate)
  {
    DayOfMonotone(r.startDate, r.endDate);
  }

  /** `contains` never traps; a range whose start day is after its end day contains nothing. */
  lemma ReversedContainsNothing(r: BookingRange, date: Instant)
    requires StartOfDay(r.startDate) > StartOfDay(r.endDate)
    ensures !r.Contains(date)
  {
  }
}
