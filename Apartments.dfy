/**
  The apartment of the rental map and its booking list. Every assignment to
  the list re-derives the apartment's status: rented exactly when some range
  is a reservation.
*/
module Apartments {
  import opened Swift
  import opened Gregorian
  import Seqs

  datatype BookingType = Reserved | Tentative

  datatype ApartmentStatus = Available | Rented

  datatype BookingRange = BookingRange(id: Uuid, startDate: Instant, endDate: Instant, kind: BookingType) {

    /** `startDate...endDate` can be formed. */
    predicate Valid() {
      startDate <= endDate
    }

    /** The calendar day of `date` is one of the range's days, ends included. */
    predicate CoversDay(date: Instant) {
      DayOf(startDate) <= DayOf(date) <= DayOf(endDate)
    }

    /** `overlaps(with:)`: both closed ranges are formed (trapping otherwise) and compared. */
    function Overlaps(other: BookingRange): bool
      requires Valid() && other.Valid()
    {
      Through(startDate, endDate).Overlaps(Through(other.startDate, other.endDate))
    }
  }

  /** Overlap is the closed-interval test, symmetric, reflexive, and means a shared instant. */
  lemma OverlapsProperties(a: BookingRange, b: BookingRange)
    requires a.Valid() && b.Valid()
    ensures a.Overlaps(b) <==> a.startDate <= b.endDate && b.startDate <= a.endDate
    ensures a.Overlaps(b) == b.Overlaps(a)
    ensures a.Overlaps(a)
    ensures a.Overlaps(b) <==>
      exists t :: Through(a.startDate, a.endDate).Contains(t) && Through(b.startDate, b.endDate).Contains(t)
  {
    OverlapsIffCommonValue(Through(a.startDate, a.endDate), Through(b.startDate, b.endDate));
  }

  predicate IsReserved(r: BookingRange) {
    r.kind == Reserved
  }

  /** `updateStatus`: rented iff the list contains a reservation. */
  function StatusOf(ranges: seq<BookingRange>): (s: ApartmentStatus)
    ensures s == Rented <==> exists i :: 0 <= i < |ranges| && IsReserved(ranges[i])
  {
    if exists i :: 0 <= i < |ranges| && IsReserved(ranges[i]) then Rented else Available
  }

  /** No bookings, or only tentative ones, leave an apartment available. */
  lemma StatusWithoutReservations(ranges: seq<BookingRange>)
    requires forall i :: 0 <= i < |ranges| ==> ranges[i].kind == Tentative
    ensures StatusOf(ranges) == Available
  {
  }

  /** Appending one range: the status turns rented on a reservation and is otherwise kept. */
  lemma StatusAfterAppend(ranges: seq<BookingRange>, r: BookingRange)
    ensures StatusOf(ranges + [r]) == if r.kind == Reserved then Rented else StatusOf(ranges)
  {
    var all := ranges + [r];
    if StatusOf(ranges) == Rented {
      var i :| 0 <= i < |ranges| && IsReserved(ranges[i]);
      assert IsReserved(all[i]);
    }
    if r.kind == Reserved {
      assert IsReserved(all[|ranges|]);
    }
  }

  /** `removeAll { $0.id == id }` on the booking list. */
  function WithoutId(ranges: seq<BookingRange>, id: Uuid): (r: seq<BookingRange>)
    ensures forall i :: 0 <= i < |r| ==> r[i].id != id
    ensures forall i :: 0 <= i < |ranges| && ranges[i].id != id ==> ranges[i] in r
    ensures forall x :: x in r ==> x in ranges
    ensures forall x :: multiset(r)[x] == if x.id == id then 0 else multiset(ranges)[x]
    ensures Seqs.IsSubsequence(r, ranges)
  {
    Seqs.RemoveWhere((b: BookingRange) => b.id == id, ranges)
  }

  /** Removing a range never turns an available apartment into a rented one. */
  lemma RemovalKeepsAvailable(ranges: seq<BookingRange>, id: Uuid)
    requires StatusOf(ranges) == Available
    ensures StatusOf(WithoutId(ranges, id)) == Available
  {
  }

  class Apartment {
    const id: string
    const title: string
    const description: string
    const coordinate: Coordinate
    const address: string
    const area: int
    const floor: int
    var status: ApartmentStatus
    var bookingRanges: seq<BookingRange>

    /** The initial status is taken as given; `didSet` does not run during initialisation. */
    constructor (id: string, title: string, description: string, coordinate: Coordinate,
                 address: string, area: int, floor: int, status: ApartmentStatus)
      ensures this.id == id && this.title == title && this.description == description
      ensures this.coordinate == coordinate && this.address == address
      ensures this.area == area && this.floor == floor
      ensures this.status == status && bookingRanges == []
    {
      this.id := id;
      this.title := title;
      this.description := description;
      this.coordinate := coordinate;
      this.address := address;
      this.area := area;
      this.floor := floor;
      this.status := status;
      this.bookingRanges := [];
    }

    /** An assignment to `bookingRanges`; its `didSet` persists the list (not modelled) and re-derives the status. */
    method SetBookingRanges(ranges: seq<BookingRange>)
      modifies this
      ensures bookingRanges == ranges
      ensures status == StatusOf(ranges)
    {
      bookingRanges := ranges;
      UpdateStatus();
    }

    method UpdateStatus()
      modifies this`status
      ensures status == StatusOf(bookingRanges)
    {
      status := if exists i :: 0 <= i < |bookingRanges| && IsReserved(bookingRanges[i]) then Rented else Available;
    }

    /** `addBooking(from:to:type:)`; `newId` is the fresh `UUID()` of the new range. */
    method AddBooking(newId: Uuid, startDate: Instant, endDate: Instant, kind: BookingType)
      modifies this
      ensures bookingRanges == old(bookingRanges) + [BookingRange(newId, startDate, endDate, kind)]
      ensures status == StatusOf(bookingRanges)
      ensures kind == Reserved ==> status == Rented
    {
      SetBookingRanges(bookingRanges + [BookingRange(newId, startDate, endDate, kind)]);
      StatusAfterAppend(old(bookingRanges), BookingRange(newId, startDate, endDate, kind));
    }

    /** `removeBooking(_:)`: every range with the booking's id goes, the rest keep their order. */
    method RemoveBooking(booking: BookingRange)
      modifies this
      ensures bookingRanges == WithoutId(old(bookingRanges), booking.id)
      ensures status == StatusOf(bookingRanges)
    {
      SetBookingRanges(WithoutId(bookingRanges, booking.id));
    }

    /** `removeAllBookings()`. */
    method RemoveAllBookings()
      modifies this
      ensures bookingRanges == []
      ensures status == Available
    {
      SetBookingRanges([]);
    }
  }
}
