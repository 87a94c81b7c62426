/**
  The apartment list's filters and booking statistics: computed properties of
  the view model over its apartments, given here the filter settings they read.
*/
module ApartmentViewModel {
  import opened Swift
  import opened Apartments
  import Seqs

  /** The `showOnlyAvailable`, `minArea` and `maxFloor` settings. */
  datatype Filters = Filters(showOnlyAvailable: bool, minArea: Option<int>, maxFloor: Option<int>)

  /** An apartment passes every active filter. */
  predicate Passes(a: Apartment, f: Filters)
    reads a
  {
    && (f.showOnlyAvailable ==> a.status == Available)
    && (f.minArea.Some? ==> a.area >= f.minArea.value)
    && (f.maxFloor.Some? ==> a.floor <= f.maxFloor.value)
  }

  /** `filter { $0.status == .available }`. */
  function OnlyAvailable(s: seq<Apartment>): (r: seq<Apartment>)
    reads s
    ensures forall i :: 0 <= i < |r| ==> r[i] in s && r[i].status == Available
    ensures forall i :: 0 <= i < |s| && s[i].status == Available ==> s[i] in r
    ensures Seqs.IsSubsequence(r, s)
  {
    if s == [] then []
    else if s[0].status == Available then [s[0]] + OnlyAvailable(s[1..])
    else OnlyAvailable(s[1..])
  }

  /** `filteredApartments`: the three filters applied one after another, as the view model does. */
  function FilteredApartments(all: seq<Apartment>, f: Filters): (r: seq<Apartment>)
    reads all
  {
    var afterStatus := if f.showOnlyAvailable then OnlyAvailable(all) else all;
    var afterArea := if f.minArea.Some? then Seqs.Filter((a: Apartment) => a.area >= f.minArea.value, afterStatus) else afterStatus;
    if f.maxFloor.Some? then Seqs.Filter((a: Apartment) => a.floor <= f.maxFloor.value, afterArea) else afterArea
  }

  /** The result keeps the original order, holds only apartments passing every active filter, and misses none of them. */
  lemma FilteredApartmentsCorrect(all: seq<Apartment>, f: Filters)
    ensures Seqs.IsSubsequence(FilteredApartments(all, f), all)
    ensures forall a :: a in FilteredApartments(all, f) ==> a in all && Passes(a, f)
    ensures forall i :: 0 <= i < |all| && Passes(all[i], f) ==> all[i] in FilteredApartments(all, f)
  {
    FilteredApartmentsOrder(all, f);
    FilteredApartmentsSound(all, f);
    FilteredApartmentsComplete(all, f);
  }

  lemma FilteredApartmentsSound(all: seq<Apartment>, f: Filters)
    ensures forall a :: a in FilteredApartments(all, f) ==> a in all && Passes(a, f)
  {
    var afterStatus := if f.showOnlyAvailable then OnlyAvailable(all) else all;
    var afterArea := if f.minArea.Some? then Seqs.Filter((a: Apartment) => a.area >= f.minArea.value, afterStatus) else afterStatus;
    var r := FilteredApartments(all, f);
    forall a | a in r
      ensures a in all && Passes(a, f)
    {
      var i :| 0 <= i < |r| && r[i] == a;
      assert a in afterArea && (f.maxFloor.Some? ==> a.floor <= f.maxFloor.value);
      var j :| 0 <= j < |afterArea| && afterArea[j] == a;
      assert a in afterStatus && (f.minArea.Some? ==> a.area >= f.minArea.value);
      var k :| 0 <= k < |afterStatus| && afterStatus[k] == a;
      assert a in all && (f.showOnlyAvailable ==> a.status == Available);
    }
  }

  lemma FilteredApartmentsOrder(all: seq<Apartment>, f: Filters)
    ensures Seqs.IsSubsequence(FilteredApartments(all, f), all)
  {
    var afterStatus := if f.showOnlyAvailable then OnlyAvailable(all) else all;
    var afterArea := if f.minArea.Some? then Seqs.Filter((a: Apartment) => a.area >= f.minArea.value, afterStatus) else afterStatus;
    var r := FilteredApartments(all, f);
    Seqs.IsSubsequenceRefl(all);
    Seqs.IsSubsequenceRefl(afterStatus);
    Seqs.IsSubsequenceRefl(afterArea);
    Seqs.IsSubsequenceTransitive(afterArea, afterStatus, all);
    Seqs.IsSubsequenceTransitive(r, afterArea, all);
  }

  lemma FilteredApartmentsComplete(all: seq<Apartment>, f: Filters)
    ensures forall i :: 0 <= i < |all| && Passes(all[i], f) ==> all[i] in FilteredApartments(all, f)
  {
    var afterStatus := if f.showOnlyAvailable then OnlyAvailable(all) else all;
    var afterArea := if f.minArea.Some? then Seqs.Filter((a: Apartment) => a.area >= f.minArea.value, afterStatus) else afterStatus;
    var r := FilteredApartments(all, f);
    forall i | 0 <= i < |all| && Passes(all[i], f)
      ensures all[i] in r
    {
      assert all[i] in afterStatus;
      var j :| 0 <= j < |afterStatus| && afterStatus[j] == all[i];
      assert all[i] in afterArea;
      var k :| 0 <= k < |afterArea| && afterArea[k] == all[i];
    }
  }

  /** With every filter off the list is returned unchanged. */
  lemma NoFiltersKeepAll(all: seq<Apartment>)
    ensures FilteredApartments(all, Filters(false, None, None)) == all
  {
  }

  /** `allApartments.flatMap { $0.bookingRanges }`. */
  function AllBookings(apartments: seq<Apartment>): seq<BookingRange>
    reads apartments
  {
    if apartments == [] then [] else apartments[0].bookingRanges + AllBookings(apartments[1..])
  }

  /** The number of ranges per apartment, summed. */
  function RangeCount(apartments: seq<Apartment>): nat
    reads apartments
  {
    if apartments == [] then 0 else |apartments[0].bookingRanges| + RangeCount(apartments[1..])
  }

  lemma {:induction false} AllBookingsLength(apartments: seq<Apartment>)
    ensures |AllBookings(apartments)| == RangeCount(apartments)
  {
    if apartments != [] {
      AllBookingsLength(apartments[1..]);
    }
  }

  /** The test `$0.type == kind`. */
  function OfKind(kind: BookingType): BookingRange -> bool {
    (b: BookingRange) => b.kind == kind
  }

  /** The number of ranges of one type per apartment, summed. */
  function KindCount(apartments: seq<Apartment>, kind: BookingType): nat
    reads apartments
  {
    if apartments == [] then 0
    else |Seqs.Filter(OfKind(kind), apartments[0].bookingRanges)| + KindCount(apartments[1..], kind)
  }

  /** Filtering the flattened list by type counts, apartment by apartment, the ranges of that type. */
  lemma {:induction false} AllBookingsKindCount(apartments: seq<Apartment>, kind: BookingType)
    ensures |Seqs.Filter(OfKind(kind), AllBookings(apartments))| == KindCount(apartments, kind)
  {
    if apartments != [] {
      AllBookingsKindCount(apartments[1..], kind);
      Seqs.FilterConcat(OfKind(kind), apartments[0].bookingRanges, AllBookings(apartments[1..]));
    }
  }

  datatype Statistics = Statistics(total: int, reserved: int, tentative: int)

  /**
    `bookingStatistics`: all ranges, the reserved ones and the tentative ones counted over
    every apartment; every range is counted once, as reserved or as tentative.
  */
  function BookingStatistics(apartments: seq<Apartment>): (st: Statistics)
    reads apartments
    ensures st.total == RangeCount(apartments)
    ensures st.reserved == KindCount(apartments, Reserved)
    ensures st.tentative == KindCount(apartments, Tentative)
    ensures st.reserved + st.tentative == st.total
  {
    var all := AllBookings(apartments);
    AllBookingsLength(apartments);
    AllBookingsKindCount(apartments, Reserved);
    AllBookingsKindCount(apartments, Tentative);
    Seqs.FilterPartition(OfKind(Reserved), OfKind(Tentative), all);
    Statistics(|all|, |Seqs.Filter(OfKind(Reserved), all)|, |Seqs.Filter(OfKind(Tentative), all)|)
  }
}
