# Rental map and snippet launcher — a Dafny model of the core logic

This project models the small, sequential logic at the heart of two families of Swift
applications and proves properties of it:

- **PattayaRentMap**, a map of rental apartments with bookings. Modelled here:
  - the `BookingRange` value, with its closed-interval `overlaps` test and its
    day-level `contains` test;
  - an `Apartment`'s booking list, whose status is re-derived after every change;
  - the booking-confirmation gate of the detail screen;
  - the apartment filters and booking statistics;
  - the month grids of the two date pickers and of the year calendar;
  - the two-slot date selection machine, and the day-cell classifiers and colours;
  - the two map view models.
- **SnippetLauncher / MinimalSnippetInserter**, menu-bar snippet stores. Modelled here:
  - the sorted store, which refuses duplicate ids, and the append-only store;
  - the `tagsString` join/split/trim pair;
  - the main window's search filter, click and shift-click selection, multi-delete,
    and editor save/cancel.

Shared foundations:

- `Swift`: option type, `Uuid`, closed ranges that trap on `a > b`.
- `Seqs`: order-preserving filters, subsequences, `remove(atOffsets:)`.
- `Strings`: ASCII lower-casing, string `<`, `contains`, trimming, split and join.
- `Gregorian`: an explicit Gregorian calendar that stands in for Foundation's `Calendar`:
  - instants are whole seconds in one fixed time zone;
  - `startOfDay` floors to a multiple of 86400;
  - weekdays run 1 = Sunday … 7 = Saturday;
  - `firstWeekday` is a parameter.

How the state is modelled:

- Objects whose fields the source mutates in place become classes with `modifies`
  frames: `Apartment`, the view models, the views' `@State` selection bindings.
- Each of their methods is specified against a pure function of the old state,
  and the properties are lemmas about those functions.
- Fresh `UUID()`s, the current time (`Date()`), decoded persisted data, modifier keys
  and `Set.first` are parameters of the operations that use them.

## Model

| member | source | states |
|---|---|---|
| `Apartments.OverlapsProperties` | PattayaRentMap/PattayaRentMap/Apartment.swift:27-29 | on ranges whose `...` does not trap, `overlaps` holds iff `a.start <= b.end && b.start <= a.end`, iff some instant lies in both; it is symmetric and reflexive |
| `Apartments.StatusOf` | PattayaRentMap/PattayaRentMap/Apartment.swift:73-75 | the derived status is rented exactly when some range is a reservation |
| `Apartments.StatusWithoutReservations` | PattayaRentMap/PattayaRentMap/Apartment.swift:73-75 | a list of tentative ranges only (or none) gives an available apartment |
| `Apartments.StatusAfterAppend` | PattayaRentMap/PattayaRentMap/Apartment.swift:60-63 | appending a reservation makes the apartment rented; appending a tentative range keeps the status |
| `Apartments.WithoutId` | PattayaRentMap/PattayaRentMap/Apartment.swift:66 | `removeAll { $0.id == id }`: no range with the id is left, every other range stays as often as it occurred, nothing new appears, and the order is kept |
| `Apartments.RemovalKeepsAvailable` | PattayaRentMap/PattayaRentMap/Apartment.swift:65-67 | removing a booking never makes an available apartment rented |
| `Apartments.Apartment.constructor` | PattayaRentMap/PattayaRentMap/Apartment.swift:48-58 | all fields are as given, the booking list is empty, and the status is the one given (`didSet` does not run in `init`) |
| `Apartments.Apartment.SetBookingRanges` | PattayaRentMap/PattayaRentMap/Apartment.swift:41-46 | after any assignment to `bookingRanges`, the status is the one derived from the new list |
| `Apartments.Apartment.UpdateStatus` | PattayaRentMap/PattayaRentMap/Apartment.swift:73-75 | the status is re-derived from the current list |
| `Apartments.Apartment.AddBooking` | PattayaRentMap/PattayaRentMap/Apartment.swift:60-63 | exactly one range with the given id, ends and type is appended, earlier ranges are unchanged, and a reservation makes the apartment rented |
| `Apartments.Apartment.RemoveBooking` | PattayaRentMap/PattayaRentMap/Apartment.swift:65-67 | the list loses every range with the booking's id and nothing else, and the status follows |
| `Apartments.Apartment.RemoveAllBookings` | PattayaRentMap/PattayaRentMap/Apartment.swift:69-71 | the list is empty and the apartment is available |
| `BookingModels.BookingType.ColorHex` | PattayaRentMap/BookingModels.swift:19-24 | each booking type's colour is a `#` followed by six upper-case hexadecimal digits |
| `BookingModels.ApartmentStatus.ColorHex` | PattayaRentMap/BookingModels.swift:63-68 | each status's colour is a `#` followed by six upper-case hexadecimal digits |
| `BookingModels.ColorsDistinguish` | PattayaRentMap/BookingModels.swift:19-24 | the two booking types have different colours, and so do the two statuses |
| `BookingModels.OverlapsIffSharedInstant` | PattayaRentMap/BookingModels.swift:41-43 | on valid ranges, `overlaps` holds iff `a.start <= b.end && b.start <= a.end`, iff some instant lies in both ranges |
| `BookingModels.OverlapsSymmetricReflexive` | PattayaRentMap/BookingModels.swift:41-43 | `overlaps` is symmetric, and every valid range overlaps itself |
| `BookingModels.ContainsIffDayBetween` | PattayaRentMap/BookingModels.swift:46-52 | `contains(d)` holds iff the day of `d` is between the days of the two ends |
| `BookingModels.ContainsDependsOnlyOnDay` | PattayaRentMap/BookingModels.swift:46-52 | two instants of the same day get the same answer |
| `BookingModels.ContainsEnds` | PattayaRentMap/BookingModels.swift:46-52 | a range whose start is not after its end contains both of its ends |
| `BookingModels.ReversedContainsNothing` | PattayaRentMap/BookingModels.swift:46-52 | `contains` never traps; a range whose start day is after its end day contains no date |
| `ApartmentDetail.ConflictIffOverlap` | PattayaRentMap/PattayaRentMap/ApartmentDetailView.swift:175-177 | on valid ranges, the conflict test holds iff the new range overlaps some existing range |
| `ApartmentDetail.HasConflict` | PattayaRentMap/PattayaRentMap/ApartmentDetailView.swift:175-177 | the source's `contains { existing in … }` expression itself; `ConflictIffOverlap` and `ConflictIffSharedDay` give its meaning |
| `ApartmentDetail.ConflictIffSharedDay` | PattayaRentMap/PattayaRentMap/ApartmentDetailView.swift:169-177 | with the new ends at day starts and existing ranges starting at midnight, a conflict means the two ranges share a calendar day |
| `ApartmentDetail.TouchingDaysConflict` | PattayaRentMap/PattayaRentMap/ApartmentDetailView.swift:175-177 | a new booking that starts on the day an existing one ends is refused: touching days conflict |
| `ApartmentDetail.ApartmentDetailView.constructor` | PattayaRentMap/PattayaRentMap/ApartmentDetailView.swift:5-10 | the booking type starts as a reservation, with no alert shown |
| `ApartmentDetail.ApartmentDetailView.ConfirmBooking` | PattayaRentMap/PattayaRentMap/ApartmentDetailView.swift:166-186 | this is a no-op without both dates. On a day-start conflict, only the alert is raised. Otherwise exactly one booking is appended with the selected dates and type, the status is re-derived, and both dates are cleared |
| `ApartmentDetail.MondayOffset` | PattayaRentMap/PattayaRentMap/ApartmentDetailView.swift:265-266 | `(weekday + 5) % 7` is the leading-cell count of a Monday-first week, in 0..6 |
| `ApartmentDetail.DaysInMonthMondayFirst` | PattayaRentMap/PattayaRentMap/ApartmentDetailView.swift:256-286 | the grid holds `(weekday + 5) % 7` days from the end of the previous month, then every day of the month in order; there is no trailing padding, so it is the six-week grid cut after the last day |
| `ApartmentDetail.IsBookedOnCellsAgrees` | PattayaRentMap/PattayaRentMap/ApartmentDetailView.swift:315-318 | on day-start cells, the embedded cell's start-day-or-inside test agrees with the picker's three-way test |
| `ApartmentDetail.IsBooked` | PattayaRentMap/PattayaRentMap/ApartmentDetailView.swift:315-318 | the embedded cell's `isBooked` expression itself; `IsBookedOnCellsAgrees` shows it means the same as the picker's test on grid cells |
| `ApartmentDetail.MarkersAgree` | PattayaRentMap/PattayaRentMap/ApartmentDetailView.swift:320-321 | the `?? .distantPast` ring markers agree with `isStartDate`/`isEndDate` on every day but the distant-past one |
| `ApartmentDetail.IsMarkedEnd` | PattayaRentMap/PattayaRentMap/ApartmentDetailView.swift:320-321 | the `isDate(date, inSameDayAs: binding ?? .distantPast)` expression itself; `MarkersAgree` ties it to `isStartDate`/`isEndDate` |
| `ApartmentDetail.TapDay` | PattayaRentMap/PattayaRentMap/ApartmentDetailView.swift:333-336 | a tap on a booked day changes nothing; any other tap performs `selectDate` |
| `ApartmentViewModel.OnlyAvailable` | PattayaRentMap/PattayaRentMap/ApartmentViewModel.swift:19 | the available apartments, all of them, in their order |
| `ApartmentViewModel.FilteredApartments` | PattayaRentMap/PattayaRentMap/ApartmentViewModel.swift:17-31 | the three filters applied in the source's order; `FilteredApartmentsCorrect` and the lemmas after it give its meaning |
| `ApartmentViewModel.FilteredApartmentsCorrect` | PattayaRentMap/PattayaRentMap/ApartmentViewModel.swift:17-31 | the result is an order-preserving subsequence; every member passes each active filter; every apartment that passes them is in it |
| `ApartmentViewModel.FilteredApartmentsSound` | PattayaRentMap/PattayaRentMap/ApartmentViewModel.swift:18-28 | every result is available when asked, has `area >= minArea` when set and `floor <= maxFloor` when set |
| `ApartmentViewModel.FilteredApartmentsOrder` | PattayaRentMap/PattayaRentMap/ApartmentViewModel.swift:17-31 | the result keeps the order of `allApartments` |
| `ApartmentViewModel.FilteredApartmentsComplete` | PattayaRentMap/PattayaRentMap/ApartmentViewModel.swift:17-31 | no apartment passing every active filter is missing |
| `ApartmentViewModel.NoFiltersKeepAll` | PattayaRentMap/PattayaRentMap/ApartmentViewModel.swift:18-21 | with every filter off, the result is `allApartments` |
| `ApartmentViewModel.AllBookingsLength` | PattayaRentMap/PattayaRentMap/ApartmentViewModel.swift:33 | the flattened list has as many ranges as all apartments together |
| `ApartmentViewModel.AllBookings` | PattayaRentMap/PattayaRentMap/ApartmentViewModel.swift:33 | the `flatMap { $0.bookingRanges }` itself; `AllBookingsLength` and `AllBookingsKindCount` count it apartment by apartment |
| `ApartmentViewModel.AllBookingsKindCount` | PattayaRentMap/PattayaRentMap/ApartmentViewModel.swift:33-37 | filtering the flattened list by one type has as many ranges as filtering each apartment's list by that type, summed |
| `ApartmentViewModel.BookingStatistics` | PattayaRentMap/PattayaRentMap/ApartmentViewModel.swift:32-39 | `total` counts every range of every apartment, `reserved` the `.reserved` ranges and `tentative` the `.tentative` ranges, summed over the apartments; `reserved + tentative == total` |
| `DateSelection.SelectDate` | PattayaRentMap/PattayaRentMap/DateRangePickerView.swift:198-213 | the new state either has the tapped date as start and no end, or keeps the start and ends at the tapped date. An end is set iff a start without an end was strictly before the tap. An end always follows a strictly earlier start |
| `DateSelection.SelectDateTransitions` | PattayaRentMap/PattayaRentMap/DayView.swift:83-98 | the four transitions: `(nil,_) -> (d,nil)`; `(s,nil)` with `d > s` gives `(s,d)`; `(s,nil)` with `d <= s` gives `(d,nil)`; `(s,e) -> (d,nil)` |
| `DateSelection.IsDateSelected` | PattayaRentMap/PattayaRentMap/DateRangePickerView.swift:215-221 | the source's `isDateSelected` expression itself; `TappedDayIsSelected`, `TwoTapsSelectRange` and `NilBindingsMarkNothing` give its meaning |
| `DateSelection.IsStartDate` | PattayaRentMap/PattayaRentMap/DateRangePickerView.swift:176-179 | the source's `isStartDate` expression itself; `TappedDayIsSelected` and `NilBindingsMarkNothing` give its meaning |
| `DateSelection.IsEndDate` | PattayaRentMap/PattayaRentMap/DateRangePickerView.swift:181-184 | the source's `isEndDate` expression itself; `TappedDayIsSelected` and `NilBindingsMarkNothing` give its meaning |
| `DateSelection.TappedDayIsSelected` | PattayaRentMap/PattayaRentMap/DateRangePickerView.swift:215-221 | after a tap, the tapped day is shown selected and marked as start or end |
| `DateSelection.TwoTapsSelectRange` | PattayaRentMap/PattayaRentMap/ApartmentDetailView.swift:369-375 | tapping `a` and then a later `b` selects exactly the instants from `a` to `b` |
| `DateSelection.NilBindingsMarkNothing` | PattayaRentMap/PattayaRentMap/DateRangePickerView.swift:176-184 | without a start, no day is a start or selected; without an end, no day is an end |
| `DateSelection.SelectionBinding.constructor` | PattayaRentMap/PattayaRentMap/ApartmentDetailView.swift:7-8 | both dates start as nil |
| `DateSelection.SelectionBinding.Select` | PattayaRentMap/PattayaRentMap/ApartmentDetailView.swift:352-367 | the bindings take the machine's next state, and "an end follows a strictly earlier start" is kept |
| `DateSelection.SelectionBinding.Clear` | PattayaRentMap/PattayaRentMap/ApartmentDetailView.swift:183-184 | both dates become nil |
| `DateRangePicker.MonthGrid` | PattayaRentMap/PattayaRentMap/DateRangePickerView.swift:85-124 | the intended grid has exactly 42 cells |
| `DateRangePicker.MonthGridAsWritten` | PattayaRentMap/PattayaRentMap/DateRangePickerView.swift:85-124 | the grid as written has exactly 42 cells |
| `DateRangePicker.LeadingAndMonthDays` | PattayaRentMap/PattayaRentMap/DateRangePickerView.swift:90-113 | after both loops: one consecutive run from `offset` days before the first through the last day of the month, and `current` is at the first of the next month |
| `DateRangePicker.AppendFirstDays` | PattayaRentMap/PattayaRentMap/DateRangePickerView.swift:119-123 | the loop appends days `1...count` of the month, in order |
| `DateRangePicker.TrailingAsWritten` | PattayaRentMap/PattayaRentMap/DateRangePickerView.swift:116-124 | as written, the padding is days `1...42-count` of the month after the next one |
| `DateRangePicker.DaysInMonthAsWritten` | PattayaRentMap/PattayaRentMap/DateRangePickerView.swift:85-127 | the method as written computes the as-written grid of the month of `currentMonth` |
| `DateRangePicker.Trailing` | PattayaRentMap/PattayaRentMap/DateRangePickerView.swift:116-124 | corrected: the padding is days `1...42-count` of the month that `current` has reached |
| `DateRangePicker.DaysInMonth` | PattayaRentMap/PattayaRentMap/DateRangePickerView.swift:85-127 | corrected: the method computes the 42-day grid of the month of `currentMonth` |
| `DateRangePicker.ConsecutiveWeekdays` | PattayaRentMap/PattayaRentMap/DateRangePickerView.swift:94-95 | counting on from the row start, the weekday runs round from `firstWeekday` |
| `DateRangePicker.MonthGridColumns` | PattayaRentMap/PattayaRentMap/DateRangePickerView.swift:94-95 | column `i % 7` always holds weekday `(firstWeekday - 1 + i) % 7 + 1`, so the weekday headers line up |
| `DateRangePicker.MonthGridCell` | PattayaRentMap/PattayaRentMap/DateRangePickerView.swift:97-124 | the leading cells are the last `offset` days of the previous month, ascending to its final day; then come days 1..n of the month; then days 1, 2, … of the next month |
| `DateRangePicker.MonthGridInMonth` | PattayaRentMap/PattayaRentMap/DateRangePickerView.swift:147 | a cell is in the month on show exactly when it lies in the middle stretch |
| `DateRangePicker.MonthGridShowsEveryDay` | PattayaRentMap/PattayaRentMap/DateRangePickerView.swift:110-116 | `offset + daysInMonth <= 37`, so padding always follows, and day `d` sits in cell `offset + d - 1` |
| `DateRangePicker.February2024Grid` | PattayaRentMap/PattayaRentMap/DateRangePickerView.swift:94-113 | Monday-first February 2024 has 3 leading cells ending on 31 January, then 29 days, then 1 March |
| `DateRangePicker.AsWrittenAgreesThroughMonth` | PattayaRentMap/PattayaRentMap/DateRangePickerView.swift:85-113 | as written, the grid is right up to and including the last day of the month |
| `DateRangePicker.AsWrittenTrailingCells` | PattayaRentMap/PattayaRentMap/DateRangePickerView.swift:116-124 | as written, every trailing cell is a day of the month after the next one, and so differs from the intended cell |
| `DateRangePicker.AsWrittenApril2025` | PattayaRentMap/PattayaRentMap/DateRangePickerView.swift:118 | Sunday-first April 2025: the cell after 30 April shows 1 June where 1 May is intended |
| `DateRangePicker.RangeBooksIffCoversDay` | PattayaRentMap/PattayaRentMap/DateRangePickerView.swift:169-173 | one range's three-way test holds iff the range covers the date's day |
| `DateRangePicker.RangeBooks` | PattayaRentMap/PattayaRentMap/DateRangePickerView.swift:170-172 | one range's three-way test as written; `RangeBooksIffCoversDay` gives its meaning |
| `DateRangePicker.IsDateBooked` | PattayaRentMap/PattayaRentMap/DateRangePickerView.swift:168-174 | the source's `isDateBooked` expression itself; `IsDateBookedIffCovered` gives its meaning |
| `DateRangePicker.IsDateBookedIffCovered` | PattayaRentMap/PattayaRentMap/DateRangePickerView.swift:168-174 | a date is booked iff some range covers its day |
| `DateRangePicker.BookedCellIffInside` | PattayaRentMap/PattayaRentMap/DateRangePickerView.swift:168-174 | for day-start dates and midnight-started ranges, booked iff `start <= d <= end` for some range: the same-day checks add nothing |
| `DateRangePicker.ForegroundColor` | PattayaRentMap/PattayaRentMap/DateRangePickerView.swift:223-228 | booked days are red; other days are primary inside the month and secondary outside |
| `DateRangePicker.Background` | PattayaRentMap/PattayaRentMap/DateRangePickerView.swift:186-196 | the ends get the strong fill, and the inside of the selection the light one |
| `DateRangePicker.DateRangePickerView.constructor` | PattayaRentMap/PattayaRentMap/DateRangePickerView.swift:10-16 | the picker shows the month of the moment it is created |
| `DateRangePicker.DateRangePickerView.OnAppear` | PattayaRentMap/PattayaRentMap/DateRangePickerView.swift:44-46 | the month on show is pinned to its day start, and the month does not change |
| `DateRangePicker.DateRangePickerView.ShowPreviousMonth` | PattayaRentMap/PattayaRentMap/DateRangePickerView.swift:129-131 | the month on show becomes exactly the previous month, with the day clamped |
| `DateRangePicker.DateRangePickerView.ShowNextMonth` | PattayaRentMap/PattayaRentMap/DateRangePickerView.swift:133-135 | the month on show becomes exactly the next month, with the day clamped |
| `DateRangePicker.DateRangePickerView.TapDay` | PattayaRentMap/PattayaRentMap/DateRangePickerView.swift:162-165 | a tap on a booked day changes nothing; any other tap performs `selectDate` |
| `DayCell.StartOfDayOrder` | PattayaRentMap/PattayaRentMap/DayView.swift:75-79 | comparing day starts is comparing days |
| `DayCell.IsInAnyBookedRange` | PattayaRentMap/PattayaRentMap/DayView.swift:65-72 | the source's `isInAnyBookedRange` expression itself; `IsDateBookedIffCovered` gives its meaning |
| `DayCell.IsDateBooked` | PattayaRentMap/PattayaRentMap/DayView.swift:74-81 | the source's `isDateBooked` expression itself; `IsDateBookedIffCovered` and `BookedAgreesWithPicker` give its meaning |
| `DayCell.IsPast` | PattayaRentMap/PattayaRentMap/DayView.swift:25 | the source's `date < startOfDay(now)` itself; `IsPastIffEarlierDay` gives its meaning |
| `DayCell.IsFromOtherMonth` | PattayaRentMap/PattayaRentMap/DayView.swift:26 | the source's month comparison itself; it feeds `ForegroundColor`, whose iffs say what it decides |
| `DayCell.InRangeByDayIffCovers` | PattayaRentMap/PattayaRentMap/DayView.swift:65-72 | one range's day-start test holds iff the range covers the date's day |
| `DayCell.IsDateBookedIffCovered` | PattayaRentMap/PattayaRentMap/DayView.swift:65-81 | `isDateBooked(d)` holds iff some range has `startOfDay(start) <= startOfDay(d) <= startOfDay(end)`, and `isInAnyBookedRange` agrees with it on every date |
| `DayCell.BookedAgreesWithPicker` | PattayaRentMap/PattayaRentMap/DayView.swift:74-81 | on valid ranges, this cell and the picker's cell call the same days booked |
| `DayCell.IsPastIffEarlierDay` | PattayaRentMap/PattayaRentMap/DayView.swift:25 | a date is past iff its day is before today |
| `DayCell.ForegroundColor` | PattayaRentMap/PattayaRentMap/DayView.swift:100-111 | the colour is decided in this order: red when booked and in the month, else gray when past, else faded gray in another month, else primary |
| `DayCell.Tap` | PattayaRentMap/PattayaRentMap/DayView.swift:47-52 | a tap selects only on a day that is neither booked nor before today; otherwise nothing changes |
| `YearCalendar.BookedRangesForYear` | PattayaRentMap/PattayaRentMap/YearCalendarView.swift:90-94 | as written: the order-preserving subsequence of ranges whose start falls in the year, each kept as often as it occurs |
| `YearCalendar.StartYear` | PattayaRentMap/PattayaRentMap/YearCalendarView.swift:92 | the source's `component(.year, from: range.startDate)` itself; `BookedRangesForYear` and `NewYearBookingMissing` show what filtering on it does |
| `YearCalendar.NewYearBookingMissing` | PattayaRentMap/PattayaRentMap/YearCalendarView.swift:90-94 | a range from December into January books New Year's Day, but the range is not handed to the next year's calendar, so that day shows free |
| `YearCalendar.BookedRangesTouchingYear` | PattayaRentMap/PattayaRentMap/YearCalendarView.swift:90-94 | alternative filter: the order-preserving subsequence of ranges that reach into the year, each kept as often as it occurs |
| `YearCalendar.CoveringRangeTouchesYear` | PattayaRentMap/PattayaRentMap/YearCalendarView.swift:215-219 | a range that books a day of the year reaches into that year |
| `YearCalendar.TouchingYearKeepsBookedDays` | PattayaRentMap/PattayaRentMap/YearCalendarView.swift:82 | with the alternative filter, every day of the year would be booked in the year view exactly when it is booked at all |
| `YearCalendar.YearCalendarView.RangesShown` | PattayaRentMap/PattayaRentMap/YearCalendarView.swift:82 | every month of the year on show receives exactly the ranges whose start falls in that year |
| `YearCalendar.YearCalendarView.constructor` | PattayaRentMap/PattayaRentMap/YearCalendarView.swift:24-29 | the year on show is the year of today |
| `YearCalendar.YearCalendarView.PreviousYear` | PattayaRentMap/PattayaRentMap/YearCalendarView.swift:96-98 | the year goes down by exactly one |
| `YearCalendar.YearCalendarView.NextYear` | PattayaRentMap/PattayaRentMap/YearCalendarView.swift:100-102 | the year goes up by exactly one |
| `YearCalendar.MonthDays` | PattayaRentMap/PattayaRentMap/YearCalendarView.swift:162-171 | `offset` zeros, then the days; the length is `offset + n`, an entry is zero iff it comes before `offset`, and every other entry is a valid day of the month |
| `YearCalendar.MonthDaysMatchGrid` | PattayaRentMap/PattayaRentMap/YearCalendarView.swift:136-150 | each non-blank cell shows the same date as the picker's grid cell, under the right weekday column |
| `YearCalendar.WeekdaySymbols` | PattayaRentMap/PattayaRentMap/YearCalendarView.swift:181-192 | without symbols, the fixed Russian letters. Otherwise entry `i` is the first letter of `symbols[(firstWeekday - 1 + i) % count]` |
| `YearCalendar.RotationIndices` | PattayaRentMap/PattayaRentMap/YearCalendarView.swift:189-190 | `s[k...] + s[..<k]` holds at `i` the element `(k + i) % count` |
| `YearCalendar.FirstLetter` | PattayaRentMap/PattayaRentMap/YearCalendarView.swift:191 | `prefix(1)` is at most one character, taken from the front |
| `YearCalendar.TodayIsOneCell` | PattayaRentMap/PattayaRentMap/YearCalendarView.swift:221 | a cell is today's iff its date is today's civil date |
| `YearCalendar.IsBookedCell` | PattayaRentMap/PattayaRentMap/YearCalendarView.swift:215-219 | the cell's `isBooked` expression, the picker's three-way test on the cell's date; `DateRangePicker.IsDateBookedIffCovered` and `CoveringRangeTouchesYear` give its meaning |
| `YearCalendar.IsTodayCell` | PattayaRentMap/PattayaRentMap/YearCalendarView.swift:221 | the source's `isDate(date, inSameDayAs: Date())` itself; `TodayIsOneCell` gives its meaning |
| `YearCalendar.Background` | PattayaRentMap/PattayaRentMap/YearCalendarView.swift:227-235 | in the background, today's tint wins over the booked one |
| `YearCalendar.Foreground` | PattayaRentMap/PattayaRentMap/YearCalendarView.swift:236 | in the text colour, booked wins over today |
| `YearCalendar.LayersDisagreeOnBookedToday` | PattayaRentMap/PattayaRentMap/YearCalendarView.swift:227-236 | a booked today is drawn with a blue circle behind red text |
| `MapEditor.NewObject` | PattayaRentMap/Map/MapObject.swift:47-65 | the new object has blank title and description and takes the initialiser defaults everywhere else |
| `MapEditor.Apply` | PattayaRentMap/Map/MapViewModel.swift:30 | an edit sets exactly one field |
| `MapEditor.IndexOf` | PattayaRentMap/Map/MapViewModel.swift:29 | `firstIndex(where:)`: the first position with the id, or none exactly when no object has it |
| `MapEditor.Edited` | PattayaRentMap/Map/MapViewModel.swift:28-39 | only the first object with the id gets the edit, and every other position is unchanged; an unknown id changes nothing |
| `MapEditor.EditedKeepsIds` | PattayaRentMap/Map/MapViewModel.swift:28-39 | every position keeps its object's id |
| `MapEditor.TitleEditChangesOnlyTitle` | PattayaRentMap/Map/MapViewModel.swift:28-32 | a title edit changes only the title of the first matching object |
| `MapEditor.EditIdempotent` | PattayaRentMap/Map/MapViewModel.swift:28-39 | repeating an edit changes nothing more |
| `MapEditor.MapViewModel.constructor` | PattayaRentMap/Map/MapViewModel.swift:60-73 | the saved objects when they decode, otherwise an empty list; nothing is selected |
| `MapEditor.MapViewModel.StartCreatingObject` | PattayaRentMap/Map/MapViewModel.swift:15-25 | exactly one blank object is appended and becomes the selected object |
| `MapEditor.MapViewModel.UpdateTitle` | PattayaRentMap/Map/MapViewModel.swift:28-32 | the list becomes the title edit of the first object with the target's id |
| `MapEditor.MapViewModel.UpdateDescription` | PattayaRentMap/Map/MapViewModel.swift:35-39 | the list becomes the description edit of the first object with the target's id |
| `MapEditor.MapViewModel.ResetUserObjects` | PattayaRentMap/Map/MapViewModel.swift:42-47 | there are no objects and nothing is selected |
| `MapList.MapViewModel.constructor` | PattayaRentMap/PattayaRentMap/Map/MapViewModel.swift:18-20 | the saved objects when they decode, otherwise the initial empty list |
| `MapList.MapViewModel.LoadObjects` | PattayaRentMap/PattayaRentMap/Map/MapViewModel.swift:38-43 | absent or undecodable data leaves the list as it was |
| `MapList.MapViewModel.AddObject` | PattayaRentMap/PattayaRentMap/Map/MapViewModel.swift:22-25 | the object is appended at the end, and the rest is unchanged |
| `MapList.MapViewModel.DeleteObject` | PattayaRentMap/PattayaRentMap/Map/MapViewModel.swift:27-30 | exactly the elements at the offsets go, the others keep their order, and the count drops by the number of offsets |
| `Seqs.RemovedAtProperties` | PattayaRentMap/PattayaRentMap/Map/MapViewModel.swift:28 | `remove(atOffsets:)`: the length drops by the number of offsets, and element `i` of a kept position moves to `i` minus the removed positions before it |
| `Strings.Lower` | SnippetLauncher/SnippetLauncher/SnippetViewModel.swift:29 | `lowercased()` keeps the length and lower-cases each character |
| `Strings.LowerIdempotent` | SnippetLauncher/SnippetLauncher/SnippetViewModel.swift:29-31 | lower-casing twice is lower-casing once |
| `Strings.LessTotal` | SnippetLauncher/SnippetLauncher/SnippetViewModel.swift:31 | any two keys are equal or ordered one way round |
| `Strings.LessTransitive` | SnippetLauncher/SnippetLauncher/SnippetViewModel.swift:31 | string `<` is transitive |
| `Strings.ContainsIsCaseInsensitive` | SnippetLauncher/SnippetLauncher/MainAppController.swift:184 | an exact occurrence of a non-empty search text is also a case-insensitive match |
| `Strings.ContainsIgnoringCase` | SnippetLauncher/SnippetLauncher/MainAppController.swift:184 | `localizedCaseInsensitiveContains` as an ASCII case-folded substring test; `ContainsIsCaseInsensitive` and `MainApp.FilteredSnippets` give its meaning |
| `Strings.Trim` | SnippetLauncher/SnippetLauncher/SnippetModel.swift:23 | `trimmingCharacters(in: .whitespaces)` gives a slice of the string with no whitespace at either end and nothing but whitespace outside it; a trimmed string is kept whole |
| `Strings.TrimUnique` | SnippetLauncher/SnippetLauncher/SnippetModel.swift:23 | only one trimmed slice has nothing but whitespace around it, so `Trim`'s contract fixes its result |
| `Strings.Split` | SnippetLauncher/SnippetLauncher/SnippetModel.swift:22 | `split(separator:)` gives the non-empty pieces between separators, in order, none holding the separator |
| `Strings.JoinedPieces` | SnippetLauncher/SnippetLauncher/SnippetModel.swift:22 | the pieces between separators, joined with the separator, give the string back |
| `Strings.SplitOfJoined` | SnippetLauncher/SnippetLauncher/SnippetModel.swift:19-22 | splitting non-empty parts joined by a separator none of them holds gives the parts back |
| `Strings.Joined` | SnippetLauncher/SnippetLauncher/SnippetModel.swift:19 | joining no parts gives `""`, and joining one part gives that part |
| `Strings.PiecesOfJoined` | SnippetLauncher/SnippetLauncher/SnippetModel.swift:19-22 | splitting parts joined by a one-character separator none of them holds gives the parts back |
| `Snippets.TagsString` | SnippetLauncher/SnippetLauncher/SnippetModel.swift:19 | the getter gives `""` for no tags and the tag itself for one tag |
| `Snippets.ParseTags` | SnippetLauncher/SnippetLauncher/SnippetModel.swift:20-24 | for each non-empty comma-separated piece, the piece trimmed; no tag holds a comma or starts or ends with whitespace |
| `Snippets.SetTagsString` | SnippetLauncher/SnippetLauncher/SnippetModel.swift:20-24 | the setter changes only the tags |
| `Snippets.ParseEmpty` | SnippetLauncher/SnippetLauncher/SnippetModel.swift:20-24 | setting `""` gives no tags |
| `Snippets.ParseBlank` | SnippetLauncher/SnippetLauncher/SnippetModel.swift:20-24 | setting `" "` gives one empty tag |
| `Snippets.TagsRoundTrip` | SnippetLauncher/SnippetLauncher/SnippetModel.swift:19-24 | setting `tagsString` to its own value restores tags that are comma-free and trimmed, with a non-empty first tag |
| `Snippets.LoneEmptyTagLost` | SnippetLauncher/SnippetLauncher/SnippetModel.swift:19-24 | a single empty tag does not survive the round trip |
| `Snippets.ParsedTagsAreClean` | SnippetLauncher/SnippetLauncher/SnippetModel.swift:20-24 | whatever is set, the tags are comma-free and trimmed |
| `SnippetLists.IndexOfId` | SnippetLauncher/SnippetLauncher/SnippetViewModel.swift:39 | `firstIndex(where:)`: the first position with the id, or none exactly when no snippet has it |
| `SnippetLists.Updated` | SnippetLauncher/SnippetLauncher/SnippetViewModel.swift:38-42 | only the first snippet with the id is replaced; the length and every other element are unchanged; an absent id is a no-op |
| `SnippetLists.WithoutId` | SnippetLauncher/SnippetLauncher/SnippetViewModel.swift:45 | every snippet with the id goes, all others stay as often as they occurred, and the order is kept |
| `SnippetLists.WithoutIds` | SnippetLauncher/SnippetLauncher/SnippetViewModel.swift:51 | exactly the snippets with a selected id go, the others stay as often as they occurred, and the order is kept |
| `SnippetLists.UpdatedKeepsIds` | SnippetLauncher/SnippetLauncher/SnippetViewModel.swift:38-42 | every position keeps its id |
| `SnippetLists.SubsequenceKeepsUniqueIds` | SnippetLauncher/SnippetLauncher/SnippetViewModel.swift:44-53 | removing snippets cannot create a duplicate id |
| `SnippetLists.DeletionsKeepUniqueIds` | SnippetLauncher/SnippetLauncher/SnippetViewModel.swift:44-53 | both deletions keep ids distinct |
| `SnippetLists.UpdatedKeepsUniqueIds` | SnippetLauncher/SnippetLauncher/SnippetViewModel.swift:38-42 | an update keeps ids distinct |
| `SortedSnippetStore.InsertionPoint` | SnippetLauncher/SnippetLauncher/SnippetViewModel.swift:31 | every earlier key is at most the new key, and the key at the point, if any, is strictly greater |
| `SortedSnippetStore.Inserted` | SnippetLauncher/SnippetLauncher/SnippetViewModel.swift:31-35 | the snippets before the insertion point stay, the snippet comes next, and the rest follow in their old order; so the list is the old one plus the snippet |
| `SortedSnippetStore.Added` | SnippetLauncher/SnippetLauncher/SnippetViewModel.swift:27-36 | a known id changes nothing; a new id puts exactly that snippet at the insertion point, with every other snippet in its old order |
| `SortedSnippetStore.InsertedKeepsSorted` | SnippetLauncher/SnippetLauncher/SnippetViewModel.swift:29-35 | a list sorted by lower-cased title is still sorted after the insert |
| `SortedSnippetStore.InsertedAfterEqualKeys` | SnippetLauncher/SnippetLauncher/SnippetViewModel.swift:31 | a snippet lands after every existing one with an equal lower-cased title |
| `SortedSnippetStore.AddedKeepsUniqueIds` | SnippetLauncher/SnippetLauncher/SnippetViewModel.swift:28-35 | the duplicate guard keeps ids distinct |
| `SortedSnippetStore.SubsequenceKeepsSorted` | SnippetLauncher/SnippetLauncher/SnippetViewModel.swift:44-53 | removing snippets keeps the list sorted |
| `SortedSnippetStore.DeletionsKeepSorted` | SnippetLauncher/SnippetLauncher/SnippetViewModel.swift:44-53 | both deletions keep the list sorted |
| `SortedSnippetStore.AddToEmpty` | SnippetLauncher/SnippetLauncher/SnippetViewModel.swift:33-34 | adding to an empty store appends |
| `SortedSnippetStore.DeletionsKeepValid` | SnippetLauncher/SnippetLauncher/SnippetViewModel.swift:44-53 | deletions keep the list sorted with distinct ids |
| `SortedSnippetStore.SnippetViewModel.constructor` | SnippetLauncher/SnippetLauncher/SnippetViewModel.swift:65-74 | the decoded file's snippets, or the initial empty list when it is missing or unreadable; nothing is selected |
| `SortedSnippetStore.SnippetViewModel.AddSnippet` | SnippetLauncher/SnippetLauncher/SnippetViewModel.swift:27-36 | the list becomes the guarded sorted insert, keeping sortedness and distinct ids |
| `SortedSnippetStore.SnippetViewModel.UpdateSnippet` | SnippetLauncher/SnippetLauncher/SnippetViewModel.swift:38-42 | the first snippet with the id is replaced, keeping ids distinct |
| `SortedSnippetStore.SnippetViewModel.DeleteSnippet` | SnippetLauncher/SnippetLauncher/SnippetViewModel.swift:44-48 | every snippet with the id goes, the id leaves the selection, and the store stays sorted with distinct ids |
| `SortedSnippetStore.SnippetViewModel.DeleteSelectedSnippets` | SnippetLauncher/SnippetLauncher/SnippetViewModel.swift:50-53 | exactly the selected snippets go, and the selection is emptied |
| `AppendSnippetStore.UpdatedTouchesOnlyTarget` | MinimalSnippetInserter/SnippetViewModel.swift:27-32 | an update leaves every snippet of another id where it was |
| `AppendSnippetStore.WithoutIdKeepsOthers` | MinimalSnippetInserter/SnippetViewModel.swift:34-38 | deleting one id keeps every snippet of another id, in order |
| `AppendSnippetStore.DuplicatesKept` | MinimalSnippetInserter/SnippetViewModel.swift:22-25 | appending two snippets with one id keeps both, so ids can repeat |
| `AppendSnippetStore.SnippetViewModel.constructor` | MinimalSnippetInserter/SnippetViewModel.swift:18-20 | the decoded file's snippets, or an empty list; nothing is selected or being edited |
| `AppendSnippetStore.SnippetViewModel.AddSnippet` | MinimalSnippetInserter/SnippetViewModel.swift:22-25 | the snippet is appended, with no check |
| `AppendSnippetStore.SnippetViewModel.UpdateSnippet` | MinimalSnippetInserter/SnippetViewModel.swift:27-32 | only the first snippet with the id is replaced |
| `AppendSnippetStore.SnippetViewModel.DeleteSnippet` | MinimalSnippetInserter/SnippetViewModel.swift:34-38 | every snippet with the id goes, and the id leaves the selection |
| `AppendSnippetStore.SnippetViewModel.DeleteSelectedSnippets` | MinimalSnippetInserter/SnippetViewModel.swift:40-46 | every selected snippet goes, and the selection is cleared |
| `MainApp.FilteredSnippets` | SnippetLauncher/SnippetLauncher/MainAppController.swift:182-186 | the result is order-preserving; an empty search returns all snippets; otherwise it returns exactly the snippets whose title contains the search text, ignoring case, each as often as it occurs |
| `MainApp.SelectedSnippet` | SnippetLauncher/SnippetLauncher/MainAppController.swift:178-180 | none exactly when no snippet has the current id; otherwise the first snippet with it |
| `MainApp.RangeIds` | SnippetLauncher/SnippetLauncher/MainAppController.swift:338-339 | the ids of `filtered[min(i,j)...max(i,j)]`, both ends included |
| `MainApp.AfterClick` | SnippetLauncher/SnippetLauncher/MainAppController.swift:327-346 | after every click, the clicked id is current and selected |
| `MainApp.AfterClickCases` | SnippetLauncher/SnippetLauncher/MainAppController.swift:328-343 | a plain click selects `{id}` and anchors there. A shift-click with the anchor and the clicked snippet both listed selects the run and keeps the anchor. A shift-click with no listed anchor acts as a plain click |
| `MainApp.ShiftClickSelectsRun` | SnippetLauncher/SnippetLauncher/MainAppController.swift:338-339 | the run holds every listed snippet between the anchor and the clicked one, and nothing that is not listed |
| `MainApp.ShiftClickOnAnchor` | SnippetLauncher/SnippetLauncher/MainAppController.swift:329-339 | a shift-click on the anchor selects just the anchor |
| `MainApp.EditorSave` | SnippetLauncher/SnippetLauncher/MainAppController.swift:78-88 | "Save" keeps the id and title, takes the edited content, and stores the tags parsed back from the joined `tagsString`, which are always clean; tags that survive the round trip come back unchanged |
| `MainApp.MainAppView.constructor` | SnippetLauncher/SnippetLauncher/MainAppController.swift:162-168 | nothing is edited, selected or searched |
| `MainApp.MainAppView.HandleSnippetSelection` | SnippetLauncher/SnippetLauncher/MainAppController.swift:327-346 | the selection, anchor and current id become the click's outcome on the filtered list |
| `MainApp.MainAppView.ClearSelection` | SnippetLauncher/SnippetLauncher/MainAppController.swift:253-256 | a tap on the blank strip clears the selection and the current id |
| `MainApp.MainAppView.DeleteSelectedSnippet` | SnippetLauncher/SnippetLauncher/MainAppController.swift:319-325 | this is a no-op on an empty selection. Otherwise exactly the selected snippets leave the store, and both the selection and the current id are cleared. A sorted store with distinct ids stays so |
| `MainApp.MainAppView.DeleteRow` | SnippetLauncher/SnippetLauncher/MainAppController.swift:268 | a row's Delete is the store's `deleteSnippet` |
| `MainApp.MainAppView.OnAppear` | SnippetLauncher/SnippetLauncher/MainAppController.swift:279-284 | with nothing current, the first listed snippet becomes current and selected; otherwise nothing changes |
| `MainApp.MainAppView.CreateNewSnippet` | SnippetLauncher/SnippetLauncher/MainAppController.swift:307-312 | the editor opens on a blank new snippet |
| `MainApp.MainAppView.EditSelectedSnippet` | SnippetLauncher/SnippetLauncher/MainAppController.swift:314-317 | the editor opens on the current snippet, and nothing happens without one |
| `MainApp.MainAppView.EditRow` | SnippetLauncher/SnippetLauncher/MainAppController.swift:266-267 | a double click or Edit opens the editor on the row's snippet |
| `MainApp.MainAppView.EditTags` | SnippetLauncher/SnippetLauncher/MainAppController.swift:68 | typing into the tags field writes through the `tagsString` setter of the edited snippet |
| `MainApp.MainAppView.OnSave` | SnippetLauncher/SnippetLauncher/MainAppController.swift:292-302 | the sheet closes. Cancel changes nothing. A saved new snippet is added, and a saved existing snippet is updated; either way the saved snippet becomes current |
| `MainApp.SavedNewSnippetIsStored` | SnippetLauncher/SnippetLauncher/MainAppController.swift:296-297 | a new snippet with an unused id is in the store after saving |
| `MainApp.DeletedSelectionIsGone` | SnippetLauncher/SnippetLauncher/MainAppController.swift:321 | after the multi-delete, no snippet with a selected id remains |
| `Gregorian.StartOfDay` | PattayaRentMap/BookingModels.swift:47-49 | `startOfDay` is the midnight of the same day: at most the instant and less than a day before it |
| `Gregorian.Weekday` | PattayaRentMap/PattayaRentMap/DateRangePickerView.swift:94 | the weekday is in 1..7 |
| `Gregorian.ColumnOffset` | PattayaRentMap/PattayaRentMap/DateRangePickerView.swift:95 | `daysToAdd` is in 0..6, and counting it on from `firstWeekday` reaches the first day's weekday |
| `Gregorian.MonthOfDay` | PattayaRentMap/PattayaRentMap/DateRangePickerView.swift:86 | `dateInterval(of: .month)` is the month whose days include the given day |
| `Gregorian.DateBySettingDay` | PattayaRentMap/PattayaRentMap/DateRangePickerView.swift:103 | setting the day of the first of a month gives that civil date |
| `Gregorian.AddingMonth` | PattayaRentMap/PattayaRentMap/DateRangePickerView.swift:129-135 | one month on or back lands in the next or the previous month, on the same day clamped to that month's length, at the same time of day |

## Left out

- Persistence is not modelled: `save`/`load`/`loadAll`, `saveObjects`, the JSON files and `UserDefaults`. A load becomes an optional decoded list handed to the constructor, and a save (including the one in the `bookingRanges` `didSet`) has no effect on the model.
- Clipboard writes, hiding the app, the synthetic Cmd+V keystroke with its delayed dispatch, hotkey registration and window management are OS calls and are not modelled.
- SwiftUI layout, fonts, opacity, hover, animation and gestures are not modelled beyond the colour and fill choices listed above.
- Locale-formatted month names and weekday symbols are not modelled. The year view takes the formatter's symbols as a parameter, with its fixed Russian fallback. The picker's capitalised symbols are left out.
- Photos, image loading and the sheet-identity `UUID` of `EditingContext` are not modelled.
- MinimalSnippetInserter's main window and editor are window plumbing and are not modelled. Its editor makes a fresh `UUID` on save, so its "update" never matches an existing snippet.
- Floating-point coordinates are an opaque value that is only copied.
- `Strings.Lower`: lower-cases ASCII letters only, not full Unicode case mapping. Strings are sequences of Unicode scalars, not grapheme clusters.
- `Strings.Less`: compares scalar values lexicographically, not with Swift's canonical-equivalence ordering.
- `Strings.ContainsIgnoringCase`: `localizedCaseInsensitiveContains` is modelled as an ASCII case-folded substring test that is false for an empty needle; locale-specific folding is not modelled.
- `Strings.IsWhitespace`: `.whitespaces` is modelled as tab plus the Unicode space separators, taken as a fixed list.
- `MainApp.MainAppView.HandleSnippetSelection`: `Set.first` has no fixed order. It is a parameter `firstSelected` that must be some member of the selection (or none for the empty one), and `NSEvent.modifierFlags` is the parameter `shift`.
- `Gregorian.MonthOfDay`: `dateInterval(of: .month, for:)` never fails in the Gregorian model, so the `return []` failure paths of the three grid builders are not reached.
- Time zones and daylight-saving time are not modelled: every day has 86400 seconds in one fixed zone. `Date.distantPast` is the first instant of the model, 1 January of year 1.
- `DateRangePicker.IsDateBooked`: requires every range to have `start <= end`. The source builds `start...end` there, which traps otherwise; the same holds for `ApartmentDetail.IsBooked` and `DayCell.IsDateBooked` (per day start).
- `YearCalendar.MonthDays`: requires a month in 1...12. The view only builds months 1...12, so the `nil` path of `calendar.date(from:)` is not modelled.
- `YearCalendar.WeekdaySymbols`: requires `firstWeekday - 1 <= symbols.count`, where `symbols[startIndex...]` would otherwise trap.
- The booking types differ between the two copies of the model. Apartment.swift's type is `.reserved`/`.tentative`, and only `.reserved` makes an apartment rented; BookingModels.swift's type is `.confirmed`/`.tentative`. The model follows each file.
- `ApartmentDetail.ApartmentDetailView.ConfirmBooking`: follows the code. The conflict test compares day starts, but the booking is stored with the selected dates as they are, not normalised to the start of the day.
- `MapEditor.NewObject`: `startCreatingObject` passes `photoURLs: []`, which matches no argument of `MapObject.init` (PattayaRentMap/Map/MapObject.swift:47-56). The model gives the new object no photo paths.

## Findings

| source | as written | input that shows it | evidently intended | confidence | as-written member | corrected member |
|---|---|---|---|---|---|---|
| PattayaRentMap/PattayaRentMap/DateRangePickerView.swift:118 | the trailing cells take their days from `current` plus one month, but after the month loop `current` is already the first of the next month, so the cells show days of the month after that | April 2025 with Sunday-first rows: cell 32, right after 30 April, shows 1 June | the trailing cells continue with 1, 2, … of the next month (1 May) | high; not executed | `DateRangePicker.DaysInMonthAsWritten`, `DateRangePicker.AsWrittenTrailingCells`, `DateRangePicker.AsWrittenApril2025` | `DateRangePicker.DaysInMonth`, `DateRangePicker.MonthGridCell` |
| PattayaRentMap/PattayaRentMap/YearCalendarView.swift:90-94 | `bookedRangesForYear` keeps only the ranges whose start date is in the year | a booking from 30 December 2024 to 2 January 2025: the 2025 calendar shows 1 and 2 January as free | a possible reading: every range that reaches into the year is handed to its months. Nothing in the source says whether a range across New Year should also appear in the next year, so the view keeps the filter as written | low; not executed | `YearCalendar.BookedRangesForYear`, `YearCalendar.NewYearBookingMissing` | `YearCalendar.BookedRangesTouchingYear`, `YearCalendar.TouchingYearKeepsBookedDays` |
