# Booking rule engine: a Dafny model

This project models the booking rules of a shared-resource reservation service
(meeting rooms, a conference hall, a projector, a laptop). The rules decide whether a
proposed reservation is legal and how a booking is classified against the current time:

- **Interval and duration validation** (`BookingTimeValidator.ValidateBookingTime`,
  `BookingTimeValidator.ValidateDuration`). The end must be strictly after the start, and the
  duration `(end - start) / 60000` minutes must lie in [15, 120].
- **The buffered conflict check** (`BookingTimeValidator.CheckBookingConflict`). A candidate
  conflicts with a stored booking on the same resource, other than an optional excluded id, when
  `existing.start < end + 10 min` and `existing.end > start - 10 min`. Prisma's `findFirst` is
  `BookingRecord.FindFirst`, a search over the store held as a sequence.
- **The create operation** (`BookingService.BookingStore.CreateNewBooking`). It is a method on a
  class whose `bookings` field is the booking table. It runs the same checks inline, as the source
  does. It is proved equal to `BookingService.CreateSpec`, which chains the extracted validators
  and the conflict check with no exclusion. On success it appends one record whose
  `durationMinutes` is recomputed. On every rejection the table is left unchanged.
- **The status classifier** (`BookingStatus.GetBookingStatus`). It maps `(start, end, now)` to
  Upcoming, Ongoing or Past.
- **The constants** (`BookingConstant`): the 10-minute buffer, the 15/120-minute bounds, and the
  closed set of five resources as a datatype. `ParseResource` gives the closed-set membership
  test that the request schema applies.

Timestamps are `int` milliseconds since the epoch. A duration in minutes is an exact `real`. The
wall clock read by the classifier is the parameter `now`. The identifier that the database
generates for a new row is the parameter `newId`.

Points where the code departs from what a reader might expect:

- The create operation runs its checks inline and has no id exclusion. The model proves that
  this agrees with the extracted checks (`CreateNewBooking` ensures `r == CreateSpec(...)`).
- The route table (src/app/modules/Booking/booking.route.ts:7,13-18) names handlers for free
  slots, listing, cancel and update. Neither the service nor the controller implements them, so
  there is nothing to model (see "Left out").
- `excludeBookingId` is tested for JavaScript truthiness. So an empty id excludes nothing
  (`EmptyExcludeIdExcludesNothing`).

## Model

| member | source | states |
|---|---|---|
| BookingConstant.ResourceName | src/app/modules/Booking/booking.constant.ts:4-10 | every resource's wire name is one of the `RESOURCE_TYPE` names |
| BookingConstant.ParseResource | src/app/modules/Booking/booking.constant.ts:4-10 | a name denotes a resource iff it is listed in `RESOURCE_TYPE`; any other name is rejected; a parsed name maps back to itself |
| BookingConstant.ParseResourceName | src/app/modules/Booking/booking.constant.ts:4-10 | parsing a resource's name gives back that resource |
| BookingConstant.ResourceNameInjective | src/app/modules/Booking/booking.constant.ts:4-10 | distinct resources have distinct names |
| BookingConstant.ResourceTypesAreFiveDistinct | src/app/modules/Booking/booking.constant.ts:4-10 | `RESOURCE_TYPE` has exactly five pairwise distinct names |
| BookingConstant.DurationRangeNonEmpty | src/app/modules/Booking/booking.constant.ts:1-3 | the buffer is positive and 0 < 15 <= 120, so valid durations exist |
| BookingRecord.FindFirst | src/helpers/bookingTimeValidator.ts:47-58 | returns `None` iff no stored record satisfies the filter; otherwise the earliest record in store order that satisfies it |
| BookingTimeValidator.ValidateBookingTime | src/helpers/bookingTimeValidator.ts:11-18 | passes iff `start < end`; fails with the end-not-after-start error otherwise, including `end == start` |
| BookingTimeValidator.ValidateDuration | src/helpers/bookingTimeValidator.ts:20-36 | accepts iff `15*60000 <= end-start <= 120*60000` ms; too short iff below, too long iff above; on success returns minutes `m` with `m * 60000 == end - start` and `15 <= m <= 120` |
| BookingTimeValidator.CheckBookingConflict | src/helpers/bookingTimeValidator.ts:38-66 | fails (with the conflict error) iff some stored booking has the same resource, a different id when a non-empty exclusion id is given, `start < end + 10 min` and `end > start - 10 min` |
| BookingTimeValidator.BufferedOverlapSymmetric | src/helpers/bookingTimeValidator.ts:44-56 | booking a meets b's buffered window iff b meets a's |
| BookingTimeValidator.BookingsAtLeastBufferApart | src/helpers/bookingTimeValidator.ts:53-54 | in a store where no booking meets another's buffered window, any two bookings on one resource are separated by at least 10 minutes: one ends at least `BUFFER_MINUTES` before the other starts |
| BookingTimeValidator.ConflictIgnoresOtherResources | src/helpers/bookingTimeValidator.ts:49 | the check on the whole store equals the check on that resource's records alone |
| BookingTimeValidator.ExclusionRemovesOnlyThatId | src/helpers/bookingTimeValidator.ts:50 | excluding a non-empty id equals checking, with no exclusion, the store minus the records of that id |
| BookingTimeValidator.StoredBookingPassesOwnRecheck | src/helpers/bookingTimeValidator.ts:47-58 | in a store without buffered overlaps, re-checking a stored booking with its own id excluded passes |
| BookingTimeValidator.EmptyExcludeIdExcludesNothing | src/helpers/bookingTimeValidator.ts:50 | with an empty exclusion id a booking conflicts with itself |
| BookingTimeValidator.GapAfterExisting | src/helpers/bookingTimeValidator.ts:53-54 | for a candidate after an existing booking: conflict iff the gap is shorter than 10 minutes, so a gap of exactly 10 minutes is allowed |
| BookingTimeValidator.GapBeforeExisting | src/helpers/bookingTimeValidator.ts:53-54 | the same, for a candidate that ends before the existing booking starts |
| BookingTimeValidator.BufferEdgeExample | src/helpers/bookingTimeValidator.ts:44-58 | with [10:00,10:30) booked, [10:40,11:00) passes and [10:39,11:00) conflicts |
| BookingTimeValidator.DurationBoundsInclusive | src/helpers/bookingTimeValidator.ts:22-33 | exactly 15 and exactly 120 minutes are accepted and returned; one ms less or more is rejected |
| BookingStatus.GetBookingStatus | src/helpers/bookingStatus.ts:3-8 | Upcoming iff `now < start`; Ongoing iff `start <= now <= end`; Past iff `now >= start` and `now > end` |
| BookingStatus.PastIffEnded | src/helpers/bookingStatus.ts:7 | for `start <= end`, Past iff `now > end` |
| BookingStatus.OngoingBoundsInclusive | src/helpers/bookingStatus.ts:5-7 | `now == start` and `now == end` are Ongoing; one ms before is Upcoming, one ms after is Past |
| BookingStatus.StatusMonotone | src/helpers/bookingStatus.ts:5-7 | for `start <= end` the status never moves back as `now` grows |
| BookingService.CreateSpec | src/app/modules/Booking/booking.service.ts:11-63 | the create outcome: the ordering check, then the duration check, then the conflict check with no exclusion, then the insert, refused for an id already in use; a created record is well formed and carries the new, previously unused id |
| BookingService.CreateRejectsUnorderedInterval | src/app/modules/Booking/booking.service.ts:16-21 | the create reports end-not-after-start iff `end <= start`, before any duration check |
| BookingService.CreateRejectsDurationOutOfRange | src/app/modules/Booking/booking.service.ts:24-36 | for an ordered interval: too short iff under 15 minutes, too long iff over 120 minutes |
| BookingService.CreateConflictIff | src/app/modules/Booking/booking.service.ts:38-59 | for a valid interval: a conflict iff some stored booking on the resource meets `[start - 10 min, end + 10 min]`; no id is exempt |
| BookingService.CreateSuccess | src/app/modules/Booking/booking.service.ts:61-63 | succeeds iff all checks pass and the id is free; the record has the payload's fields, the new id and `durationMinutes * 60000 == end - start`, and is well formed |
| BookingService.CreateIgnoresSuppliedDuration | src/app/modules/Booking/booking.service.ts:62 | a caller-supplied `durationMinutes` does not change the outcome |
| BookingService.CreatePreservesInvariant | src/app/modules/Booking/booking.service.ts:42-63 | a successful create keeps every record well formed, any two bookings on one resource at least 10 minutes apart (neither meets the other's buffered window), and ids unique |
| BookingService.BookingStore.CreateNewBooking | src/app/modules/Booking/booking.service.ts:11-65 | the inline checks give exactly `CreateSpec`'s outcome; on success the table gains exactly the new record; on any rejection it is unchanged; the store invariant is kept |

## Left out

- HTTP wiring, routing, controllers, the sign-up service, configuration and lint settings. These
  are plumbing with no booking rules.
- The request schemas. Only their effect is modelled: a resource is one of five names
  (`ParseResource`), and start and end are timestamps. Date-string parsing is not modelled.
- Availability slots, update, cancel, listing with filters and grouping by resource. The router
  refers to handlers for some of these, but no implementation of them is in the service or
  controller files.
- The database. It is a sequence of records in insertion order, and `findFirst` returns the first
  match in that order. Prisma promises no particular order without `orderBy`, and the engine only
  uses whether a match exists. Identifier generation is the `newId` parameter. A create with an id
  already in use is refused as a store error (the unique-key violation). Other store failures are
  not modelled.
- Concurrency. Suspension at `await`, and the read-check-then-write race between concurrent
  creates, are outside the model. Each call runs alone, one after another.
- Floating point. `durationMinutes` is the exact real quotient. A JavaScript number rounds it, and
  the range of `Date` values is not bounded here.
- The wall clock. `new Date()` in the classifier is the parameter `now`.
