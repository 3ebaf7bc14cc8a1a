/**
 * The interval and duration checks and the buffered conflict check that decide
 * whether a proposed reservation is legal.
 */
module BookingTimeValidator {
  import opened Wrappers
  import opened BookingConstant
  import opened BookingRecord

  /** The `ApiError`s (all HTTP 400) the booking rules raise, and a failed store write. */
  datatype BookingError =
    | EndNotAfterStart   // "End time must be after start time."
    | DurationTooShort   // "Booking duration must be at least 15 minutes."
    | DurationTooLong    // "Booking duration cannot exceed 120 minutes."
    | Conflict           // "Booking conflicts with another booking (including buffer time)."
    | PersistenceError   // the store refused the insert

  /** The buffer, the shortest and the longest duration, in milliseconds. */
  const BufferMs: int := BufferMinutes * MsPerMinute
  const MinDurationMs: int := MinDurationMinutes * MsPerMinute
  const MaxDurationMs: int := MaxDurationMinutes * MsPerMinute

  /** `(end.getTime() - start.getTime()) / (1000 * 60)`, as an exact real. */
  function MinutesBetween(start: int, end: int): real
  {
    (end - start) as real / (1000.0 * 60.0)
  }

  /** `validateBookingTime`: the end must come strictly after the start. */
  function ValidateBookingTime(start: int, end: int): (r: Outcome<BookingError>)
    ensures r.Pass? <==> start < end
    ensures r.Fail? ==> r.error == EndNotAfterStart
  {
    if end <= start then Fail(EndNotAfterStart) else Pass
  }

  /**
   * `validateDuration`: the duration in minutes, provided it lies in
   * [MinDurationMinutes, MaxDurationMinutes]; the ordering of start and end is not checked.
   */
  function ValidateDuration(start: int, end: int): (r: Result<real, BookingError>)
    ensures r.Ok? <==> MinDurationMs <= end - start <= MaxDurationMs
    ensures r == Err(DurationTooShort) <==> end - start < MinDurationMs
    ensures r == Err(DurationTooLong) <==> end - start > MaxDurationMs
    ensures r.Ok? ==> r.value * MsPerMinute as real == (end - start) as real
    ensures r.Ok? ==> MinDurationMinutes as real <= r.value <= MaxDurationMinutes as real
  {
    var durationMinutes := MinutesBetween(start, end);
    if durationMinutes < MinDurationMinutes as real then Err(DurationTooShort)
    else if durationMinutes > MaxDurationMinutes as real then Err(DurationTooLong)
    else Ok(durationMinutes)
  }

  /** The candidate interval widened by the buffer on the left ... */
  function BufferStart(start: int): int { start - BufferMs }

  /** ... and on the right. */
  function BufferEnd(end: int): int { end + BufferMs }

  /**
   * Whether `excludeBookingId` removes a record from the query. The source writes
   * `excludeBookingId ? { not: excludeBookingId } : undefined`, so an empty id
   * excludes nothing.
   */
  predicate Excluded(b: Booking, excludeBookingId: Option<string>)
  {
    excludeBookingId.Some? && excludeBookingId.value != "" && b.id == excludeBookingId.value
  }

  /** The `where` filter of the conflict query. */
  predicate ConflictsWith(b: Booking, resource: Resource, start: int, end: int,
                          excludeBookingId: Option<string>)
  {
    && b.resource == resource
    && !Excluded(b, excludeBookingId)
    && b.start < BufferEnd(end)
    && b.end > BufferStart(start)
  }

  /**
   * `checkBookingConflict`: fails exactly when some stored booking on the same
   * resource, other than the excluded one, meets the buffered window
   * (existing.start < end + buffer and existing.end > start - buffer).
   */
  function CheckBookingConflict(store: seq<Booking>, resource: Resource, start: int, end: int,
                                excludeBookingId: Option<string>): (r: Outcome<BookingError>)
    ensures r.Fail? ==> r.error == Conflict
    ensures r.Fail? <==>
      exists i ::
        && 0 <= i < |store|
        && store[i].resource == resource
        && (excludeBookingId.Some? && excludeBookingId.value != "" ==> store[i].id != excludeBookingId.value)
        && store[i].start < end + BufferMs
        && store[i].end > start - BufferMs
  {
    var conflict := FindFirst(store, b => ConflictsWith(b, resource, start, end, excludeBookingId));
    if conflict.Some? then Fail(Conflict) else Pass
  }

  /** The records of a store that a filter keeps, in store order. */
  function Keep(store: seq<Booking>, keep: Booking -> bool): (r: seq<Booking>)
    ensures forall b :: b in r <==> b in store && keep(b)
  {
    if store == [] then []
    else if keep(store[0]) then [store[0]] + Keep(store[1..], keep)
    else Keep(store[1..], keep)
  }

  /**
   * The buffered overlap of two intervals is symmetric: `a` meets the buffered
   * window of `b` exactly when `b` meets the buffered window of `a`.
   */
  lemma BufferedOverlapSymmetric(a: Booking, b: Booking)
    ensures (a.start < BufferEnd(b.end) && a.end > BufferStart(b.start)) <==>
            (b.start < BufferEnd(a.end) && b.end > BufferStart(a.start))
  {
  }

  /**
   * The store invariant the conflict check maintains: of any two bookings on the same
   * resource, neither meets the other's buffered window, so they are at least
   * `BufferMinutes` apart (`BookingsAtLeastBufferApart`).
   */
  ghost predicate NoBufferedOverlap(store: seq<Booking>)
  {
    forall i, j :: 0 <= i < j < |store| && store[i].resource == store[j].resource ==>
      !(store[i].start < BufferEnd(store[j].end) && store[i].end > BufferStart(store[j].start))
  }

  /**
   * The invariant in the design's own terms: any two bookings on one resource are
   * separated by a gap of at least `BufferMinutes`, one ending before the other starts.
   */
  lemma BookingsAtLeastBufferApart(store: seq<Booking>, i: int, j: int)
    requires NoBufferedOverlap(store)
    requires 0 <= i < |store| && 0 <= j < |store| && i != j
    requires store[i].resource == store[j].resource
    ensures store[i].end + BufferMs <= store[j].start || store[j].end + BufferMs <= store[i].start
  {
    if j < i {
      assert !(store[j].start < BufferEnd(store[i].end) && store[j].end > BufferStart(store[i].start));
    }
  }

  /**
   * Records on other resources never cause a conflict: the check on the whole store
   * agrees with the check on the records of the queried resource alone.
   */
  lemma ConflictIgnoresOtherResources(store: seq<Booking>, resource: Resource, start: int, end: int,
                                      excludeBookingId: Option<string>)
    ensures CheckBookingConflict(store, resource, start, end, excludeBookingId) ==
            CheckBookingConflict(Keep(store, (b: Booking) => b.resource == resource), resource, start, end, excludeBookingId)
  {
    var mine := Keep(store, (b: Booking) => b.resource == resource);
    if CheckBookingConflict(store, resource, start, end, excludeBookingId).Fail? {
      var i :| 0 <= i < |store| && ConflictsWith(store[i], resource, start, end, excludeBookingId);
      assert store[i] in mine;
    }
    if CheckBookingConflict(mine, resource, start, end, excludeBookingId).Fail? {
      var i :| 0 <= i < |mine| && ConflictsWith(mine[i], resource, start, end, excludeBookingId);
      assert mine[i] in store;
    }
  }

  /**
   * Passing a (non-empty) id as `excludeBookingId` is the same as checking against
   * the store with every record of that id removed.
   */
  lemma ExclusionRemovesOnlyThatId(store: seq<Booking>, resource: Resource, start: int, end: int, id: string)
    requires id != ""
    ensures CheckBookingConflict(store, resource, start, end, Some(id)) ==
            CheckBookingConflict(Keep(store, (b: Booking) => b.id != id), resource, start, end, None)
  {
    var others := Keep(store, (b: Booking) => b.id != id);
    if CheckBookingConflict(store, resource, start, end, Some(id)).Fail? {
      var i :| 0 <= i < |store| && ConflictsWith(store[i], resource, start, end, Some(id));
      assert store[i] in others;
    }
    if CheckBookingConflict(others, resource, start, end, None).Fail? {
      var i :| 0 <= i < |others| && ConflictsWith(others[i], resource, start, end, None);
      assert others[i] in store;
    }
  }

  /**
   * A booking never conflicts with itself: in a store without buffered overlaps,
   * re-checking any stored booking with its own (non-empty) id excluded passes.
   */
  lemma StoredBookingPassesOwnRecheck(store: seq<Booking>, k: int)
    requires NoBufferedOverlap(store)
    requires 0 <= k < |store| && store[k].id != ""
    ensures CheckBookingConflict(store, store[k].resource, store[k].start, store[k].end, Some(store[k].id)).Pass?
  {
    var b := store[k];
    forall j | 0 <= j < |store|
      ensures !ConflictsWith(store[j], b.resource, b.start, b.end, Some(b.id))
    {
      if j > k && store[j].resource == b.resource {
        BufferedOverlapSymmetric(store[j], b);
      }
    }
  }

  /**
   * With an empty id the exclusion is switched off, so a booking is reported as
   * conflicting with itself.
   */
  lemma EmptyExcludeIdExcludesNothing(b: Booking)
    requires b.start <= b.end
    ensures CheckBookingConflict([b], b.resource, b.start, b.end, Some("")).Fail?
  {
    assert ConflictsWith([b][0], b.resource, b.start, b.end, Some(""));
  }

  /**
   * An existing booking that ends before the candidate starts conflicts with it
   * exactly when the gap between them is shorter than the buffer; a gap of exactly
   * the buffer is allowed.
   */
  lemma GapAfterExisting(b: Booking, start: int, end: int)
    requires b.start <= b.end <= start <= end
    ensures ConflictsWith(b, b.resource, start, end, None) <==> start - b.end < BufferMs
  {
  }

  /** The mirror case: the candidate ends before the existing booking starts. */
  lemma GapBeforeExisting(b: Booking, start: int, end: int)
    requires start <= end <= b.start <= b.end
    ensures ConflictsWith(b, b.resource, start, end, None) <==> b.start - end < BufferMs
  {
  }

  /**
   * The worked example: with [10:00, 10:30) booked on MEETING_ROOM_A, [10:40, 11:00)
   * is accepted (the gap is exactly the buffer) and [10:39, 11:00) is rejected.
   */
  lemma BufferEdgeExample(id: string, requestedBy: string)
    ensures var existing := Booking(id, MeetingRoomA, 600 * MsPerMinute, 630 * MsPerMinute, 30.0, requestedBy);
            && CheckBookingConflict([existing], MeetingRoomA, 640 * MsPerMinute, 660 * MsPerMinute, None).Pass?
            && CheckBookingConflict([existing], MeetingRoomA, 639 * MsPerMinute, 660 * MsPerMinute, None).Fail?
  {
    var existing := Booking(id, MeetingRoomA, 600 * MsPerMinute, 630 * MsPerMinute, 30.0, requestedBy);
    assert ConflictsWith([existing][0], MeetingRoomA, 639 * MsPerMinute, 660 * MsPerMinute, None);
  }

  /** The exact bounds 15 and 120 minutes are accepted and returned as such. */
  lemma DurationBoundsInclusive(start: int)
    ensures ValidateDuration(start, start + MinDurationMs) == Ok(MinDurationMinutes as real)
    ensures ValidateDuration(start, start + MaxDurationMs) == Ok(MaxDurationMinutes as real)
    ensures ValidateDuration(start, start + MinDurationMs - 1) == Err(DurationTooShort)
    ensures ValidateDuration(start, start + MaxDurationMs + 1) == Err(DurationTooLong)
  {
  }
}
