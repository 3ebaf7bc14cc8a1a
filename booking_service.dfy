/**
 * `createNewBooking`: the guards, the buffered conflict query and the insert with
 * the recomputed duration, over a store that holds the bookings in insertion order.
 */
module BookingService {
  import opened Wrappers
  import opened BookingConstant
  import opened BookingRecord
  import opened BookingTimeValidator

  /**
   * The request body. `durationMinutes` is whatever the caller sent, if anything;
   * the engine never uses it.
   */
  datatype Payload = Payload(
    resource: Resource,
    start: int,
    end: int,
    requestedBy: string,
    durationMinutes: Option<real>)

  /** A record obeys the interval and duration rules and stores its true duration. */
  ghost predicate WellFormed(b: Booking)
  {
    && b.start < b.end
    && MinDurationMs <= b.end - b.start <= MaxDurationMs
    && b.durationMinutes * MsPerMinute as real == (b.end - b.start) as real
  }

  /** No identifier is used twice. */
  ghost predicate UniqueIds(store: seq<Booking>)
  {
    forall i, j :: 0 <= i < j < |store| ==> store[i].id != store[j].id
  }

  /** What every store built by `createNewBooking` satisfies. */
  ghost predicate StoreInvariant(store: seq<Booking>)
  {
    && (forall i :: 0 <= i < |store| ==> WellFormed(store[i]))
    && NoBufferedOverlap(store)
    && UniqueIds(store)
  }

  /**
   * The outcome of creating a booking, as the composition of the extracted checks:
   * the ordering check, then the duration check, then the conflict check with no
   * exclusion, then the insert, which the store refuses for an identifier in use.
   */
  function CreateSpec(store: seq<Booking>, p: Payload, newId: string): (r: Result<Booking, BookingError>)
    ensures r.Ok? ==> WellFormed(r.value) && r.value.id == newId && !IdInUse(store, newId)
  {
    match ValidateBookingTime(p.start, p.end)
    case Fail(e) => Err(e)
    case Pass =>
      match ValidateDuration(p.start, p.end)
      case Err(e) => Err(e)
      case Ok(durationMinutes) =>
        match CheckBookingConflict(store, p.resource, p.start, p.end, None)
        case Fail(e) => Err(e)
        case Pass =>
          if IdInUse(store, newId) then Err(PersistenceError)
          else Ok(Booking(newId, p.resource, p.start, p.end, durationMinutes, p.requestedBy))
  }

  /** The ordering check comes first: `end <= start` is reported as such, whatever the duration. */
  lemma CreateRejectsUnorderedInterval(store: seq<Booking>, p: Payload, newId: string)
    ensures CreateSpec(store, p, newId) == Err(EndNotAfterStart) <==> p.end <= p.start
  {
  }

  /** An ordered interval outside [15, 120] minutes is rejected with the matching error. */
  lemma CreateRejectsDurationOutOfRange(store: seq<Booking>, p: Payload, newId: string)
    requires p.start < p.end
    ensures CreateSpec(store, p, newId) == Err(DurationTooShort) <==> p.end - p.start < MinDurationMs
    ensures CreateSpec(store, p, newId) == Err(DurationTooLong) <==> p.end - p.start > MaxDurationMs
  {
  }

  /**
   * For an interval that passes the validators, the create reports a conflict exactly
   * when some stored booking on the same resource meets the buffered window
   * [start - 10 min, end + 10 min]; no record is exempt.
   */
  lemma CreateConflictIff(store: seq<Booking>, p: Payload, newId: string)
    requires p.start < p.end && MinDurationMs <= p.end - p.start <= MaxDurationMs
    ensures CreateSpec(store, p, newId) == Err(Conflict) <==>
      exists i :: 0 <= i < |store| && store[i].resource == p.resource &&
                  store[i].start < p.end + BufferMinutes * MsPerMinute &&
                  store[i].end > p.start - BufferMinutes * MsPerMinute
  {
  }

  /**
   * A create succeeds exactly when every check passes and the identifier is free,
   * and the record it returns carries the payload's fields, the new identifier and
   * the recomputed duration, so it obeys the rules itself.
   */
  lemma CreateSuccess(store: seq<Booking>, p: Payload, newId: string)
    ensures CreateSpec(store, p, newId).Ok? <==>
      && p.start < p.end
      && MinDurationMs <= p.end - p.start <= MaxDurationMs
      && CheckBookingConflict(store, p.resource, p.start, p.end, None).Pass?
      && !IdInUse(store, newId)
    ensures CreateSpec(store, p, newId).Ok? ==>
      var b := CreateSpec(store, p, newId).value;
      && b.id == newId && b.resource == p.resource && b.requestedBy == p.requestedBy
      && b.start == p.start && b.end == p.end
      && b.durationMinutes * MsPerMinute as real == (p.end - p.start) as real
      && WellFormed(b)
  {
  }

  /** A caller-supplied `durationMinutes` has no influence on the outcome. */
  lemma CreateIgnoresSuppliedDuration(store: seq<Booking>, p: Payload, newId: string, supplied: Option<real>)
    ensures CreateSpec(store, p, newId) == CreateSpec(store, p.(durationMinutes := supplied), newId)
  {
  }

  /**
   * A successful create keeps the store invariant: all records well formed, no two
   * buffered intervals on one resource overlapping, identifiers unique.
   */
  lemma CreatePreservesInvariant(store: seq<Booking>, p: Payload, newId: string)
    requires StoreInvariant(store)
    requires CreateSpec(store, p, newId).Ok?
    ensures StoreInvariant(store + [CreateSpec(store, p, newId).value])
  {
    var b := CreateSpec(store, p, newId).value;
    var s := store + [b];
    CreateSuccess(store, p, newId);
    forall i, j | 0 <= i < j < |s| && s[i].resource == s[j].resource
      ensures !(s[i].start < BufferEnd(s[j].end) && s[i].end > BufferStart(s[j].start))
    {
      if j == |store| {
        assert !ConflictsWith(store[i], p.resource, p.start, p.end, None);
      }
    }
    forall i, j | 0 <= i < j < |s|
      ensures s[i].id != s[j].id
    {
      if j == |store| {
        assert !IdInUse(store, newId);
      }
    }
  }

  /** The booking table. */
  class BookingStore {
    var bookings: seq<Booking>

    ghost predicate Valid()
      reads this
    {
      StoreInvariant(bookings)
    }

    /** An empty table. */
    constructor ()
      ensures bookings == [] && Valid()
    {
      bookings := [];
    }

    /**
     * `createNewBooking(payload)`, with `newId` the identifier the store assigns.
     * The checks run inline and agree with the extracted ones; the table gains the
     * new record on success and is left untouched on every rejection.
     */
    method CreateNewBooking(payload: Payload, newId: string) returns (r: Result<Booking, BookingError>)
      modifies this
      ensures r == CreateSpec(old(bookings), payload, newId)
      ensures r.Ok? ==> bookings == old(bookings) + [r.value]
      ensures r.Err? ==> bookings == old(bookings)
      ensures old(Valid()) ==> Valid()
    {
      var start := payload.start;
      var end := payload.end;

      if end <= start {
        return Err(EndNotAfterStart);
      }

      var durationMinutes := (end - start) as real / (1000.0 * 60.0);
      if durationMinutes < MinDurationMinutes as real {
        return Err(DurationTooShort);
      }
      if durationMinutes > MaxDurationMinutes as real {
        return Err(DurationTooLong);
      }

      var bufferStart := start - BufferMinutes * 60 * 1000;
      var bufferEnd := end + BufferMinutes * 60 * 1000;

      var conflict := FindFirst(bookings, (b: Booking) =>
        b.resource == payload.resource && b.start < bufferEnd && b.end > bufferStart);
      if conflict.Some? {
        return Err(Conflict);
      }

      var taken := FindFirst(bookings, (b: Booking) => b.id == newId);
      if taken.Some? {
        return Err(PersistenceError);
      }

      var result := Booking(newId, payload.resource, start, end, durationMinutes, payload.requestedBy);
      if Valid() {
        CreatePreservesInvariant(bookings, payload, newId);
      }
      bookings := bookings + [result];
      r := Ok(result);
    }
  }
}
