/**
 * The stored booking record and the one store query the engine relies on,
 * Prisma's `findFirst`, over a store held as a sequence in insertion order.
 */
module BookingRecord {
  import opened Wrappers
  import opened BookingConstant

  /** A persisted booking. Timestamps are milliseconds since the epoch. */
  datatype Booking = Booking(
    id: string,
    resource: Resource,
    start: int,
    end: int,
    durationMinutes: real,
    requestedBy: string)

  /**
   * `findFirst({ where })`: the first stored record that satisfies the filter,
   * or `None` when no record does.
   */
  function FindFirst(store: seq<Booking>, where: Booking -> bool): (r: Option<Booking>)
    ensures r.None? <==> forall i :: 0 <= i < |store| ==> !where(store[i])
    ensures r.Some? ==> exists i :: 0 <= i < |store| && store[i] == r.value &&
                                    where(store[i]) &&
                                    forall j :: 0 <= j < i ==> !where(store[j])
  {
    if store == [] then None
    else if where(store[0]) then Some(store[0])
    else
      var r := FindFirst(store[1..], where);
      assert forall i :: 0 < i < |store| ==> store[i] == store[1..][i - 1];
      r
  }

  /** Whether some stored record already has the identifier `id`. */
  predicate IdInUse(store: seq<Booking>, id: string)
  {
    exists i :: 0 <= i < |store| && store[i].id == id
  }
}
