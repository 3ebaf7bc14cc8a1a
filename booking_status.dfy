/** The classification of a booking against the current time. */
module BookingStatus {

  /** `IBookingStatus`. */
  datatype Status = Upcoming | Ongoing | Past

  /**
   * `getBookingStatus`, with the wall-clock reading `now` passed in. Upcoming before
   * the start, Ongoing from the start to the end with both ends included, Past after.
   */
  function GetBookingStatus(start: int, end: int, now: int): (s: Status)
    ensures s == Upcoming <==> now < start
    ensures s == Ongoing <==> start <= now <= end
    ensures s == Past <==> start <= now && end < now
  {
    if now < start then Upcoming
    else if now >= start && now <= end then Ongoing
    else Past
  }

  /** The position of a status in the life of a booking. */
  function Phase(s: Status): nat
  {
    match s
    case Upcoming => 0
    case Ongoing => 1
    case Past => 2
  }

  /** For an ordered interval, Past means exactly that the end has gone by. */
  lemma PastIffEnded(start: int, end: int, now: int)
    requires start <= end
    ensures GetBookingStatus(start, end, now) == Past <==> now > end
  {
  }

  /** Both ends of the Ongoing window are inclusive. */
  lemma OngoingBoundsInclusive(start: int, end: int)
    requires start <= end
    ensures GetBookingStatus(start, end, start) == Ongoing
    ensures GetBookingStatus(start, end, end) == Ongoing
    ensures GetBookingStatus(start, end, start - 1) == Upcoming
    ensures GetBookingStatus(start, end, end + 1) == Past
  {
  }

  /**
   * For a fixed ordered interval the status only moves forward as time passes:
   * Upcoming, then Ongoing, then Past.
   */
  lemma StatusMonotone(start: int, end: int, now1: int, now2: int)
    requires start <= end && now1 <= now2
    ensures Phase(GetBookingStatus(start, end, now1)) <= Phase(GetBookingStatus(start, end, now2))
  {
  }
}
