/** The booking constants: the buffer, the duration bounds and the closed set of resources. */
module BookingConstant {
  import opened Wrappers

  /** Gap required on each side of a booking on the same resource. */
  const BufferMinutes: int := 10
  /** Shortest allowed booking. */
  const MinDurationMinutes: int := 15
  /** Longest allowed booking. */
  const MaxDurationMinutes: int := 120

  /** Milliseconds per minute, written `60 * 1000` (or `1000 * 60`) at every use in the source. */
  const MsPerMinute: int := 60 * 1000

  /** The resources a booking may reserve. */
  datatype Resource = MeetingRoomA | MeetingRoomB | ConferenceHall | Projector | Laptop

  /** `RESOURCE_TYPE`: the wire names of the resources, in declaration order. */
  const ResourceTypes: seq<string> :=
    ["MEETING_ROOM_A", "MEETING_ROOM_B", "CONFERENCE_HALL", "PROJECTOR", "LAPTOP"]

  /** The wire name of a resource. */
  function ResourceName(r: Resource): (name: string)
    ensures name in ResourceTypes
  {
    match r
    case MeetingRoomA => "MEETING_ROOM_A"
    case MeetingRoomB => "MEETING_ROOM_B"
    case ConferenceHall => "CONFERENCE_HALL"
    case Projector => "PROJECTOR"
    case Laptop => "LAPTOP"
  }

  /**
   * The effect of the request schema's `z.enum(RESOURCE_TYPE)`: a name is a resource
   * exactly when it is listed, and then it denotes the resource of that name.
   */
  function ParseResource(name: string): (r: Option<Resource>)
    ensures r.Some? <==> name in ResourceTypes
    ensures r.Some? ==> ResourceName(r.value) == name
  {
    if name == "MEETING_ROOM_A" then Some(MeetingRoomA)
    else if name == "MEETING_ROOM_B" then Some(MeetingRoomB)
    else if name == "CONFERENCE_HALL" then Some(ConferenceHall)
    else if name == "PROJECTOR" then Some(Projector)
    else if name == "LAPTOP" then Some(Laptop)
    else None
  }

  /** Every resource parses back from its own name. */
  lemma ParseResourceName(r: Resource)
    ensures ParseResource(ResourceName(r)) == Some(r)
  {
  }

  /** Distinct resources have distinct names, so the name identifies the resource. */
  lemma ResourceNameInjective(r1: Resource, r2: Resource)
    requires ResourceName(r1) == ResourceName(r2)
    ensures r1 == r2
  {
    ParseResourceName(r1);
    ParseResourceName(r2);
  }

  /** `RESOURCE_TYPE` lists exactly five names, no two of them equal. */
  lemma ResourceTypesAreFiveDistinct()
    ensures |ResourceTypes| == 5
    ensures forall i, j :: 0 <= i < j < |ResourceTypes| ==> ResourceTypes[i] != ResourceTypes[j]
  {
  }

  /** The duration bounds leave a non-empty range, and the buffer is positive. */
  lemma DurationRangeNonEmpty()
    ensures 0 < BufferMinutes
    ensures 0 < MinDurationMinutes <= MaxDurationMinutes
  {
  }
}
