/** Values shared by the high-availability diagnostics. */
module HaModels {
  import opened Wrappers

  /** A `datetime`: local microseconds and, if the text gave one, the offset from UTC in minutes. */
  datatype Timestamp = Timestamp(local: int, offset: Option<int>)
  {
    predicate Aware()
    {
      offset.Some?
    }

    /** Microseconds on the UTC time line, or on the device's own clock. */
    function Instant(): int
    {
      match offset
      case Some(minutes) => local - minutes * 60_000_000
      case None => local
    }
  }

  datatype EventType =
    | HeartbeatLost | HeartbeatRestored | InterfaceDown | InterfaceRestored | InterfaceStateChanged
    | MemberLeft | MemberJoined | MemberRejoined | RoleChanged | PrimaryChanged | Failover
    | MemberRestarted | MemberBooted | ProcessRestarted | SyncLost | SyncRestored | Unknown

  datatype EventState = Up | Down | InSync | OutOfSync | NoState
  datatype Role = Primary | NoRole

  datatype Event = Event(
    index: nat, timestamp: Option<Timestamp>, kind: EventType, member: Option<string>, role: Role,
    interface: Option<string>, previous: EventState, next: EventState)
}
