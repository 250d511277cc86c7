/** The events of include/vkexec_profiling/profile_event.hpp. */
module ProfileEvent {
  import opened Utf8

  datatype Status = Valid | Unavailable | ReadbackError | InvalidTimestamp

  /** A double, with rounding left out. */
  datatype Number = Finite(value: real) | NotFinite

  datatype Event = Event(name: Bytes, submission: nat, family: nat, region: nat, status: Status,
                         startTick: nat, validBits: nat, periodNs: Number, durationNs: Number)
}
