/** The 8-bit counters of the firmware, and pulses as the stream decoders are handed them. */
module Pulses {
  type Count = n: nat | n < 256

  /** An 8-bit counter. */
  function Bump(n: nat): nat {
    if n == 255 then 0 else n + 1
  }

  /** The same, counted up n times. */
  function Bumps(c: nat, n: nat): nat {
    if n == 0 then c else Bump(Bumps(c, n - 1))
  }

  datatype Pulse = Pulse(level: bool, count: Count)
}
