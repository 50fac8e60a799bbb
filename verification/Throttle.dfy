/** The 32-bit counters of the firmware. */
module Throttle {
  const TWO_TO_THE_32 := 0x1_0000_0000

  /** Milliseconds between two readings of the millisecond counter, in its own arithmetic. */
  function Since(now: nat, earlier: nat): nat { (now - earlier) % TWO_TO_THE_32 }

  predicate IsWithinTimespanMs(now: nat, lastExecutionMs: nat, timeSpanMs: nat) {
    Since(now, lastExecutionMs) < timeSpanMs
  }
}
