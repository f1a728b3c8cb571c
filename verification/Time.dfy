/** Spans and points in time, in nanoseconds. */
module Time {
  type Duration = nat

  type Instant = nat

  const NANOS_PER_SEC: nat := 1_000_000_000
  const MILLIS: nat := 1_000_000
}
