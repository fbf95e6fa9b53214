// Readings of the monotonic clock.
module Clock {
  /** Nanoseconds since some fixed moment. */
  type Instant = int

  const SECOND: int := 1_000_000_000
}
