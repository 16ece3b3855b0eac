/** Time as the Go code keeps it: nanoseconds since 1970. */
module Clock {
  const SECOND: int := 1_000_000_000

  /** The zero time.Time, the first instant of year 1. */
  const ZERO_TIME: int := -62_135_596_800 * SECOND
}
