/** Durations in nanoseconds, as Go's time package counts them. */
module Clock {
  const MINUTE := 60_000_000_000
  const DAY := 86_400_000_000_000
}
