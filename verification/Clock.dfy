// Times are nanoseconds since the epoch, as time.Time counts them.
module Clock {
  const SECOND: int := 1_000_000_000
  const MINUTE: int := 60 * SECOND
}
