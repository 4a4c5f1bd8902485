/** Units of time. Every instant and duration in the model is a whole number
    of microseconds, the resolution of Python's `datetime`. */
module Clock {

  const Minute: int := 60_000_000
  const Hour: int := 3_600_000_000

  /** `timedelta(days=1)` */
  const Day: int := 86_400_000_000
}
