/** Instants. */
module Clock {
  /** Nanoseconds since Go's zero time, which is 0. */
  type Time = int
}
