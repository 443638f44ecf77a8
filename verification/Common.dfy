/** Shared value types. */
module Common {

  datatype Option<+T> = None | Some(value: T)

  /** A moment, in nanoseconds since the zero value of Go's time.Time; 0 is that zero value. */
  type Time = int

  const SECOND: Time := 1_000_000_000
  const MINUTE: Time := 60 * SECOND
}
