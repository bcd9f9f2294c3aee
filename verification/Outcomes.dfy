/** The small types that the other modules share. */
module Outcomes {

  /** A value that may be absent: a nil pointer, a missing map entry. */
  datatype Option<+T> = None | Some(value: T)

  /** The (value, error) pair of a Go function. */
  datatype Result<+T, +E> = Ok(value: T) | Err(error: E)

  newtype Byte = x: int | 0 <= x < 256
}
