/** Stock failure-carrying datatypes used by the room operations. */
module Wrappers {
  datatype Option<+T> = None | Some(value: T)

  /** A reply that carries a value on success. */
  datatype Result<+T, +E> = Ok(value: T) | Err(error: E)

  /** A reply that carries nothing on success. */
  datatype Outcome<+E> = Pass | Fail(error: E)
}
