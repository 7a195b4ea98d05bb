/** Option and Result values for the lookups and error returns of the system. */
module Wrappers {

  datatype Option<+T> = None | Some(value: T)

  /** A call that either produces a value or fails with an error. In the
      source the failures are thrown exceptions; here they are values. */
  datatype Result<+T, +E> = Ok(value: T) | Err(error: E)
}
