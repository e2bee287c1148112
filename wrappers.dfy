/** Option, Result and Outcome: how the model reports Python's exceptions and None. */
module Wrappers {

  datatype Option<+T> = None | Some(value: T)

  datatype Result<+T, +E> = Ok(value: T) | Err(error: E)

  /** The outcome of an operation that returns nothing in Python but may raise. */
  datatype Outcome<+E> = Pass | Fail(error: E)
}
