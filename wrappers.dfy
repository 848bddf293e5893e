/** Option, Result and Outcome: the model's stand-ins for PHP's `false`/`null`
    returns and for thrown exceptions. */
module Wrappers {

  datatype Option<+T> = None | Some(value: T)

  /** A computation that either returns a value or throws an exception. */
  datatype Result<+T, +E> = Success(value: T) | Failure(error: E)

  /** A computation that returns nothing, or throws an exception. */
  datatype Outcome<+E> = Pass | Fail(error: E)
}
