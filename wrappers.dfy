/** Option, Result and Outcome: the model's stand-ins for Python's None and
    for the exceptions the add-on raises. */
module Wrappers {

  datatype Option<+T> = None | Some(value: T)

  /** The value of a call that either returns normally or raises. */
  datatype Result<+T, +E> = Success(value: T) | Failure(error: E)

  /** The outcome of a call that returns nothing useful, or raises. */
  datatype Outcome<+E> = Pass | Fail(error: E)
}
