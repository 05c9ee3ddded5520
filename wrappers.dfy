/** Small failure-carrying datatypes shared by the model. */
module Wrappers {

  datatype Option<+T> = None | Some(value: T)

  /** The outcome of an operation that may raise an exception and returns nothing otherwise. */
  datatype Outcome<+E> = Pass | Fail(error: E)

  /** A value, or the exception raised instead of producing it. */
  datatype Result<+T, +E> = Success(value: T) | Failure(error: E)
}
