/** Failure-carrying results used throughout the model. */
module Wrappers {

  /** A value that may be absent, as returned by Python's `dict.get`. */
  datatype Option<+T> = None | Some(value: T)

  /** The errors the modelled code raises. */
  datatype Error =
    | TypeError(message: string)
    | ValueError(message: string)
    | KeyError(key: string)

  /** Either a value or the error that aborted the operation (no partial output). */
  datatype Result<+T> = Success(value: T) | Failure(error: Error)

  /** The outcome of an operation that returns nothing but may raise. */
  datatype Outcome = Pass | Fail(error: Error)
}
