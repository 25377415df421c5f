/** Option and Result values shared by the model's modules. */
module Wrappers {

  /** A value that may be absent: JavaScript's `null`/`undefined` or a missing search hit. */
  datatype Option<+T> = None | Some(value: T)

  /** The outcome of an operation that can be refused with an error value. */
  datatype Result<+T, +E> = Success(value: T) | Failure(error: E)
}
