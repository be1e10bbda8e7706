/** Option and Result datatypes shared by the modules of this model. */
module Wrappers {

  /** A value that may be absent: an optional argument, JavaScript's
      `undefined`, Python's `None`. */
  datatype Option<+T> = None | Some(value: T)

  /** The outcome of an operation that can fail with an error value. */
  datatype Result<+T, +E> = Success(value: T) | Failure(error: E)
}
