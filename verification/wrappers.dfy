/** Failure-carrying values shared by the rest of the model. */
module Wrappers {

  /** A value that may be absent; stands for Python's `None`. */
  datatype Option<+T> = None | Some(value: T)

  /** Either a computed value or the error the computation raised. */
  datatype Result<+R, +E> = Success(value: R) | Failure(error: E)
}
