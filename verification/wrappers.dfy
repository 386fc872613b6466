/** The `Option` and `Result` datatypes shared by the rest of the model. */
module Wrappers {

  /** A value that may be missing: a JSON key that is absent, an index that is out of range. */
  datatype Option<+T> = None | Some(value: T)

  /** The outcome of an operation that can raise: the value, or the exception it raises. */
  datatype Result<+R, +E> = Success(value: R) | Failure(error: E)
}
