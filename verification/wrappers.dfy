/** Nullable values and exception-carrying results, as pure datatypes. */
module Wrappers {

  /** A value that may be absent: C#'s `null` is `None`. */
  datatype Option<+T> = None | Some(value: T)

  /** The outcome of an operation that may throw: `Err` carries the exception kind. */
  datatype Result<+T, +E> = Ok(value: T) | Err(error: E)
}
