/** Option and Result values shared by the models of the scanner and of the workflow client. */
module Wrappers {

  /** A value that may be absent: a missing JSON field, a lookup that found nothing. */
  datatype Option<+T> = None | Some(value: T)

  /** The outcome of an operation that either returns a value or raises an error. */
  datatype Result<+T, +E> = Ok(value: T) | Err(error: E)
}
