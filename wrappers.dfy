/** Option and Result datatypes shared by the other modules. */
module Wrappers {

  /** A value that may be absent, like a header keyword a FITS table does not carry. */
  datatype Option<+T> = None | Some(value: T)

  /** Either a value or the error that the Python code would have raised instead. */
  datatype Result<+R, +E> = Success(value: R) | Failure(error: E)
}
