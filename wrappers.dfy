/** Option and Result, used for Python's None and for the KeyError paths of the source. */
module Wrappers {
  datatype Option<+T> = None | Some(value: T)

  datatype Result<+R, +E> = Success(value: R) | Failure(error: E)

  /** Python's KeyError, carrying the missing key. */
  datatype KeyError = KeyError(key: string)
}
