/** Optional values and results shared by the catalog and the contact endpoint. */
module Wrappers {

  /** A value that may be absent, as Python's `Optional[...]` with `None`. */
  datatype Option<+T> = None | Some(value: T)

  /** The outcome of an operation that either produces a value or fails with an error. */
  datatype Result<+T, +E> = Success(value: T) | Failure(error: E)

  /** An HTTP error response: a status code and its `detail` text. */
  datatype HttpError = HttpError(status: int, detail: string)
}
