/** Option and Result, the failure-carrying values the rest of the model returns. */
module Wrappers {

  datatype Option<+T> = None | Some(value: T)

  /** A Python call that either returns a value or raises; `error` is `str(e)` of the exception. */
  datatype Result<+T> = Success(value: T) | Failure(error: string)
}
