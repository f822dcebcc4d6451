/** Option and Result, the two failure-carrying shapes the model needs. */
module Wrappers {

  /** A value that may be absent: Python's `None` or an object. */
  datatype Option<+T> = None | Some(value: T)

  /** Either a value or the exception that stopped the computation. */
  datatype Result<+T, +E> = Success(value: T) | Failure(error: E)
}
