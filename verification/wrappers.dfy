/** Optional values and results with an error, used for pandas' missing values and exceptions. */
module Wrappers {

  /** A value that may be missing (NaN / NaT in the dashboard's data frame). */
  datatype Option<+T> = None | Some(value: T)

  /** The outcome of an operation that raises an exception on bad input. */
  datatype Result<+R, +E> = Success(value: R) | Failure(error: E)
}
