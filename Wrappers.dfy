/** Optional values and results with an error, used wherever code_analysis.py raises or tests for a key. */
module Wrappers {

  datatype Option<+T> = None | Some(value: T)

  datatype Result<+R, +E> = Success(value: R) | Failure(error: E)
}
