/** Optional values and error-or-value results, used for the dashboard's
    "nothing to show" cases and its single error path. */
module Wrappers {

  datatype Option<+T> = None | Some(value: T)

  datatype Result<+R, +E> = Success(value: R) | Failure(error: E)
}
