/** Optional values, results and outcomes: the model's stand-ins for Python's
    `None`, for return-or-raise, and for raise-or-return-nothing. */
module Wrappers {

  datatype Option<+T> = None | Some(value: T)

  datatype Result<+T, +E> = Success(value: T) | Failure(error: E)

  datatype Outcome<+E> = Pass | Fail(error: E)
}
