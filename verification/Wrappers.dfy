/** Optional values, and results that may fail with a reason. */
module Wrappers {
  datatype Option<+T> = None | Some(value: T)

  datatype Result<+T> = Success(value: T) | Failure(reason: string)
}
