/** Optional values and results with a typed error: the model's stand-ins for Java's
    `null` and for an exception that reaches the caller. */
module Wrappers {

  datatype Option<+T> = None | Some(value: T)

  datatype Result<+T, +E> = Success(value: T) | Failure(error: E)
}
