/** Optional values and results with an error, used for Java's `Optional`,
    nullable parameters and thrown exceptions. */
module Wrappers {

  datatype Option<+T> = None | Some(value: T)

  datatype Result<+R, +E> = Success(value: R) | Failure(error: E)
}
