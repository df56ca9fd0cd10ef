/** Failure-carrying values shared by the other modules: an optional value
    (a .NET reference that may be null) and the result of an operation that
    may throw. */
module Wrappers {

  datatype Option<+T> = None | Some(value: T)

  datatype Result<+R, +E> = Success(value: R) | Failure(error: E)
}
