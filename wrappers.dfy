/**
 * The optional value used where the source uses a null reference, and the
 * outcome of an operation that throws on bad input.
 */
module Wrappers {

  datatype Option<+T> = None | Some(value: T)

  datatype Result<+T, +E> = Success(value: T) | Failure(error: E)
}
