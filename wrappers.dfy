/** Option and Result types used for the generator's error paths. */
module Wrappers {

  datatype Option<+T> = None | Some(value: T)

  /** A success value or an error, usable with `:-`. */
  datatype Result<+R, +E> = Success(value: R) | Failure(error: E) {
    predicate IsFailure() {
      Failure?
    }

    function PropagateFailure<U>(): Result<U, E>
      requires Failure?
    {
      Failure(error)
    }

    function Extract(): R
      requires Success?
    {
      value
    }
  }
}
