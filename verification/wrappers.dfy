/** Go reports absence with a nil value or a second `ok` result, and
    failure with a non-nil `error`.  The model writes the first as Option
    and the second as Result; Result supplies the three members Dafny's
    `:-` operator calls, so an error returned part-way out of a helper
    reads as it does in the Go code. */
module Wrappers {

  datatype Option<+T> = None | Some(value: T)

  datatype Result<+R, +E> = Success(value: R) | Failure(error: E) {

    /** `:-` stops here and hands the error on. */
    predicate IsFailure() {
      Failure?
    }

    /** The same error, re-typed for the caller's result. */
    function PropagateFailure<U>(): Result<U, E>
      requires Failure?
    {
      Failure(error)
    }

    /** The value `:-` binds when there was no error. */
    function Extract(): R
      requires Success?
    {
      value
    }
  }
}
