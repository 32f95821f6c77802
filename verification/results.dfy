/** Failure-compatible wrappers used throughout the model: `Option` for
    lookups, `Result` for a validation outcome (the value returned, or the
    error thrown), and `Check` for a test that either passes or fails with
    an error but carries no value. */
module Results {

  datatype Option<+T> = None | Some(value: T)

  datatype Result<+T, +E> = Success(value: T) | Failure(error: E) {
    predicate IsFailure() {
      Failure?
    }

    function PropagateFailure<U>(): Result<U, E>
      requires Failure?
    {
      Failure(error)
    }

    function Extract(): T
      requires Success?
    {
      value
    }
  }

  /** A check that carries no value; `:- c;` continues only when `c` passed. */
  datatype Check<+E> = Pass | Fail(error: E) {
    predicate IsFailure() {
      Fail?
    }

    function PropagateFailure<U>(): Result<U, E>
      requires Fail?
    {
      Failure(error)
    }
  }
}
