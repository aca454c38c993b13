/**
 Failure-compatible wrappers shared by every module: an optional value (a Go
 nil pointer or a missing map entry) and a result that is either a value or an
 error message (a Go `(value, error)` pair).
 */
module Wrappers {

  datatype Option<+T> = None | Some(value: T)

  datatype Result<+T> = Success(value: T) | Failure(error: string) {

    predicate IsFailure() {
      Failure?
    }

    function PropagateFailure<U>(): Result<U>
      requires Failure?
    {
      Failure(error)
    }

    function Extract(): T
      requires Success?
    {
      value
    }
  }
}
