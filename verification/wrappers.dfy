/** Option and Result, the failure-carrying values every other module returns
    in place of Go's `(value, error)` pairs. */
module Wrappers {

  datatype Option<+T> = None | Some(value: T) {

    /** The carried value, or `default` when there is none. */
    function GetOr(default: T): T
    {
      match this
      case Some(v) => v
      case None => default
    }
  }

  /** `Ok(v)` is Go's `(v, nil)`; `Fail(e)` is Go's `(zero, e)`. */
  datatype Result<+R, +E> = Ok(value: R) | Fail(error: E) {

    predicate IsFailure()
    {
      Fail?
    }

    function PropagateFailure<U>(): Result<U, E>
      requires Fail?
    {
      Fail(error)
    }

    function Extract(): R
      requires Ok?
    {
      value
    }
  }
}
