/** Option and Result types used for the fallible operations of the solvers.
    Both are failure-compatible, so parsers can chain them with `:-`. */
module Wrappers {

  /** An optional value (Rust's `Option`). */
  datatype Option<+T> = None | Some(value: T) {
    predicate IsFailure() { None? }

    function PropagateFailure<U>(): Option<U>
      requires None?
    {
      None
    }

    function Extract(): T
      requires Some?
    {
      value
    }
  }

  /** A value or an error (Rust's `Result`). */
  datatype Result<+T, +E> = Success(value: T) | Failure(error: E) {
    predicate IsFailure() { Failure? }

    function PropagateFailure<U>(): Result<U, E>
      requires Failure?
    {
      Failure(error)
    }

    function Extract(): T
      requires Success?
    {
      value
    }
  }

  /** Turns an `Option` into a `Result`, using `e` for `None` (Rust's `ok_or`). */
  function OkOr<T, E>(o: Option<T>, e: E): (r: Result<T, E>)
  {
    match o
    case Some(v) => Success(v)
    case None => Failure(e)
  }
}
