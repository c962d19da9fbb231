/** Option and Result values used across the model in place of JavaScript's
    `null`/`undefined` and of thrown errors. */
module Wrappers {

  /** A value that may be missing (`null` or `undefined` in the bot). */
  datatype Option<+T> = None | Some(value: T) {

    /** The value, or `default` when missing: JavaScript's `x ?? default`. */
    function GetOr(default: T): T {
      match this
      case Some(v) => v
      case None => default
    }

    /** The value when present, otherwise `other`: `x ?? other` on two optional values. */
    function OrElse(other: Option<T>): Option<T> {
      if Some? then this else other
    }
  }

  /** The outcome of an operation that either succeeds or throws. */
  datatype Result<+T, +E> = Success(value: T) | Failure(error: E) {
    predicate IsFailure() {
      Failure?
    }
  }
}
