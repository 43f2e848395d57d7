/** Optional values, results with an error, and pass/fail outcomes: the shapes
    Swift expresses with `T?`, `throws` and `try`. */
module Wrappers {

  datatype Option<+T> = None | Some(value: T) {
    /** Swift's `x ?? default`. */
    function GetOr(default: T): T {
      match this
      case Some(v) => v
      case None => default
    }
  }

  datatype Result<+R, +E> = Success(value: R) | Failure(error: E)

  /** The outcome of a throwing call that returns nothing. */
  datatype Outcome<+E> = Pass | Fail(error: E)
}
