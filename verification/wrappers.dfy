/** Optional values and success/failure results, the shapes the code expresses
    with `null`/falsy fields and with thrown or returned errors. */
module Wrappers {

  /** A value that may be absent (`null` or `undefined` in the code). */
  datatype Option<+T> = None | Some(value: T) {

    /** The value, or `default` when absent. */
    function GetOr(default: T): T {
      match this
      case Some(v) => v
      case None => default
    }
  }

  /** The outcome of an operation that either produces a value or fails with an error. */
  datatype Result<+R, +E> = Success(value: R) | Failure(error: E)
}
