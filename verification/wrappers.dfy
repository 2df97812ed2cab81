/** Optional values and results with an error, used wherever the modelled code
    returns `undefined`/`null`, panics or throws. */
module Wrappers {

  /** A value that may be absent (`undefined` / `null` / Rust `None`). */
  datatype Option<+T> = None | Some(value: T) {

    /** Returns the value held in `Some`, or `default` when absent. */
    function GetOr(default: T): T {
      match this
      case Some(v) => v
      case None => default
    }
  }

  /** Either a value or the error the modelled code throws instead. */
  datatype Result<+T, +E> = Success(value: T) | Failure(error: E)
}
