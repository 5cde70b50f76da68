/** Option and Result: a missing JSON field and a call that may fail. */
module Wrappers {

  /** A value that may be absent, as a `dict.get` without default returns it. */
  datatype Option<+T> = None | Some(value: T) {

    /** The value, or `default` when absent: `dict.get(key, default)`. */
    function GetOr(default: T): T {
      match this
      case Some(v) => v
      case None => default
    }
  }

  /** The outcome of an operation that either yields a value or fails with an error. */
  datatype Result<+R, +E> = Success(value: R) | Failure(error: E)
}
