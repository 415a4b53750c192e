/** Optional values and success/failure results.

    `Option` stands for a JSON key that may be absent (Python's `dict.get`);
    `Result` stands for an operation that either produces a new state or
    stops with one of the error conditions the program reports. */
module Outcomes {

  datatype Option<+T> = None | Some(value: T) {

    /** The wrapped value, or `default` when absent (`dict.get(key, default)`). */
    function GetOr(default: T): T {
      match this
      case Some(v) => v
      case None => default
    }
  }

  datatype Result<+T, +E> = Success(value: T) | Failure(error: E)
}
