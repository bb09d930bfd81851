/** Option and Result values: the model's stand-ins for Python's `None`, for
    dictionary lookups with defaults and for raised exceptions. */
module Wrappers {

  datatype Option<+T> = None | Some(value: T) {

    /** The held value, or `default` when there is none (Python's `dict.get(key, default)`). */
    function GetOr(default: T): T {
      if Some? then value else default
    }
  }

  /** `Success(v)` is a normal return; `Failure(e)` is an exception whose text is `e`. */
  datatype Result<+T, +E> = Success(value: T) | Failure(error: E)
}
