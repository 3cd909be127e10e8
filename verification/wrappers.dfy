/** Wrappers used throughout the model: `Option` stands for a
    Go pointer or interface that may be nil, `Result` for a `(value, error)` pair
    in which exactly one side is meaningful. */
module Wrappers {

  datatype Option<+T> = None | Some(value: T) {

    /** The wrapped value, or `default` when there is none. */
    function GetOr(default: T): T {
      match this
      case Some(v) => v
      case None => default
    }
  }

  datatype Result<+R, +E> = Success(value: R) | Failure(error: E)
}
