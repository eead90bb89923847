/** The two wrappers used throughout the model: `Option` stands for a
    nullable or optional value, `Result` for a call that either returns a
    value or throws. */
module Wrappers {

  /** A nullable value: `None` is JavaScript's `null` or `undefined`. */
  datatype Option<+T> = None | Some(value: T) {

    /** The value, or `default` when absent (JavaScript's `??`). */
    function GetOr(default: T): T {
      match this
      case Some(v) => v
      case None => default
    }
  }

  /** The outcome of a call that either returns a value or throws an error. */
  datatype Result<+R, +E> = Success(value: R) | Failure(error: E)
}
