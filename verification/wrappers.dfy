/** Option and Result, the two failure-compatible wrappers the model needs. */
module Wrappers {

  /** `None` stands for a JavaScript `undefined`/`null` where the source tests for absence. */
  datatype Option<+T> = None | Some(value: T) {

    /** The wrapped value, or `default` when there is none. */
    function GetOr(default: T): T {
      match this
      case Some(v) => v
      case None => default
    }
  }

  /** The outcome of an operation that the source may abort by throwing. */
  datatype Result<+R, +E> = Success(value: R) | Failure(error: E)
}
