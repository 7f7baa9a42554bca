/** The optional-value type used across the model: `None` stands for JavaScript's
    `undefined`/`null`/`NaN` wherever the source tests for their absence. */
module Wrappers {

  datatype Option<+T> = None | Some(value: T) {

    /** The value, or `default` when absent. */
    function GetOr(default: T): T {
      match this
      case Some(v) => v
      case None => default
    }
  }
}
