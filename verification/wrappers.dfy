/** Failure-compatible wrapper used wherever the system returns "nothing"
    (Python `None`, a JavaScript `null`, a row that is not found). */
module Wrappers {

  datatype Option<+T> = None | Some(value: T) {

    /** Returns the value held in Some, or `default` for None. */
    function GetOr(default: T): T {
      match this
      case Some(v) => v
      case None => default
    }
  }
}
