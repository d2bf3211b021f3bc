/** The optional value used wherever the Python code returns or stores `None`. */
module Wrappers {

  datatype Option<+T> = None | Some(value: T) {

    /** `value` when present, `default` when `None`. */
    function GetOr(default: T): T {
      match this
      case Some(v) => v
      case None => default
    }
  }
}
