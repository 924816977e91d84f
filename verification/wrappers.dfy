/** The optional-value datatype shared by every module of the model. */
module Wrappers {

  /** A value that may be absent: the model's stand-in for a scan that found
      nothing, a parse that failed, or a pointer that is null. */
  datatype Option<+T> = None | Some(value: T) {

    /** Returns the value if present, otherwise `default`. */
    function GetOr(default: T): T {
      match this
      case Some(v) => v
      case None => default
    }
  }
}
