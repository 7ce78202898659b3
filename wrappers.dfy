/** The optional-value datatype shared by every module of the model. */
module Wrappers {

  /** A value that may be missing: a dictionary key that is absent, a call that raised. */
  datatype Option<+T> = None | Some(value: T) {

    /** The value, or `default` when there is none (Python's `d.get(key, default)`). */
    function GetOr(default: T): T {
      match this
      case Some(v) => v
      case None => default
    }
  }
}
