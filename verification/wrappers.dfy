/** The optional value used wherever the plugin works with a nullable Kotlin value. */
module Wrappers {

  /** `None` stands for Kotlin's `null`. */
  datatype Option<+T> = None | Some(value: T) {

    /** Returns the value held in Some, or `default` when None (Kotlin's `?:`). */
    function GetOr(default: T): (v: T) {
      match this
      case Some(v) => v
      case None => default
    }
  }
}
