/** The optional value used wherever the compiler leaves a field `undefined`
    or a lookup can come back empty. */
module Wrappers {

  datatype Option<+T> = None | Some(value: T) {

    /** The held value, or `default` for an empty option. */
    function GetOr(default: T): T {
      match this
      case Some(v) => v
      case None() => default
    }
  }
}
