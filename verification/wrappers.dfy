/** The optional value used for JavaScript's `undefined`: an absent field,
    an out-of-range array index or an omitted argument. */
module Wrappers {

  datatype Option<+T> = None | Some(value: T) {

    /** Returns the value held in Some, or `default` when None. */
    function GetOr(default: T): T {
      match this
      case Some(v) => v
      case None => default
    }
  }
}
