/** The optional value used wherever the source has an optional field, an
    `undefined` result, or a `parseInt` that may yield NaN. */
module Wrappers {

  datatype Option<+T> = None | Some(value: T) {

    /** The encapsulated value, or `default` when there is none. */
    function GetOr(default: T): T {
      match this
      case Some(v) => v
      case None => default
    }
  }
}
