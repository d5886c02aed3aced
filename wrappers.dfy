/** The optional-value datatype used for every nullable column and optional field. */
module Wrappers {

  /** `undefined`/`null` in the source is `None`; a present value is `Some`. */
  datatype Option<+T> = None | Some(value: T) {

    /** The value, or `default` when absent (the source's `x ?? d`). */
    function GetOr(default: T): T {
      match this
      case Some(v) => v
      case None => default
    }
  }
}
