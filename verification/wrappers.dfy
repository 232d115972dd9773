/** The JavaScript notions of "absent" value used across the model. */
module Wrappers {

  /** `None` stands for `undefined`/`null`; `Some(v)` for a present value. */
  datatype Option<+T> = None | Some(value: T) {

    /** The value, or `default` when absent: JavaScript's `v ?? default`. */
    function GetOr(default: T): T {
      match this
      case Some(v) => v
      case None => default
    }
  }
}
