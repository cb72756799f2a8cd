/** The Option datatype standing for the source's optional and nullable fields. */
module Wrappers {

  /** `None` is a key that is absent, `undefined` or `null`; `Some(v)` is a present value. */
  datatype Option<+T> = None | Some(value: T) {

    /** The present value, or `default` when there is none (the `??` operator). */
    function GetOr(default: T): T {
      match this
      case Some(v) => v
      case None => default
    }
  }
}
