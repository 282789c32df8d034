/** The optional-value datatype shared by the other modules: `None` stands for
    JavaScript's `null`/`undefined`, `Some(v)` for a present value. */
module Wrappers {

  datatype Option<+T> = None | Some(value: T) {

    /** The value, or `default` when absent (JavaScript's `??`). */
    function GetOr(default: T): T {
      match this
      case Some(v) => v
      case None => default
    }
  }
}
