/** Failure-carrying values shared by every module of the model. */
module Wrappers {

  /** Ruby's nil-or-value: `None` is `nil`. */
  datatype Option<+T> = None | Some(value: T) {

    /** Ruby's `x || fallback` when `x` is nil or a value. */
    function GetOr(fallback: T): (r: T)
      ensures Some? ==> r == value
      ensures None? ==> r == fallback
    {
      if Some? then value else fallback
    }
  }

  /** The outcome of a step that either yields a value or raises an error. */
  datatype Result<+T, +E> = Success(value: T) | Failure(error: E)
}
