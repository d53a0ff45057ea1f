/** Small failure-carrying datatypes shared by the rest of the model. */
module Wrappers {

  /** A value that may be absent, as Go's `(value, err)` pairs are when `err != nil`. */
  datatype Option<+T> = None | Some(value: T) {

    /** The carried value, or `default` when there is none. */
    function GetOr(default: T): T
    {
      match this
      case Some(v) => v
      case None => default
    }
  }
}
