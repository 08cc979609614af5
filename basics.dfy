/** Small shared datatypes: the optional value that stands for Python's `None`. */
module Basics {

  /** `None` or a present value, as a nullable column or an optional request field. */
  datatype Option<+T> = None | Some(value: T) {

    /** The value if present, otherwise `default` (the `x if x is not None else y` idiom). */
    function GetOr(default: T): T {
      match this
      case Some(v) => v
      case None => default
    }
  }
}
