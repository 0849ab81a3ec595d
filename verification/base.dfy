/** Small shared vocabulary: the optional value used wherever the Python
    code returns `None` or a value. */
module Base {

  /** `None` plays the role of Python's `None`. */
  datatype Option<+T> = None | Some(value: T) {

    /** The value when present, otherwise `default`. */
    function GetOr(default: T): T {
      match this
      case Some(v) => v
      case None => default
    }
  }
}
