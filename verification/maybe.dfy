/** The optional value used wherever the Python code returns `None` for failure. */
module Maybe {

  datatype Option<+T> = None | Some(value: T) {

    /** The value carried by `Some`, or `default` for `None`. */
    function GetOr(default: T): T {
      match this
      case Some(v) => v
      case None => default
    }
  }
}
