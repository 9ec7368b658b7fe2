/** Small value types shared by the order engine and the point-of-sale helpers. */
module Common {

  /** A value that may be absent: a nullable column, an optional request field. */
  datatype Option<T> = None | Some(value: T) {
    function GetOr(default: T): T {
      match this
      case Some(v) => v
      case None => default
    }
  }
}
