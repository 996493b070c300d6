/** An optional value: a request-body field that was either supplied or left undefined. */
module Maybe {

  datatype Option<+T> = None | Some(value: T) {

    /** The supplied value, or `default` when the field was not supplied. */
    function GetOr(default: T): T {
      match this
      case Some(v) => v
      case None => default
    }
  }
}
