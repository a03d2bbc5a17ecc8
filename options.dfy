/** The optional values the services pass around (a missing JSON field, a lookup that
    found nothing, an `undefined`). */
module Options {

  datatype Option<+T> = None | Some(value: T) {
    function GetOr(default: T): T {
      match this
      case Some(v) => v
      case None => default
    }
  }
}
