/** Optional values and HTTP-style outcomes shared by the other modules. */
module Options {
  datatype Option<+T> = None | Some(value: T) {
    function GetOr(default: T): T {
      match this
      case Some(v) => v
      case None => default
    }
  }

  /** The result of an endpoint: a value, or the HTTP status code of the exception it raises. */
  datatype Outcome<+T> = Ok(value: T) | Fail(status: nat)
}
