/** Values shared by every service: optional values, the error kinds the
    services throw, the outcome of a service call and the caller's role. */
module Common {

  datatype Option<+T> = None | Some(value: T) {
    /** `x ?? d` in the services. */
    function GetOr(d: T): T {
      match this
      case Some(v) => v
      case None => d
    }
  }

  /** The HTTP exceptions the services throw; messages are not modelled. */
  datatype Error = NotFound | Forbidden | BadRequest | Conflict

  /** What a service call returns: its data, or the exception it throws. */
  datatype Result<+T> = Ok(value: T) | Err(error: Error)

  /** The role carried by the authenticated caller's token. */
  datatype Role = CUSTOMER | VENDOR | ADMIN

  /** JavaScript truthiness of an optional number: absent and 0 are falsy. */
  predicate TruthyInt(x: Option<int>) {
    x.Some? && x.value != 0
  }

  /** JavaScript truthiness of an optional string: absent and "" are falsy. */
  predicate TruthyString(x: Option<string>) {
    x.Some? && x.value != ""
  }
}
