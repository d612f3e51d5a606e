/** Values shared by every router: optional values, the failures a procedure
    reports, and the identity of the caller. */
module Common {

  /** A user identifier as issued by the identity provider. */
  type UserId = string

  datatype Option<+T> = None | Some(value: T) {
    /** JavaScript's `x ?? d`. */
    function GetOr(default: T): T
    {
      match this
      case Some(v) => v
      case None => default
    }
  }

  /** Why a procedure fails. The address and rating routers throw tRPC
      errors, and there `Unauthorized`, `NotFound` and `BadRequest` are the
      codes of the same name. The lost-and-found and chat routers throw plain
      `Error`s, which reach the client as `INTERNAL_SERVER_ERROR` with a
      message; there the variant names the reason the message gives
      (signed out, no such item, not the owner). `BadRequest` also stands
      for an input the request schema rejects. `DatabaseError` is a write
      the database refuses because a value does not fit its column; the
      routers let it through, except `rateUser`, which re-throws it as
      `INTERNAL_SERVER_ERROR`. */
  datatype Failure = Unauthorized | NotFound | Forbidden | BadRequest | DatabaseError

  datatype Result<+T> = Ok(value: T) | Err(failure: Failure)

  /** `ctx.auth?.userId` is truthy: present and not the empty string. */
  predicate LoggedIn(caller: Option<UserId>)
  {
    caller.Some? && caller.value != ""
  }
}
