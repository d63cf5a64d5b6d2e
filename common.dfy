/** Optional values: a field that may be absent, a lookup that may find nothing. */
module Wrappers {

  datatype Option<+T> = None | Some(value: T)
  {
    /** The value, or `default` when absent (a destructuring default in the source). */
    function GetOr(default: T): T
    {
      match this
      case Some(v) => v
      case None => default
    }
  }
}

/**
 * The identity carried by a bearer token: what `generateToken` signs in
 * `login` and what the auth middleware hands on as `req.user`.
 */
module Identity {

  /** The role enum `ROLES` (ADMIN, USER). */
  datatype Role = Admin | User

  /** A user id (a document store ObjectId, as a string). */
  type UserId = string

  /** The claims a token carries: the subject's id and role. */
  datatype Claims = Claims(id: UserId, role: Role)

  /** A signed token string. */
  type Token = string
}
