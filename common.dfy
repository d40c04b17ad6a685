/** Values shared by the leave service, the identity service and the client:
    error replies, optional request-body fields, the authenticated caller and
    the user object the API hands back. */
module Common {

  datatype Option<+T> = None | Some(value: T)

  /** An HTTP error reply: its status code and its `message` body field. */
  datatype Error = Error(status: int, message: string)

  /** What a handler answers: a value, or an error reply. */
  datatype Result<+T> = Ok(value: T) | Err(error: Error)

  /** A handler that answers with no value beyond `success: true`. */
  datatype Outcome = Pass | Fail(error: Error)

  type UserId = nat

  const ADMIN: string := "admin"
  const EMPLOYEE: string := "employee"

  /** The identity the authentication middleware attaches to a request
      (`req.user._id` and `req.user.role`). */
  datatype Caller = Caller(id: UserId, role: string)

  /** JavaScript truthiness of an optional string field of a request body:
      a missing field and the empty string are both falsy. */
  predicate Present(s: Option<string>)
  {
    s.Some? && s.value != ""
  }

  /** The user object returned by login and register: it has no password field. */
  datatype PublicUser = PublicUser(id: UserId, username: string, email: string, fullName: string, role: string)
}
