/** Record shapes shared by the authentication service, the API routes and the
    client-side context (src/types/auth.ts). */
module AuthTypes {

  /** An optional value: `undefined`/`null` in the source is `None`. */
  datatype Option<+T> = None | Some(value: T)

  /** A user as it crosses the service boundary: the columns of a users row
      other than the password hash. There is deliberately no hash field. */
  datatype User = User(id: int, email: string, createdAt: string, updatedAt: string)

  /** Email and plaintext password, as received by login and registration. */
  datatype UserCredentials = UserCredentials(email: string, password: string)

  /** The uniform envelope `{success, message, user?}` of every authentication operation. */
  datatype AuthResponse = AuthResponse(success: bool, message: string, user: Option<User>)

  /** An error thrown inside a try block: an `Error` carries a message, any
      other thrown value does not. */
  datatype Fault = ErrorThrown(message: string) | ValueThrown

  /** A failed envelope: no user. */
  function Failure(message: string): AuthResponse {
    AuthResponse(false, message, None)
  }

  /** The message a catch block reports for a fault: the error's own message,
      or the given fallback when something other than an `Error` was thrown. */
  function CaughtMessage(f: Fault, fallback: string): (m: string)
    ensures f.ErrorThrown? ==> m == f.message
    ensures f.ValueThrown? ==> m == fallback
  {
    match f
    case ErrorThrown(m) => m
    case ValueThrown => fallback
  }

  /** The envelope discipline every service result keeps: a user is present
      exactly when the operation succeeded. */
  predicate WellFormed(r: AuthResponse) {
    r.success <==> r.user.Some?
  }
}
