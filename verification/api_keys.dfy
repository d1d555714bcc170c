/**
 * What the Cloudflare API's handlers share: the outcome of checking an API
 * key, and a handler's answer. The key check itself (`validateApiKey`,
 * a database lookup) is not part of this model; its outcome is an input.
 */
module ApiKeys {
  import opened Common

  datatype User = User(email: string)

  /** What `validateApiKey` returned. */
  datatype AuthResult = AuthResult(isValid: bool, user: Option<User>, isAdmin: bool)

  /** A handler's answer: its value on success, or a status code and message. */
  datatype Response<T> = Ok(value: T) | Refused(status: nat, message: string)

  /** The negation of the handlers' test `!authResult.isValid || !authResult.user`. */
  predicate Authenticated(auth: AuthResult)
  {
    auth.isValid && auth.user.Some?
  }
}
