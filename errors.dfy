/**
 * The HTTP errors the service raises, one constructor per distinct cause,
 * together with the status code each one is answered with.
 */
module Errors {

  datatype Error =
    | ValidationFailed         // request body or query parameter violates its schema (422)
    | CredentialsInvalid       // bearer token unusable or its subject unknown (401)
    | InactiveUser             // the account exists but is deactivated (400)
    | InsufficientPrivileges   // an admin route reached by a non-superuser (403)
    | IncorrectLogin           // unknown email or wrong password at login (401)
    | InvalidRefreshToken      // refresh called without a valid refresh-typed token (401)
    | RefreshUserUnavailable   // refresh token's subject missing or inactive (401)
    | UserNotFound             // no record with the requested id (404)
    | EmailAlreadyUsed         // email uniqueness pre-check failed (400)
    | UsernameAlreadyUsed      // username uniqueness pre-check failed (400)
    | SelfDemotion             // an admin clearing their own superuser flag (400)
    | SelfDeletion             // an admin deleting their own account (400)
    | TooManyRequests          // the rate limiter refused the request (429)

  /** The status code the framework answers each error with. */
  function StatusCode(e: Error): (code: int)
    ensures 400 <= code < 500
    ensures code == 401 <==> e in {CredentialsInvalid, IncorrectLogin, InvalidRefreshToken, RefreshUserUnavailable}
  {
    match e
    case ValidationFailed => 422
    case CredentialsInvalid => 401
    case InactiveUser => 400
    case InsufficientPrivileges => 403
    case IncorrectLogin => 401
    case InvalidRefreshToken => 401
    case RefreshUserUnavailable => 401
    case UserNotFound => 404
    case EmailAlreadyUsed => 400
    case UsernameAlreadyUsed => 400
    case SelfDemotion => 400
    case SelfDeletion => 400
    case TooManyRequests => 429
  }
}
