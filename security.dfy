/**
 * The password-hashing and token primitives the service calls. Their code
 * (app/core/security.py) is not part of this model: hashing and verification
 * are opaque functions supplied by the caller, and a signed token is
 * represented by the claims it carries.
 */
module Security {
  import opened Wrappers

  /** get_password_hash and verify_password, as opaque functions. */
  datatype Hasher = Hasher(hash: string -> string, verify: (string, string) -> bool)

  /** A hasher whose verifier accepts every password against its own hash. */
  ghost predicate Sound(h: Hasher)
  {
    forall password :: h.verify(password, h.hash(password))
  }

  const ACCESS := "access"
  const REFRESH := "refresh"

  /** What a token produced by create_access_token / create_refresh_token asserts. */
  datatype Claims = Claims(tokenType: string, sub: string)

  /** The payload decode_token yields; either key may be missing from it. */
  datatype Payload = Payload(tokenType: Option<string>, sub: Option<string>)

  function CreateAccessToken(id: string): Claims { Claims(ACCESS, id) }

  function CreateRefreshToken(id: string): Claims { Claims(REFRESH, id) }

  /** decode_token applied to an unexpired token this service signed. */
  function DecodeIssued(c: Claims): Payload { Payload(Some(c.tokenType), Some(c.sub)) }
}
