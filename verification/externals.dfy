/**
 * The collaborators the core calls but does not implement: password hashing,
 * TOTP verification (RFC 6238) and JWT signing/verification (RFC 7519, HS256).
 * They are passed in as function values, so every property of the model holds
 * for every implementation of them unless a lemma states an assumption.
 */
module Externals {
  import opened Wrappers

  /** Claims of an access token (the payload of TokenService.signAccessToken). */
  datatype AccessClaims = AccessClaims(userId: nat, deviceId: nat, roleId: nat, roleName: string)

  /** Claims recovered from a refresh token: the subject and the expiry in seconds. */
  datatype RefreshClaims = RefreshClaims(userId: nat, exp: int)

  datatype Services = Services(
    /** HashingService.hash */
    hash: string -> string,
    /** HashingService.compare(plain, hashed) */
    compare: (string, string) -> bool,
    /** TwoFactorAuthService.verifyTOTP(email, token, secret) */
    verifyTotp: (string, string, string) -> bool,
    /** TokenService.signAccessToken; the second argument is the random uuid claim */
    signAccess: (AccessClaims, string) -> string,
    /** TokenService.signRefreshToken; the second argument is the random uuid claim */
    signRefresh: (nat, string) -> string,
    /** TokenService.verifyAccessToken; None for a malformed, mis-signed or expired token */
    verifyAccess: string -> Option<AccessClaims>,
    /** TokenService.verifyRefreshToken; None for a malformed, mis-signed or expired token */
    verifyRefresh: string -> Option<RefreshClaims>)

  /** The random uuids embedded in a freshly signed token pair. */
  datatype Nonces = Nonces(access: string, refresh: string)

  /** A hasher whose compare accepts a password against its own hash. */
  ghost predicate HashSound(svc: Services)
  {
    forall p :: svc.compare(p, svc.hash(p))
  }

  /** A signer whose verifier recovers the claims of a token it signed (while unexpired). */
  ghost predicate AccessRoundTrip(svc: Services)
  {
    forall c, n :: svc.verifyAccess(svc.signAccess(c, n)) == Some(c)
  }
}
