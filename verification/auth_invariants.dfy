/**
 * Every authentication protocol keeps the store's integrity (unique email index,
 * device ids below their counter, every refresh token bound to a device, code
 * rows keyed by their email), whichever way it ends.
 */
module AuthInvariants {
  import opened Wrappers
  import opened Store
  import opened Externals
  import opened AuthRepo
  import opened AuthModel
  import opened RolesService
  import opened AuthService

  lemma SendOtpPreservesValid(db: Db, body: SendOtpBody, code: string, now: int, ttl: int, mailSent: bool)
    requires Valid(db)
    ensures Valid(SendOtp(db, body, code, now, ttl, mailSent).db)
  {
  }

  lemma RegisterPreservesValid(db: Db, cache: RoleCache, svc: Services, b: RegisterBody, now: int)
    requires Valid(db)
    ensures Valid(Register(db, cache, svc, b, now).0.db)
  {
  }

  /** A new device keeps the store valid: its id is fresh and the counter moves past it. */
  lemma CreateDevicePreservesValid(db: Db, userId: nat, userAgent: string, ip: string)
    requires Valid(db)
    ensures Valid(CreateDevice(db, userId, userAgent, ip).0)
  {
  }

  /** Issuing tokens for an existing device keeps the store valid. */
  lemma GenerateTokensPreservesValid(db: Db, svc: Services, claims: AccessClaims, nonces: Nonces)
    requires Valid(db)
    requires claims.deviceId in db.devices
    ensures Valid(GenerateTokens(db, svc, claims, nonces).db)
  {
  }

  lemma LoginPreservesValid(db: Db, svc: Services, b: LoginBody, userAgent: string, ip: string, nonces: Nonces, now: int)
    requires Valid(db)
    ensures Valid(Login(db, svc, b, userAgent, ip, nonces, now).db)
  {
    var r := Login(db, svc, b, userAgent, ip, nonces, now);
    if r.db != db {
      var ur := FindUserIncludeRole(db, b.email).value.value;
      var (db1, device) := CreateDevice(db, ur.user.id, userAgent, ip);
      CreateDevicePreservesValid(db, ur.user.id, userAgent, ip);
      GenerateTokensPreservesValid(db1, svc, AccessClaims(ur.user.id, device.id, ur.user.roleId, ur.role.name), nonces);
    }
  }

  lemma RefreshPreservesValid(db: Db, svc: Services, token: string, ip: string, userAgent: string, nonces: Nonces)
    requires Valid(db)
    ensures Valid(Refresh(db, svc, token, ip, userAgent, nonces).db)
  {
  }

  lemma LogoutPreservesValid(db: Db, svc: Services, token: string)
    requires Valid(db)
    ensures Valid(Logout(db, svc, token).db)
  {
  }

  lemma ForgotPasswordPreservesValid(db: Db, svc: Services, b: ForgotPasswordBody, now: int)
    requires Valid(db)
    ensures Valid(ForgotPassword(db, svc, b, now).db)
  {
  }

  lemma SetupTwoFactorPreservesValid(db: Db, userId: nat, secret: string, uri: string)
    requires Valid(db)
    ensures Valid(SetupTwoFactorAuth(db, userId, secret, uri).db)
  {
  }

  lemma DisableTwoFactorPreservesValid(db: Db, svc: Services, userId: nat, b: DisableTwoFactorBody, now: int)
    requires Valid(db)
    ensures Valid(DisableTwoFactorAuth(db, svc, userId, b, now).db)
  {
  }

  /**
   * With a signer whose verifier recovers what it signed, the access token a
   * successful login returns names the user, the new device and the user's role.
   */
  lemma LoginTokenIdentifiesUser(db: Db, svc: Services, b: LoginBody, userAgent: string, ip: string, nonces: Nonces, now: int)
    requires AccessRoundTrip(svc)
    requires Login(db, svc, b, userAgent, ip, nonces, now).result.Ok?
    ensures var ur := FindUserIncludeRole(db, b.email).value.value;
      svc.verifyAccess(Login(db, svc, b, userAgent, ip, nonces, now).result.value.accessToken)
        == Some(AccessClaims(ur.user.id, db.nextDeviceId, ur.user.roleId, ur.role.name))
  {
  }
}
