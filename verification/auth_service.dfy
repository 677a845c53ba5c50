/**
 * AuthService: the authentication protocols as transitions of the store.
 * Each operation returns the store it leaves behind together with its result,
 * because the source runs without transactions: what was written before a
 * failure stays written.
 */
module AuthService {
  import opened Wrappers
  import opened Store
  import opened Externals
  import opened AuthRepo
  import opened AuthModel
  import opened RolesService

  datatype AuthError =
    | EmailAlreadyExists | EmailNotFound | FailedToSendOTP | InvalidOTP | InvalidPassword
    | InvalidTOTPAndCode | InvalidTOTPCode | OTPExpired | RefreshTokenAlreadyUsed
    | TOTPAlreadyEnabled | TOTPNotEnabled | UnauthorizedAccess
    | InvalidToken            // raised by the JWT library: not an HTTP exception
    | Repo(cause: RepoError)  // raised by the store: not an HTTP exception
  {
    /** `error instanceof HttpException` */
    predicate IsHttp()
    {
      !InvalidToken? && !Repo?
    }
  }

  /** The store after an operation, and what the operation returned or raised. */
  datatype Step<T> = Step(db: Db, result: Result<T, AuthError>)

  datatype TokenPair = TokenPair(accessToken: string, refreshToken: string)

  /** SendOTPBodySchema */
  datatype SendOtpBody = SendOtpBody(email: string, codeType: CodeType)

  /** A string-valued field that JavaScript treats as true: present and non-empty. */
  predicate Present(o: Option<string>)
  {
    o.Some? && o.value != ""
  }

  /** `if (user.totpSecret)`: two-factor authentication is on. */
  predicate TwoFactorOn(u: User)
  {
    Present(u.totpSecret)
  }

  /** The failures the credential checks of login raise before anything is written. */
  predicate CredentialFailure(e: AuthError)
  {
    e in {EmailNotFound, InvalidPassword, InvalidTOTPAndCode, InvalidTOTPCode, InvalidOTP, OTPExpired}
  }

  /**
   * validateValidationCode: the code validates iff the row for the email carries
   * this code and type and has not expired; expiry is the strict `expiresAt < now`,
   * so a code is still good at the very millisecond it expires.
   */
  function ValidateValidationCode(db: Db, email: string, code: string, codeType: CodeType, now: int)
    : (r: Result<ValidationCode, AuthError>)
    ensures r.Ok? <==>
      (email in db.codes && db.codes[email].code == code && db.codes[email].codeType == codeType
       && now <= db.codes[email].expiresAt)
    ensures r.Ok? ==> r.value == db.codes[email]
    ensures r.Err? ==> r.error == InvalidOTP || r.error == OTPExpired
    ensures r == Err(OTPExpired) ==> FindValidationCode(db, email, code, codeType).Some?
    ensures FindValidationCode(db, email, code, codeType).None? ==> r == Err(InvalidOTP)
  {
    match FindValidationCode(db, email, code, codeType)
    case None => Err(InvalidOTP)
    case Some(vc) => if vc.expiresAt < now then Err(OTPExpired) else Ok(vc)
  }

  /** A code expiring exactly now still validates; one millisecond later it is expired. */
  lemma OtpExpiryBoundary(db: Db, email: string, code: string, codeType: CodeType)
    requires FindValidationCode(db, email, code, codeType).Some?
    ensures var e := db.codes[email].expiresAt;
      && ValidateValidationCode(db, email, code, codeType, e).Ok?
      && ValidateValidationCode(db, email, code, codeType, e + 1) == Err(OTPExpired)
  {
  }

  /**
   * sendOTP: REGISTER for a known email and FORGOT_PASSWORD for an unknown one
   * are refused before anything is written; otherwise the code is upserted with
   * expiresAt = now + ttl before the mail goes out, and a failed mail is reported
   * without taking the code back.
   */
  function SendOtp(db: Db, body: SendOtpBody, code: string, now: int, ttl: int, mailSent: bool): (r: Step<()>)
    ensures body.codeType == REGISTER && FindUserByEmail(db, body.email).Some? ==> r == Step(db, Err(EmailAlreadyExists))
    ensures body.codeType == FORGOT_PASSWORD && FindUserByEmail(db, body.email).None? ==> r == Step(db, Err(EmailNotFound))
    ensures r.result.Err? && r.result.error != FailedToSendOTP ==> r.db == db
    ensures r.result.Ok? || r.result.error == FailedToSendOTP ==>
      && r.db == db.(codes := r.db.codes)
      && r.db.codes.Keys == db.codes.Keys + {body.email}
      && r.db.codes[body.email].code == code && r.db.codes[body.email].expiresAt == now + ttl
      && (forall e :: e in db.codes && e != body.email ==> r.db.codes[e] == db.codes[e])
    ensures r.result.Ok? <==>
      mailSent && !(body.codeType == REGISTER && FindUserByEmail(db, body.email).Some?)
      && !(body.codeType == FORGOT_PASSWORD && FindUserByEmail(db, body.email).None?)
    ensures r.result.Err? ==> r.result.error in {EmailAlreadyExists, EmailNotFound, FailedToSendOTP}
  {
    var user := FindUserByEmail(db, body.email);
    if body.codeType == REGISTER && user.Some? then Step(db, Err(EmailAlreadyExists))
    else if body.codeType == FORGOT_PASSWORD && user.None? then Step(db, Err(EmailNotFound))
    else
      var (db1, _) := CreateValidationCode(db, body.email, code, body.codeType, now + ttl);
      if !mailSent then Step(db1, Err(FailedToSendOTP)) else Step(db1, Ok(()))
  }

  /**
   * Resending replaces the code: after two successful sends for the same email
   * and type, the first code no longer validates and the second does until it expires.
   */
  lemma ResendOnlyLatestCodeValidates(
    db: Db, body: SendOtpBody, first: string, second: string, now1: int, now2: int, ttl: int, now: int)
    requires first != second
    requires body.email !in db.codes || db.codes[body.email].codeType == body.codeType
    requires SendOtp(db, body, first, now1, ttl, true).result.Ok?
    requires SendOtp(SendOtp(db, body, first, now1, ttl, true).db, body, second, now2, ttl, true).result.Ok?
    requires now <= now2 + ttl
    ensures var db2 := SendOtp(SendOtp(db, body, first, now1, ttl, true).db, body, second, now2, ttl, true).db;
      && ValidateValidationCode(db2, body.email, first, body.codeType, now) == Err(InvalidOTP)
      && ValidateValidationCode(db2, body.email, second, body.codeType, now).Ok?
  {
  }

  /**
   * The upsert keeps an existing row's type: after a code of one type, a freshly
   * sent code of another type is refused for the type it was sent for, yet it
   * validates for the old type.
   */
  lemma SendOtpKeepsStaleType(db: Db, body: SendOtpBody, code: string, now: int, ttl: int)
    requires body.email in db.codes && db.codes[body.email].codeType != body.codeType
    requires SendOtp(db, body, code, now, ttl, true).result.Ok?
    requires ttl >= 0
    ensures var db1 := SendOtp(db, body, code, now, ttl, true).db;
      && ValidateValidationCode(db1, body.email, code, body.codeType, now) == Err(InvalidOTP)
      && ValidateValidationCode(db1, body.email, code, db.codes[body.email].codeType, now).Ok?
  {
  }

  /**
   * `after` is `db` with one user row added under `id` and indexed by `email`:
   * every other user, every other table (codes included) and every other counter
   * are as before.
   */
  ghost predicate OnlyUserAdded(db: Db, after: Db, email: string, id: nat)
  {
    && id == db.nextUserId
    && after == db.(users := after.users, emailIndex := db.emailIndex[email := id], nextUserId := id + 1)
    && after.users.Keys == db.users.Keys + {id}
    && forall k :: k in db.users && k != id ==> after.users[k] == db.users[k]
  }

  /**
   * The steps of register up to and including createUser, with every error as
   * raised: validate a REGISTER code, fetch the Client role id, hash, insert.
   */
  function RegisterSteps(db: Db, cache: RoleCache, svc: Services, b: RegisterBody, now: int)
    : (r: (Step<PublicUser>, RoleCache))
    ensures r.0.result.Err? ==> r.0.db == db
    ensures ValidateValidationCode(db, b.email, b.code, REGISTER, now).Err? ==>
      r.0.result == Err(ValidateValidationCode(db, b.email, b.code, REGISTER, now).error) && r.1 == cache
    ensures r.0.result.Ok? || r.0.result.error in {InvalidOTP, OTPExpired, Repo(RecordNotFound), Repo(UniqueViolation)}
    ensures r.0.result.Ok? ==>
      && ValidateValidationCode(db, b.email, b.code, REGISTER, now).Ok?
      && GetClientRoleId(cache, db).1 == Ok(r.0.result.value.roleId)
      && FindUserByEmail(db, b.email).None?
      && FindUserByEmail(r.0.db, b.email)
         == Some(User(r.0.result.value.id, b.email, b.name, b.phoneNumber, svc.hash(b.password), r.0.result.value.roleId, None))
      && r.0.db.users.Keys == db.users.Keys + {r.0.result.value.id}
    ensures r.0.result.Ok? ==> OnlyUserAdded(db, r.0.db, b.email, r.0.result.value.id)
    ensures r.0.result.Err? && r.0.result.error == Repo(UniqueViolation) ==> b.email in db.emailIndex
  {
    match ValidateValidationCode(db, b.email, b.code, REGISTER, now)
    case Err(e) => (Step(db, Err(e)), cache)
    case Ok(_) =>
      var (cache1, roleId) := GetClientRoleId(cache, db);
      match roleId
      case Err(e) => (Step(db, Err(Repo(e))), cache1)
      case Ok(id) =>
        match CreateUser(db, b.email, b.name, b.phoneNumber, svc.hash(b.password), id)
        case Err(e) => (Step(db, Err(Repo(e))), cache1)
        case Ok((db1, u)) => (Step(db1, Ok(u)), cache1)
  }

  /**
   * register exactly as written. `return this.authRepository.createUser(...)` is
   * not awaited inside the try, so the unique-email rejection of createUser
   * bypasses the catch and reaches the caller as a raw store error; the catch only
   * sees errors of the awaited steps, none of which is a unique violation.
   */
  function RegisterAsWritten(db: Db, cache: RoleCache, svc: Services, b: RegisterBody, now: int)
    : (r: (Step<PublicUser>, RoleCache))
    ensures r.0.result.Err? && r.0.result.error == Repo(UniqueViolation) ==> b.email in db.emailIndex
  {
    RegisterSteps(db, cache, svc, b, now)
  }

  /**
   * register as intended: a unique-constraint failure anywhere in the steps is
   * reported as EmailAlreadyExists.
   */
  function Register(db: Db, cache: RoleCache, svc: Services, b: RegisterBody, now: int)
    : (r: (Step<PublicUser>, RoleCache))
    ensures r.0.result.Err? ==> r.0.db == db
    ensures r.0.result.Ok? || r.0.result.error in {InvalidOTP, OTPExpired, Repo(RecordNotFound), EmailAlreadyExists}
    ensures r.0.result.Ok? ==>
      && ValidateValidationCode(db, b.email, b.code, REGISTER, now).Ok?
      && GetClientRoleId(cache, db).1 == Ok(r.0.result.value.roleId)
      && FindUserByEmail(r.0.db, b.email)
         == Some(User(r.0.result.value.id, b.email, b.name, b.phoneNumber, svc.hash(b.password), r.0.result.value.roleId, None))
      && OnlyUserAdded(db, r.0.db, b.email, r.0.result.value.id)
  {
    var (step, cache1) := RegisterSteps(db, cache, svc, b, now);
    match step.result
    case Err(Repo(UniqueViolation)) => (Step(step.db, Err(EmailAlreadyExists)), cache1)
    case _ => (step, cache1)
  }

  /**
   * Registering an email that already has a user, with a valid REGISTER code and
   * a live Client role: as written the raw unique violation escapes; as intended
   * the caller is told EmailAlreadyExists.
   */
  lemma RegisterDuplicateEmail(db: Db, cache: RoleCache, svc: Services, b: RegisterBody, now: int)
    requires b.email in db.emailIndex
    requires ValidateValidationCode(db, b.email, b.code, REGISTER, now).Ok?
    requires GetClientRoleId(cache, db).1.Ok?
    ensures RegisterAsWritten(db, cache, svc, b, now).0.result == Err(Repo(UniqueViolation))
    ensures Register(db, cache, svc, b, now).0.result == Err(EmailAlreadyExists)
  {
  }

  /** The second factor of login; None when it is satisfied or not required. */
  function LoginSecondFactor(db: Db, svc: Services, u: User, b: LoginBody, now: int): (r: Option<AuthError>)
    ensures !TwoFactorOn(u) ==> r.None?
    ensures TwoFactorOn(u) && !Present(b.totpCode) && !Present(b.code) ==> r == Some(InvalidTOTPAndCode)
    ensures TwoFactorOn(u) && Present(b.totpCode) ==>
      r == (if svc.verifyTotp(b.email, b.totpCode.value, u.totpSecret.value) then None else Some(InvalidTOTPCode))
    ensures TwoFactorOn(u) && !Present(b.totpCode) && Present(b.code) ==>
      (r.None? <==> ValidateValidationCode(db, b.email, b.code.value, LOGIN, now).Ok?)
    ensures r.Some? ==> CredentialFailure(r.value)
  {
    if !TwoFactorOn(u) then None
    else if !Present(b.totpCode) && !Present(b.code) then Some(InvalidTOTPAndCode)
    else if Present(b.totpCode) then
      if svc.verifyTotp(b.email, b.totpCode.value, u.totpSecret.value) then None else Some(InvalidTOTPCode)
    else match ValidateValidationCode(db, b.email, b.code.value, LOGIN, now)
      case Err(e) => Some(e)
      case Ok(_) => None
  }

  /**
   * generateTokens: sign both tokens, recover the refresh token's expiry by
   * verifying it, and store it bound to (userId, deviceId) with expiresAt = exp*1000.
   */
  function GenerateTokens(db: Db, svc: Services, claims: AccessClaims, nonces: Nonces): (r: Step<TokenPair>)
    ensures var refresh := svc.signRefresh(claims.userId, nonces.refresh);
      r.result.Err? <==> svc.verifyRefresh(refresh).None? || refresh in db.refreshTokens
    ensures r.result.Err? ==> r.db == db && !r.result.error.IsHttp()
    ensures r.result.Ok? ==>
      var pair := r.result.value;
      && pair.accessToken == svc.signAccess(claims, nonces.access)
      && pair.refreshToken == svc.signRefresh(claims.userId, nonces.refresh)
      && pair.refreshToken !in db.refreshTokens
      && svc.verifyRefresh(pair.refreshToken).Some?
      && r.db == db.(refreshTokens := db.refreshTokens[pair.refreshToken :=
           RefreshToken(pair.refreshToken, claims.userId, claims.deviceId, svc.verifyRefresh(pair.refreshToken).value.exp * 1000)])
  {
    var pair := TokenPair(svc.signAccess(claims, nonces.access), svc.signRefresh(claims.userId, nonces.refresh));
    match svc.verifyRefresh(pair.refreshToken)
    case None => Step(db, Err(InvalidToken))
    case Some(decoded) =>
      match CreateRefreshToken(db, claims.userId, claims.deviceId, decoded.exp * 1000, pair.refreshToken)
      case Err(e) => Step(db, Err(Repo(e)))
      case Ok((db1, _)) => Step(db1, Ok(pair))
  }

  /**
   * login: look the user up, check the password, then the second factor; only
   * then create a device and issue a token pair bound to it.
   */
  function Login(db: Db, svc: Services, b: LoginBody, userAgent: string, ip: string, nonces: Nonces, now: int)
    : (r: Step<TokenPair>)
    ensures FindUserByEmail(db, b.email).None? ==> r == Step(db, Err(EmailNotFound))
    ensures r.result.Err? && CredentialFailure(r.result.error) ==> r.db == db
    ensures r.result.Ok? ==>
      && FindUserIncludeRole(db, b.email).Ok? && FindUserIncludeRole(db, b.email).value.Some?
      && var ur := FindUserIncludeRole(db, b.email).value.value;
         var devId := db.nextDeviceId;
         var pair := r.result.value;
         && svc.compare(b.password, ur.user.password)
         && LoginSecondFactor(db, svc, ur.user, b, now).None?
         && pair.accessToken == svc.signAccess(AccessClaims(ur.user.id, devId, ur.user.roleId, ur.role.name), nonces.access)
         && r.db.devices == db.devices[devId := Device(devId, ur.user.id, userAgent, ip, true)]
         && pair.refreshToken !in db.refreshTokens
         && svc.verifyRefresh(pair.refreshToken).Some?
         && r.db.refreshTokens == db.refreshTokens[pair.refreshToken :=
              RefreshToken(pair.refreshToken, ur.user.id, devId, svc.verifyRefresh(pair.refreshToken).value.exp * 1000)]
         && r.db == db.(devices := r.db.devices, nextDeviceId := devId + 1, refreshTokens := r.db.refreshTokens)
  {
    match FindUserIncludeRole(db, b.email)
    case Err(e) => Step(db, Err(Repo(e)))
    case Ok(None) => Step(db, Err(EmailNotFound))
    case Ok(Some(ur)) =>
      if !svc.compare(b.password, ur.user.password) then Step(db, Err(InvalidPassword))
      else match LoginSecondFactor(db, svc, ur.user, b, now)
        case Some(e) => Step(db, Err(e))
        case None =>
          var (db1, device) := CreateDevice(db, ur.user.id, userAgent, ip);
          GenerateTokens(db1, svc, AccessClaims(ur.user.id, device.id, ur.user.roleId, ur.role.name), nonces)
  }

  /** A wrong password is refused as InvalidPassword and leaves no device and no token behind. */
  lemma WrongPasswordIsRefused(db: Db, svc: Services, b: LoginBody, userAgent: string, ip: string, nonces: Nonces, now: int)
    requires FindUserIncludeRole(db, b.email).Ok? && FindUserIncludeRole(db, b.email).value.Some?
    requires !svc.compare(b.password, FindUserIncludeRole(db, b.email).value.value.user.password)
    ensures Login(db, svc, b, userAgent, ip, nonces, now) == Step(db, Err(InvalidPassword))
  {
  }

  /** Rotation before the catch of refreshToken, with every error as raised. */
  function RotateRefreshToken(db: Db, svc: Services, token: string, ip: string, userAgent: string, nonces: Nonces)
    : (r: Step<TokenPair>)
  {
    match svc.verifyRefresh(token)
    case None => Step(db, Err(InvalidToken))
    case Some(claims) =>
      match FindRefreshTokenIncludeUserRole(db, token)
      case Err(e) => Step(db, Err(Repo(e)))
      case Ok(None) => Step(db, Err(RefreshTokenAlreadyUsed))
      case Ok(Some(owner)) =>
        match UpdateDevice(db, owner.row.deviceId, DevicePatch(Some(ip), Some(userAgent), None))
        case Err(e) => Step(db, Err(Repo(e)))
        case Ok((db1, _)) =>
          match DeleteRefreshToken(db1, token)
          case Err(e) => Step(db1, Err(Repo(e)))
          case Ok((db2, _)) =>
            GenerateTokens(db2, svc, AccessClaims(claims.userId, owner.row.deviceId, owner.user.roleId, owner.role.name), nonces)
  }

  /**
   * refreshToken: an unknown token is taken as already used; a known one has its
   * device's ip and user agent refreshed, is deleted, and is replaced by a new
   * token for the same device. HTTP errors pass through and anything else is
   * reported as UnauthorizedAccess.
   */
  function Refresh(db: Db, svc: Services, token: string, ip: string, userAgent: string, nonces: Nonces)
    : (r: Step<TokenPair>)
    ensures svc.verifyRefresh(token).None? ==> r == Step(db, Err(UnauthorizedAccess))
    ensures svc.verifyRefresh(token).Some? && token !in db.refreshTokens ==> r == Step(db, Err(RefreshTokenAlreadyUsed))
    ensures r.result.Err? ==> r.result.error == RefreshTokenAlreadyUsed || r.result.error == UnauthorizedAccess
    ensures r.result.Ok? ==>
      && svc.verifyRefresh(token).Some? && token in db.refreshTokens
      && var row := db.refreshTokens[token];
         var pair := r.result.value;
         && row.deviceId in db.devices
         && r.db.devices == db.devices[row.deviceId := db.devices[row.deviceId].(ip := ip, userAgent := userAgent)]
         && pair.refreshToken == svc.signRefresh(svc.verifyRefresh(token).value.userId, nonces.refresh)
         && svc.verifyRefresh(pair.refreshToken).Some?
         && r.db.refreshTokens == (db.refreshTokens - {token})[pair.refreshToken :=
              RefreshToken(pair.refreshToken, svc.verifyRefresh(token).value.userId, row.deviceId,
                           svc.verifyRefresh(pair.refreshToken).value.exp * 1000)]
         && FindRefreshTokenIncludeUserRole(db, token).Ok? && FindRefreshTokenIncludeUserRole(db, token).value.Some?
         && (var o := FindRefreshTokenIncludeUserRole(db, token).value.value;
             pair.accessToken == svc.signAccess(
               AccessClaims(svc.verifyRefresh(token).value.userId, row.deviceId, o.user.roleId, o.role.name), nonces.access))
         && r.db == db.(devices := r.db.devices, refreshTokens := r.db.refreshTokens)
  {
    var step := RotateRefreshToken(db, svc, token, ip, userAgent, nonces);
    match step.result
    case Ok(_) => step
    case Err(e) => Step(step.db, Err(if e.IsHttp() then e else UnauthorizedAccess))
  }

  /**
   * Refresh-token single use: once a refresh succeeds, replaying the same token
   * fails as RefreshTokenAlreadyUsed, provided the newly issued token differs from it.
   */
  lemma RefreshTokenSingleUse(
    db: Db, svc: Services, token: string, ip: string, userAgent: string, nonces: Nonces,
    ip2: string, userAgent2: string, nonces2: Nonces)
    requires Refresh(db, svc, token, ip, userAgent, nonces).result.Ok?
    requires Refresh(db, svc, token, ip, userAgent, nonces).result.value.refreshToken != token
    ensures Refresh(Refresh(db, svc, token, ip, userAgent, nonces).db, svc, token, ip2, userAgent2, nonces2)
              .result == Err(RefreshTokenAlreadyUsed)
  {
  }

  /**
   * Once the token's owner is loaded, the device update and the token delete both
   * land whatever token generation does: the new pair is only written when it
   * succeeds, and a failure leaves the two earlier writes in place, as the source's
   * concurrent writes would.
   */
  lemma RefreshWritesLandBeforeTokens(
    db: Db, svc: Services, token: string, ip: string, userAgent: string, nonces: Nonces)
    requires TokensBound(db)
    requires svc.verifyRefresh(token).Some?
    requires FindRefreshTokenIncludeUserRole(db, token).Ok? && token in db.refreshTokens
    ensures var r := Refresh(db, svc, token, ip, userAgent, nonces);
      var dev := db.refreshTokens[token].deviceId;
      && r.db.devices == db.devices[dev := db.devices[dev].(ip := ip, userAgent := userAgent)]
      && (r.result.Err? ==> r.db.refreshTokens == db.refreshTokens - {token} && r.result.error == UnauthorizedAccess)
      && (r.result.Ok? ==> token !in r.db.refreshTokens || r.result.value.refreshToken == token)
  {
  }

  /** Logout before the catch, with every error as raised. */
  function RevokeRefreshToken(db: Db, svc: Services, token: string): (r: Step<()>)
  {
    match svc.verifyRefresh(token)
    case None => Step(db, Err(InvalidToken))
    case Some(_) =>
      match DeleteRefreshToken(db, token)
      case Err(e) => Step(db, Err(Repo(e)))
      case Ok((db1, row)) =>
        match UpdateDevice(db1, row.deviceId, DevicePatch(None, None, Some(false)))
        case Err(e) => Step(db1, Err(Repo(e)))
        case Ok((db2, _)) => Step(db2, Ok(()))
  }

  /**
   * logout: delete the token's row and mark its device inactive. Nothing in the
   * try raises an HTTP exception, so every failure, a missing row included,
   * comes out as UnauthorizedAccess.
   */
  function Logout(db: Db, svc: Services, token: string): (r: Step<()>)
    ensures r.result.Err? ==> r.result.error == UnauthorizedAccess
    ensures svc.verifyRefresh(token).None? || token !in db.refreshTokens ==> r == Step(db, Err(UnauthorizedAccess))
    ensures r.result.Ok? ==>
      && token in db.refreshTokens
      && var row := db.refreshTokens[token];
         && row.deviceId in db.devices
         && r.db == db.(refreshTokens := db.refreshTokens - {token},
                        devices := db.devices[row.deviceId := db.devices[row.deviceId].(isActive := false)])
    ensures TokensBound(db) && svc.verifyRefresh(token).Some? && token in db.refreshTokens ==> r.result.Ok?
  {
    var step := RevokeRefreshToken(db, svc, token);
    match step.result
    case Ok(_) => step
    case Err(e) => Step(step.db, Err(if e.IsHttp() then RefreshTokenAlreadyUsed else UnauthorizedAccess))
  }

  /** After a successful logout the token can neither refresh nor log out again. */
  lemma LogoutRevokes(db: Db, svc: Services, token: string, ip: string, userAgent: string, nonces: Nonces)
    requires Logout(db, svc, token).result.Ok?
    ensures Refresh(Logout(db, svc, token).db, svc, token, ip, userAgent, nonces).result == Err(RefreshTokenAlreadyUsed)
    ensures Logout(Logout(db, svc, token).db, svc, token).result == Err(UnauthorizedAccess)
  {
  }

  /**
   * forgotPassword: the email must have a user and a valid FORGOT_PASSWORD code;
   * then the password hash is replaced and the code row deleted.
   */
  function ForgotPassword(db: Db, svc: Services, b: ForgotPasswordBody, now: int): (r: Step<()>)
    ensures FindUserByEmail(db, b.email).None? ==> r == Step(db, Err(EmailNotFound))
    ensures FindUserByEmail(db, b.email).Some? && ValidateValidationCode(db, b.email, b.code, FORGOT_PASSWORD, now).Err? ==>
      r == Step(db, Err(ValidateValidationCode(db, b.email, b.code, FORGOT_PASSWORD, now).error))
    ensures r.result.Err? ==> r.db == db
    ensures r.result.Ok? ==>
      && ValidateValidationCode(db, b.email, b.code, FORGOT_PASSWORD, now).Ok?
      && FindUserByEmail(db, b.email).Some?
      && FindUserByEmail(r.db, b.email) == Some(FindUserByEmail(db, b.email).value.(password := svc.hash(b.newPassword)))
      && b.email !in r.db.codes
      && r.db.refreshTokens == db.refreshTokens && r.db.devices == db.devices
      && r.db == db.(users := db.users[db.emailIndex[b.email] := FindUserByEmail(db, b.email).value.(password := svc.hash(b.newPassword))],
                     codes := db.codes - {b.email})
  {
    match FindUserByEmail(db, b.email)
    case None => Step(db, Err(EmailNotFound))
    case Some(_) =>
      match ValidateValidationCode(db, b.email, b.code, FORGOT_PASSWORD, now)
      case Err(e) => Step(db, Err(e))
      case Ok(_) =>
        match UpdatePassword(db, b.email, svc.hash(b.newPassword))
        case Err(e) => Step(db, Err(Repo(e)))
        case Ok(db1) =>
          match DeleteValidationCode(db1, b.email, b.code, FORGOT_PASSWORD)
          case Err(e) => Step(db1, Err(Repo(e)))
          case Ok(db2) => Step(db2, Ok(()))
  }

  /** The reset code is single use: a second reset with it fails InvalidOTP. */
  lemma ForgotPasswordCodeSingleUse(db: Db, svc: Services, b: ForgotPasswordBody, now: int, b2: ForgotPasswordBody, now2: int)
    requires ForgotPassword(db, svc, b, now).result.Ok?
    requires b2.email == b.email && b2.code == b.code
    ensures ForgotPassword(ForgotPassword(db, svc, b, now).db, svc, b2, now2).result == Err(InvalidOTP)
  {
  }

  /** setupTwoFactorAuth: refused when a secret is already set; otherwise stores the new one. */
  function SetupTwoFactorAuth(db: Db, userId: nat, secret: string, uri: string): (r: Step<(string, string)>)
    ensures userId !in db.users ==> r == Step(db, Err(EmailNotFound))
    ensures userId in db.users && TwoFactorOn(db.users[userId]) ==> r == Step(db, Err(TOTPAlreadyEnabled))
    ensures r.result.Err? ==> r.db == db
    ensures r.result.Ok? <==> userId in db.users && !TwoFactorOn(db.users[userId])
    ensures r.result.Ok? ==>
      && r.result.value == (secret, uri)
      && r.db.users.Keys == db.users.Keys
      && r.db.users[userId] == db.users[userId].(totpSecret := Some(secret))
      && (forall k :: k in db.users && k != userId ==> r.db.users[k] == db.users[k])
      && r.db == db.(users := r.db.users)
  {
    match FindUserById(db, userId)
    case None => Step(db, Err(EmailNotFound))
    case Some(u) =>
      if TwoFactorOn(u) then Step(db, Err(TOTPAlreadyEnabled))
      else match SetTotpSecret(db, userId, Some(secret))
        case Err(e) => Step(db, Err(Repo(e)))
        case Ok(db1) => Step(db1, Ok((secret, uri)))
  }

  /**
   * disableTwoFactorAuth: refused without a secret; a TOTP code, when given, must
   * verify; otherwise a code, when given, must be a valid DISABLE_2FA code. With
   * neither, the secret is cleared unchecked: only the body schema prevents that.
   */
  function DisableTwoFactorAuth(db: Db, svc: Services, userId: nat, b: DisableTwoFactorBody, now: int)
    : (r: Step<()>)
    ensures userId !in db.users ==> r == Step(db, Err(EmailNotFound))
    ensures userId in db.users && !TwoFactorOn(db.users[userId]) ==> r == Step(db, Err(TOTPNotEnabled))
    ensures r.result.Err? ==> r.db == db
    ensures userId in db.users && TwoFactorOn(db.users[userId]) && Present(b.totpCode) ==>
      var u := db.users[userId];
      (r.result.Ok? <==> svc.verifyTotp(u.email, b.totpCode.value, u.totpSecret.value))
      && (r.result.Err? ==> r.result.error == InvalidTOTPCode)
    ensures userId in db.users && TwoFactorOn(db.users[userId]) && !Present(b.totpCode) && Present(b.code) ==>
      (r.result.Ok? <==> ValidateValidationCode(db, db.users[userId].email, b.code.value, DISABLE_2FA, now).Ok?)
    ensures userId in db.users && TwoFactorOn(db.users[userId]) && !Present(b.totpCode) && !Present(b.code) ==>
      r.result.Ok?
    ensures r.result.Ok? ==>
      && userId in db.users && TwoFactorOn(db.users[userId])
      && r.db.users.Keys == db.users.Keys
      && r.db.users[userId] == db.users[userId].(totpSecret := None)
      && (forall k :: k in db.users && k != userId ==> r.db.users[k] == db.users[k])
      && r.db == db.(users := r.db.users)
  {
    match FindUserById(db, userId)
    case None => Step(db, Err(EmailNotFound))
    case Some(u) =>
      if !TwoFactorOn(u) then Step(db, Err(TOTPNotEnabled))
      else if Present(b.totpCode) && !svc.verifyTotp(u.email, b.totpCode.value, u.totpSecret.value) then
        Step(db, Err(InvalidTOTPCode))
      else
        var check := if !Present(b.totpCode) && Present(b.code)
                     then ValidateValidationCode(db, u.email, b.code.value, DISABLE_2FA, now)
                     else Ok(ValidationCode(u.email, "", DISABLE_2FA, now));
        match check
        case Err(e) => Step(db, Err(e))
        case Ok(_) =>
          match SetTotpSecret(db, userId, None)
          case Err(e) => Step(db, Err(Repo(e)))
          case Ok(db1) => Step(db1, Ok(()))
  }

  /**
   * Through the body schema, disabling always checks a factor: a success with an
   * accepted body means the TOTP code verified or a DISABLE_2FA code validated.
   */
  lemma DisableThroughSchemaChecksAFactor(db: Db, svc: Services, userId: nat, b: DisableTwoFactorBody, now: int)
    requires AcceptsDisableTwoFactor(b)
    requires DisableTwoFactorAuth(db, svc, userId, b, now).result.Ok?
    ensures var u := db.users[userId];
      || (Present(b.totpCode) && svc.verifyTotp(u.email, b.totpCode.value, u.totpSecret.value))
      || (Present(b.code) && ValidateValidationCode(db, u.email, b.code.value, DISABLE_2FA, now).Ok?)
  {
    AcceptedDisableHasExactlyOneCode(b);
  }
}
