/**
 * AuthRepository: the rows the authentication service reads and writes, with
 * Prisma's unique-key and record-not-found behaviour made explicit.
 */
module AuthRepo {
  import opened Wrappers
  import opened Seqs
  import opened Store

  /** Errors raised by the store. None of them is an HTTP exception. */
  datatype RepoError =
    | UniqueViolation   // Prisma P2002
    | RecordNotFound    // Prisma P2025 (update/delete/findOrThrow of an absent row)
    | MissingRelation   // an included required relation has no row

  /** A user row together with its role (findUniqueUserIncludeRole). */
  datatype UserWithRole = UserWithRole(user: User, role: Role)

  /** A refresh-token row with its owner and the owner's role. */
  datatype TokenOwner = TokenOwner(row: RefreshToken, user: User, role: Role)

  /** The fields updateDevice may change; None leaves a column as it is. */
  datatype DevicePatch = DevicePatch(ip: Option<string>, userAgent: Option<string>, isActive: Option<bool>)

  /** The role row with the given id, whatever its state (an `include: { role: true }`). */
  function RoleById(db: Db, id: nat): (r: Option<Role>)
    ensures r.Some? ==> r.value in db.roles && r.value.id == id
    ensures r.None? <==> forall i :: 0 <= i < |db.roles| ==> db.roles[i].id != id
  {
    FindFirst(db.roles, (x: Role) => x.id == id)
  }

  /**
   * createUser: inserts a user with a fresh id and no TOTP secret, failing on a
   * duplicate email; the value handed back omits the password and the secret.
   */
  function CreateUser(db: Db, email: string, name: string, phoneNumber: string, password: string, roleId: nat)
    : (r: Result<(Db, PublicUser), RepoError>)
    ensures r.Err? <==> email in db.emailIndex
    ensures r.Err? ==> r.error == UniqueViolation
    ensures r.Ok? ==>
      var (db', u) := r.value;
      && u.id == db.nextUserId && u.email == email && u.roleId == roleId
      && FindUserByEmail(db', email) == Some(User(u.id, email, name, phoneNumber, password, roleId, None))
      && db'.users.Keys == db.users.Keys + {u.id}
      && Public(db'.users[u.id]) == u
      && db'.emailIndex == db.emailIndex[email := u.id] && db'.nextUserId == db.nextUserId + 1
      && (forall id :: id in db.users && id != u.id ==> db'.users[id] == db.users[id])
      && db' == db.(users := db'.users, emailIndex := db'.emailIndex, nextUserId := db'.nextUserId)
    ensures r.Ok? && UsersIndexed(db) ==> r.value.1.id !in db.users
  {
    if email in db.emailIndex then Err(UniqueViolation)
    else
      var id := db.nextUserId;
      var row := User(id, email, name, phoneNumber, password, roleId, None);
      var db' := db.(users := db.users[id := row], emailIndex := db.emailIndex[email := id], nextUserId := id + 1);
      Ok((db', Public(row)))
  }

  /**
   * createValidationCode: an upsert keyed on email alone. A new email gets a row
   * with all four fields; an existing row gets the new code and expiry but keeps
   * its old type. Nothing else in the store changes.
   */
  function CreateValidationCode(db: Db, email: string, code: string, codeType: CodeType, expiresAt: int)
    : (r: (Db, ValidationCode))
    ensures r.0 == db.(codes := r.0.codes)
    ensures r.0.codes.Keys == db.codes.Keys + {email}
    ensures forall e :: e in db.codes && e != email ==> r.0.codes[e] == db.codes[e]
    ensures r.1 == r.0.codes[email] && r.1.code == code && r.1.expiresAt == expiresAt
    ensures email in db.codes ==> r.1.codeType == db.codes[email].codeType && r.1.email == db.codes[email].email
    ensures email !in db.codes ==> r.1.codeType == codeType && r.1.email == email
  {
    var row := if email in db.codes then db.codes[email].(code := code, expiresAt := expiresAt)
               else ValidationCode(email, code, codeType, expiresAt);
    (db.(codes := db.codes[email := row]), row)
  }

  /** findUniqueValidationCode({ email_code_type }): the row carrying exactly this triple. */
  function FindValidationCode(db: Db, email: string, code: string, codeType: CodeType): (r: Option<ValidationCode>)
    ensures r.Some? ==> r.value in db.codes.Values && r.value.code == code && r.value.codeType == codeType
    ensures r.Some? && CodesKeyed(db) ==> r.value.email == email
    ensures r.None? && CodesKeyed(db) ==>
      forall e :: e in db.codes ==> !(db.codes[e].email == email && db.codes[e].code == code && db.codes[e].codeType == codeType)
  {
    if email in db.codes && db.codes[email].code == code && db.codes[email].codeType == codeType
    then Some(db.codes[email]) else None
  }

  /** deleteVerificationCode({ email_code_type }): removes that row, or fails when there is none. */
  function DeleteValidationCode(db: Db, email: string, code: string, codeType: CodeType): (r: Result<Db, RepoError>)
    ensures r.Ok? <==> FindValidationCode(db, email, code, codeType).Some?
    ensures r.Err? ==> r.error == RecordNotFound
    ensures r.Ok? ==> r.value == db.(codes := r.value.codes) && r.value.codes.Keys == db.codes.Keys - {email}
    ensures r.Ok? ==> forall c, t :: FindValidationCode(r.value, email, c, t).None?
  {
    if FindValidationCode(db, email, code, codeType).Some? then Ok(db.(codes := db.codes - {email}))
    else Err(RecordNotFound)
  }

  /** createRefreshToken: stores exactly the given row; the token column is unique. */
  function CreateRefreshToken(db: Db, userId: nat, deviceId: nat, expiresAt: int, token: string)
    : (r: Result<(Db, RefreshToken), RepoError>)
    ensures r.Err? <==> token in db.refreshTokens
    ensures r.Err? ==> r.error == UniqueViolation
    ensures r.Ok? ==>
      var (db', row) := r.value;
      && row == RefreshToken(token, userId, deviceId, expiresAt)
      && db'.refreshTokens.Keys == db.refreshTokens.Keys + {token}
      && db'.refreshTokens[token] == row
      && (forall t :: t in db.refreshTokens ==> db'.refreshTokens[t] == db.refreshTokens[t])
      && db' == db.(refreshTokens := db'.refreshTokens)
  {
    if token in db.refreshTokens then Err(UniqueViolation)
    else
      var row := RefreshToken(token, userId, deviceId, expiresAt);
      Ok((db.(refreshTokens := db.refreshTokens[token := row]), row))
  }

  /** createDevice: always a new row with a fresh id; a new device starts active. */
  function CreateDevice(db: Db, userId: nat, userAgent: string, ip: string): (r: (Db, Device))
    ensures r.1.userId == userId && r.1.userAgent == userAgent && r.1.ip == ip && r.1.isActive
    ensures r.1.id == db.nextDeviceId && r.0.nextDeviceId > r.1.id
    ensures r.0.devices.Keys == db.devices.Keys + {r.1.id} && r.0.devices[r.1.id] == r.1
    ensures forall id :: id in db.devices && id != r.1.id ==> r.0.devices[id] == db.devices[id]
    ensures DevicesNumbered(db) ==> r.1.id !in db.devices && |r.0.devices| == |db.devices| + 1
    ensures r.0 == db.(devices := r.0.devices, nextDeviceId := r.0.nextDeviceId)
  {
    var d := Device(db.nextDeviceId, userId, userAgent, ip, true);
    (db.(devices := db.devices[d.id := d], nextDeviceId := d.id + 1), d)
  }

  /** findUniqueUserIncludeRole({ email }): the user and its role, or None. */
  function FindUserIncludeRole(db: Db, email: string): (r: Result<Option<UserWithRole>, RepoError>)
    ensures r == Ok(None) <==> FindUserByEmail(db, email).None?
    ensures r.Ok? && r.value.Some? ==>
      && FindUserByEmail(db, email) == Some(r.value.value.user)
      && r.value.value.role in db.roles && r.value.value.role.id == r.value.value.user.roleId
    ensures r.Err? ==> r.error == MissingRelation
  {
    match FindUserByEmail(db, email)
    case None => Ok(None)
    case Some(u) =>
      match RoleById(db, u.roleId)
      case None => Err(MissingRelation)
      case Some(role) => Ok(Some(UserWithRole(u, role)))
  }

  /** findUniqueRefreshTokenIncludeUserRole: the row with its owning user and that user's role. */
  function FindRefreshTokenIncludeUserRole(db: Db, token: string): (r: Result<Option<TokenOwner>, RepoError>)
    ensures r == Ok(None) <==> token !in db.refreshTokens
    ensures r.Ok? && r.value.Some? ==>
      var o := r.value.value;
      && token in db.refreshTokens && o.row == db.refreshTokens[token]
      && o.row.userId in db.users && o.user == db.users[o.row.userId]
      && o.role in db.roles && o.role.id == o.user.roleId
    ensures r.Err? ==> r.error == MissingRelation
  {
    if token !in db.refreshTokens then Ok(None)
    else
      var row := db.refreshTokens[token];
      if row.userId !in db.users then Err(MissingRelation)
      else
        var u := db.users[row.userId];
        match RoleById(db, u.roleId)
        case None => Err(MissingRelation)
        case Some(role) => Ok(Some(TokenOwner(row, u, role)))
  }

  /** deleteRefreshToken: removes the row with this token and returns it. */
  function DeleteRefreshToken(db: Db, token: string): (r: Result<(Db, RefreshToken), RepoError>)
    ensures r.Err? <==> token !in db.refreshTokens
    ensures r.Err? ==> r.error == RecordNotFound
    ensures r.Ok? ==>
      && r.value.1 == db.refreshTokens[token]
      && r.value.0.refreshTokens.Keys == db.refreshTokens.Keys - {token}
      && (forall t :: t in r.value.0.refreshTokens ==> r.value.0.refreshTokens[t] == db.refreshTokens[t])
      && r.value.0 == db.(refreshTokens := r.value.0.refreshTokens)
  {
    if token !in db.refreshTokens then Err(RecordNotFound)
    else Ok((db.(refreshTokens := db.refreshTokens - {token}), db.refreshTokens[token]))
  }

  /** updateDevice: changes only the supplied columns of the device with that id. */
  function UpdateDevice(db: Db, id: nat, patch: DevicePatch): (r: Result<(Db, Device), RepoError>)
    ensures r.Err? <==> id !in db.devices
    ensures r.Err? ==> r.error == RecordNotFound
    ensures r.Ok? ==>
      var (db', d) := r.value;
      var before := db.devices[id];
      && d.id == before.id && d.userId == before.userId
      && d.ip == (if patch.ip.Some? then patch.ip.value else before.ip)
      && d.userAgent == (if patch.userAgent.Some? then patch.userAgent.value else before.userAgent)
      && d.isActive == (if patch.isActive.Some? then patch.isActive.value else before.isActive)
      && db'.devices.Keys == db.devices.Keys && db'.devices[id] == d
      && (forall k :: k in db.devices && k != id ==> db'.devices[k] == db.devices[k])
      && db' == db.(devices := db'.devices)
  {
    if id !in db.devices then Err(RecordNotFound)
    else
      var before := db.devices[id];
      var d := before.(
        ip := if patch.ip.Some? then patch.ip.value else before.ip,
        userAgent := if patch.userAgent.Some? then patch.userAgent.value else before.userAgent,
        isActive := if patch.isActive.Some? then patch.isActive.value else before.isActive);
      Ok((db.(devices := db.devices[id := d]), d))
  }

  /** updateUser({ email }, { password }): replaces the password hash of the user with that email. */
  function UpdatePassword(db: Db, email: string, password: string): (r: Result<Db, RepoError>)
    ensures r.Err? <==> FindUserByEmail(db, email).None?
    ensures r.Ok? ==>
      var id := db.emailIndex[email];
      && r.value.users.Keys == db.users.Keys
      && r.value.users[id] == db.users[id].(password := password)
      && (forall k :: k in db.users && k != id ==> r.value.users[k] == db.users[k])
      && r.value == db.(users := r.value.users)
  {
    match FindUserByEmail(db, email)
    case None => Err(RecordNotFound)
    case Some(u) => Ok(db.(users := db.users[db.emailIndex[email] := u.(password := password)]))
  }

  /** updateUser({ id }, { totpSecret }): sets or clears the TOTP secret of that user. */
  function SetTotpSecret(db: Db, id: nat, secret: Option<string>): (r: Result<Db, RepoError>)
    ensures r.Err? <==> id !in db.users
    ensures r.Ok? ==>
      && r.value.users.Keys == db.users.Keys
      && r.value.users[id] == db.users[id].(totpSecret := secret)
      && (forall k :: k in db.users && k != id ==> r.value.users[k] == db.users[k])
      && r.value == db.(users := r.value.users)
  {
    if id !in db.users then Err(RecordNotFound)
    else Ok(db.(users := db.users[id := db.users[id].(totpSecret := secret)]))
  }
}
