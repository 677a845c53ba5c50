/**
 * The relational store the services read and write, as one immutable record.
 * Rows carry the columns the core reads; auto-increment ids come from per-table counters.
 */
module Store {
  import opened Wrappers

  /** Names of the three built-in roles (RoleName). */
  const AdminRoleName: string := "Admin"
  const SellerRoleName: string := "Seller"
  const ClientRoleName: string := "Client"

  /** The purpose a one-time code was issued for (TypeOfValidationCode). */
  datatype CodeType = REGISTER | FORGOT_PASSWORD | LOGIN | DISABLE_2FA

  datatype User = User(
    id: nat, email: string, name: string, phoneNumber: string,
    password: string, roleId: nat, totpSecret: Option<string>)

  /** A user as the API may show it: no password hash and no TOTP secret. */
  datatype PublicUser = PublicUser(id: nat, email: string, name: string, phoneNumber: string, roleId: nat)

  datatype Role = Role(
    id: nat, name: string, description: string, isActive: bool,
    createdById: Option<nat>, updatedById: Option<nat>,
    deletedById: Option<nat>, deletedAt: Option<int>,
    permissionIds: set<nat>)

  datatype Permission = Permission(
    id: nat, name: string, description: string, path: string, httpMethod: string,
    moduleName: Option<string>, deletedAt: Option<int>)

  datatype Device = Device(id: nat, userId: nat, userAgent: string, ip: string, isActive: bool)

  datatype RefreshToken = RefreshToken(token: string, userId: nat, deviceId: nat, expiresAt: int)

  datatype ValidationCode = ValidationCode(email: string, code: string, codeType: CodeType, expiresAt: int)

  /**
   * The whole store. Users are keyed by id with a unique index on email; validation
   * codes are keyed by email alone (the upsert's `where`); refresh tokens by token
   * string; devices by id. Roles and permissions keep insertion (id) order.
   */
  datatype Db = Db(
    users: map<nat, User>,
    emailIndex: map<string, nat>,
    roles: seq<Role>,
    permissions: seq<Permission>,
    codes: map<string, ValidationCode>,
    refreshTokens: map<string, RefreshToken>,
    devices: map<nat, Device>,
    nextUserId: nat,
    nextDeviceId: nat,
    nextRoleId: nat,
    nextPermissionId: nat)

  function Public(u: User): PublicUser
  {
    PublicUser(u.id, u.email, u.name, u.phoneNumber, u.roleId)
  }

  /** The unique email index agrees with the user rows, and user ids are below the counter. */
  ghost predicate UsersIndexed(db: Db)
  {
    && (forall e :: e in db.emailIndex ==> db.emailIndex[e] in db.users && db.users[db.emailIndex[e]].email == e)
    && (forall id :: id in db.users ==>
          db.users[id].id == id && id < db.nextUserId
          && db.users[id].email in db.emailIndex && db.emailIndex[db.users[id].email] == id)
  }

  /** Device rows are keyed by their id, which is below the counter. */
  ghost predicate DevicesNumbered(db: Db)
  {
    forall id :: id in db.devices ==> db.devices[id].id == id && id < db.nextDeviceId
  }

  /** Every stored refresh token is keyed by itself and is bound to an existing device. */
  ghost predicate TokensBound(db: Db)
  {
    forall t :: t in db.refreshTokens ==> db.refreshTokens[t].token == t && db.refreshTokens[t].deviceId in db.devices
  }

  /** Every code row is keyed by its own email. */
  ghost predicate CodesKeyed(db: Db)
  {
    forall e :: e in db.codes ==> db.codes[e].email == e
  }

  /** The integrity the database's keys and foreign keys maintain. */
  ghost predicate Valid(db: Db)
  {
    UsersIndexed(db) && DevicesNumbered(db) && TokensBound(db) && CodesKeyed(db)
  }

  /** The user with this email (findUnique({ email })). */
  function FindUserByEmail(db: Db, email: string): Option<User>
  {
    if email in db.emailIndex && db.emailIndex[email] in db.users then Some(db.users[db.emailIndex[email]]) else None
  }

  /** The user with this id (findUnique({ id })). */
  function FindUserById(db: Db, id: nat): Option<User>
  {
    if id in db.users then Some(db.users[id]) else None
  }

  /** In a valid store, the email lookup finds exactly the user row holding that email. */
  lemma FindUserByEmailSpec(db: Db, email: string)
    requires UsersIndexed(db)
    ensures FindUserByEmail(db, email).Some? <==> exists id :: id in db.users && db.users[id].email == email
    ensures FindUserByEmail(db, email).Some? ==>
              var u := FindUserByEmail(db, email).value;
              u.email == email && u.id in db.users && db.users[u.id] == u
  {
    if exists id :: id in db.users && db.users[id].email == email {
      var id :| id in db.users && db.users[id].email == email;
      assert email in db.emailIndex;
    }
  }
}
