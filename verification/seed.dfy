/**
 * The initial seeding script: on an empty role table it creates the three
 * built-in roles and an administrator account holding the Admin role.
 */
module Seed {
  import opened Wrappers
  import opened Seqs
  import opened Store
  import opened Externals
  import opened AuthRepo
  import RolesService
  import RoleService
  import RoleRepo

  /** ADMIN_NAME, ADMIN_EMAIL, ADMIN_PASSWORD and ADMIN_PHONENUMBER from the environment. */
  datatype AdminConfig = AdminConfig(name: string, email: string, password: string, phoneNumber: string)

  datatype SeedError =
    | RolesAlreadyExist        // Error('Roles already exist')
    | AdminRoleNotFound        // findFirstOrThrow on the Admin name
    | Repo(error: RepoError)   // user creation failed

  /** { createdRoleCount, adminUser } */
  datatype SeedReport = SeedReport(createdRoleCount: nat, adminUser: User)

  /** The script runs without a transaction: roles stay created if the user insert fails. */
  datatype SeedOutcome = SeedOutcome(db: Db, result: Result<SeedReport, SeedError>)

  /** A role as createMany writes it from a name and a description; isActive takes its default. */
  function BuiltInRole(id: nat, name: string): Role
  {
    Role(id, name, name + " role", true, None, None, None, None, {})
  }

  /** The three rows of the createMany, numbered from `first`. */
  function BuiltInRoles(first: nat): seq<Role>
  {
    [BuiltInRole(first, AdminRoleName), BuiltInRole(first + 1, SellerRoleName), BuiltInRole(first + 2, ClientRoleName)]
  }

  /** main: refuse if any role row exists; otherwise create the roles, then the admin user. */
  function Main(db: Db, cfg: AdminConfig, svc: Services): (r: SeedOutcome)
    ensures |db.roles| > 0 ==> r == SeedOutcome(db, Err(RolesAlreadyExist))
    ensures |db.roles| == 0 ==>
      && r.db.roles == BuiltInRoles(db.nextRoleId)
      && r.db.nextRoleId == db.nextRoleId + 3
      && (r.result.Ok? <==> cfg.email !in db.emailIndex)
      && (r.result.Err? ==> r.result.error == Repo(UniqueViolation) && r.db == db.(roles := r.db.roles, nextRoleId := r.db.nextRoleId))
    ensures r.result.Ok? ==>
      var u := r.result.value.adminUser;
      && r.result.value.createdRoleCount == 3
      && FindUserByEmail(r.db, cfg.email) == Some(u)
      && u.roleId == db.nextRoleId && r.db.roles[0].id == u.roleId && r.db.roles[0].name == AdminRoleName
      && u.password == svc.hash(cfg.password)
      && u.name == cfg.name && u.phoneNumber == cfg.phoneNumber && u.totpSecret.None?
      && u.id == db.nextUserId
      && r.db == db.(roles := r.db.roles, nextRoleId := r.db.nextRoleId, users := r.db.users,
                     emailIndex := db.emailIndex[cfg.email := u.id], nextUserId := u.id + 1)
      && r.db.users.Keys == db.users.Keys + {u.id}
      && forall k :: k in db.users && k != u.id ==> r.db.users[k] == db.users[k]
  {
    if |db.roles| > 0 then SeedOutcome(db, Err(RolesAlreadyExist))
    else
      var withRoles := db.(roles := BuiltInRoles(db.nextRoleId), nextRoleId := db.nextRoleId + 3);
      match FindFirst(withRoles.roles, (role: Role) => role.name == AdminRoleName)
      case None => SeedOutcome(withRoles, Err(AdminRoleNotFound))
      case Some(admin) =>
        assert admin == withRoles.roles[0];
        match CreateUser(withRoles, cfg.email, cfg.name, cfg.phoneNumber, svc.hash(cfg.password), admin.id)
        case Err(e) => SeedOutcome(withRoles, Err(Repo(e)))
        case Ok((db', u)) => SeedOutcome(db', Ok(SeedReport(3, FindUserByEmail(db', cfg.email).value)))
  }

  /** After seeding, every built-in role is protected from update and deletion. */
  lemma {:induction false} SeededRolesAreProtected(db: Db, cfg: AdminConfig, svc: Services, k: nat)
    requires |db.roles| == 0 && k < 3
    ensures var r := Main(db, cfg, svc).db;
      RoleService.VerifyRole(r, r.roles[k].id) == Err(RoleService.RoleIsProtected)
  {
    var r := Main(db, cfg, svc).db;
    var id := r.roles[k].id;
    var found := RoleRepo.LiveRoleIndex(r, id);
    assert found == Some(k);
  }

  /** After seeding, the first client-role lookup finds and caches the seeded Client role. */
  lemma SeededClientRoleIsFound(db: Db, cfg: AdminConfig, svc: Services)
    requires |db.roles| == 0
    ensures var r := Main(db, cfg, svc).db;
      RolesService.GetClientRoleId(RolesService.EmptyCache, r)
        == (RolesService.RoleCache(Some(db.nextRoleId + 2)), Ok(db.nextRoleId + 2))
  {
    var r := Main(db, cfg, svc).db;
    assert r.roles == BuiltInRoles(db.nextRoleId);
    var found := RolesService.LiveClientRole(r);
    assert r.roles[2].name == ClientRoleName && r.roles[2].deletedAt.None?;
    assert r.roles[0].name != ClientRoleName && r.roles[1].name != ClientRoleName;
    assert found == Some(r.roles[2]);
  }
}
