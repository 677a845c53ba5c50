/**
 * RoleService: role administration over RoleRepo. The three built-in roles are
 * protected from update and deletion; repository failures are translated into
 * the API's role errors.
 */
module RoleService {
  import opened Wrappers
  import opened Store
  import opened AuthRepo
  import RoleRepo
  import opened Pagination

  datatype RoleError =
    | NotFoundRecord                  // NotFoundRecordException
    | RoleNotFound                    // RoleNotFoundException
    | RoleAlreadyExists               // RoleAlreadyExistsException
    | RoleIsProtected                 // RoleIsProtectedException
    | DeletedPermission(ids: seq<nat>) // the repository's plain Error, rethrown as is
    | InvalidSkip                     // Prisma refuses a negative skip
    | Repo(error: RepoError)          // any other Prisma error, rethrown as is

  /** The names verifyRole protects. */
  const BaseRoles: seq<string> := [AdminRoleName, ClientRoleName, SellerRoleName]

  const DeleteMessage: string := "Delete successfully"

  /** verifyRole: the role must exist and must not be one of the built-in roles. */
  function VerifyRole(db: Db, id: nat): (r: Result<(), RoleError>)
    ensures r == Err(NotFoundRecord) <==> RoleRepo.FindById(db, id).None?
    ensures r == Err(RoleIsProtected)
        <==> RoleRepo.FindById(db, id).Some? && RoleRepo.FindById(db, id).value.role.name in BaseRoles
    ensures r.Ok? || r == Err(NotFoundRecord) || r == Err(RoleIsProtected)
  {
    match RoleRepo.FindById(db, id)
    case None => Err(NotFoundRecord)
    case Some(detail) => if detail.role.name in BaseRoles then Err(RoleIsProtected) else Ok(())
  }

  /** `skip: (page - 1) * limit`; with a positive limit it is negative exactly for a page below 1. */
  function Skip(page: int, limit: int): (s: int)
    requires limit > 0
    ensures s < 0 <==> page < 1
  {
    MulMonotone(0, page - 1, limit);
    (page - 1) * limit
  }

  /**
   * list: page `page` of `limit` non-deleted roles, skipping (page-1)*limit of
   * them, with the pagination summary over the non-deleted count. Prisma
   * refuses the negative skip of a page below 1.
   */
  function List(db: Db, page: int, limit: int): (r: Result<(seq<Role>, PageInfo), RoleError>)
    requires limit > 0
    ensures r.Err? <==> page < 1
    ensures r.Err? ==> r.error == InvalidSkip
    ensures r.Ok? ==>
      && r.value.0 == RoleRepo.List(db, Skip(page, limit), limit)
      && r.value.1 == GetPagination(RoleRepo.Count(db), page, limit)
  {
    var skip := Skip(page, limit);
    if skip < 0 then Err(InvalidSkip)
    else Ok((RoleRepo.List(db, skip, limit), GetPagination(RoleRepo.Count(db), page, limit)))
  }

  /** A page has roles exactly when its number is at most totalPages, and never more than limit. */
  lemma ListPageIsNonEmptyIff(db: Db, page: int, limit: int)
    requires limit > 0
    requires List(db, page, limit).Ok?
    ensures var (data, info) := List(db, page, limit).value;
      && |data| <= limit
      && (|data| > 0 <==> page <= info.totalPages)
  {
    var skip := Skip(page, limit);
    PagesStartInsideTable(RoleRepo.Count(db), page, limit);
    var data := List(db, page, limit).value.0;
    if skip < RoleRepo.Count(db) {
      assert |data| > 0 by {
        if skip + limit > RoleRepo.Count(db) {
          assert |data| == RoleRepo.Count(db) - skip;
        }
      }
    }
  }

  /** findById: the role and its live permissions, or RoleNotFound. */
  function FindById(db: Db, id: nat): (r: Result<RoleRepo.RoleDetail, RoleError>)
    ensures r.Err? <==> RoleRepo.FindById(db, id).None?
    ensures r.Err? ==> r.error == RoleNotFound
    ensures r.Ok? ==> r.value.role.id == id && r.value.role in db.roles && RoleRepo.Live(r.value.role)
  {
    match RoleRepo.FindById(db, id)
    case None => Err(RoleNotFound)
    case Some(detail) => Ok(detail)
  }

  /** create: a unique-name violation becomes RoleAlreadyExists. */
  function Create(db: Db, data: RoleRepo.RoleBody, createdById: nat): (r: Result<(Db, Role), RoleError>)
    ensures r.Err? <==> exists i :: 0 <= i < |db.roles| && db.roles[i].name == data.name
    ensures r.Err? ==> r.error == RoleAlreadyExists
    ensures r.Ok? ==> r == Ok(RoleRepo.Create(db, data, createdById).value)
  {
    match RoleRepo.Create(db, data, createdById)
    case Err(_) => Err(RoleAlreadyExists)
    case Ok(v) => Ok(v)
  }

  /** The catch of update: unique violations and missing records get role errors, the rest pass. */
  function UpdateError(e: RoleRepo.RoleRepoError): RoleError
  {
    match e
    case Prisma(UniqueViolation) => RoleAlreadyExists
    case Prisma(RecordNotFound) => NotFoundRecord
    case Prisma(other) => Repo(other)
    case PermissionIsDeleted(ids) => DeletedPermission(ids)
  }

  /** update: verifyRole first, then the repository update under the catch's translation. */
  function Update(db: Db, id: nat, data: RoleRepo.UpdateRoleBody, updatedById: nat)
    : (r: Result<(Db, Role), RoleError>)
    ensures VerifyRole(db, id).Err? ==> r == Err(VerifyRole(db, id).error)
    ensures r.Ok? ==> VerifyRole(db, id).Ok? && RoleRepo.Update(db, id, data, updatedById) == Ok(r.value)
    ensures VerifyRole(db, id).Ok? && RoleRepo.Update(db, id, data, updatedById).Err? ==>
      && r.Err?
      && (RoleRepo.Update(db, id, data, updatedById).error == RoleRepo.Prisma(UniqueViolation) ==> r.error == RoleAlreadyExists)
      && (RoleRepo.Update(db, id, data, updatedById).error == RoleRepo.Prisma(RecordNotFound) ==> r.error == NotFoundRecord)
      && (RoleRepo.Update(db, id, data, updatedById).error.PermissionIsDeleted? ==>
            r.error == DeletedPermission(RoleRepo.Update(db, id, data, updatedById).error.ids))
  {
    match VerifyRole(db, id)
    case Err(e) => Err(e)
    case Ok(_) =>
      match RoleRepo.Update(db, id, data, updatedById)
      case Err(e) => Err(UpdateError(e))
      case Ok(v) => Ok(v)
  }

  /** delete: verifyRole first, then a soft delete; a repository not-found becomes RoleNotFound. */
  function Delete(db: Db, id: nat, deletedById: nat, now: int): (r: Result<(Db, string), RoleError>)
    ensures VerifyRole(db, id).Err? ==> r == Err(VerifyRole(db, id).error)
    ensures r.Ok? ==>
      && VerifyRole(db, id).Ok?
      && RoleRepo.Delete(db, id, deletedById, false, now).Ok?
      && r.value == (RoleRepo.Delete(db, id, deletedById, false, now).value.0, DeleteMessage)
  {
    match VerifyRole(db, id)
    case Err(e) => Err(e)
    case Ok(_) =>
      match RoleRepo.Delete(db, id, deletedById, false, now)
      case Err(RecordNotFound) => Err(RoleNotFound)
      case Err(e) => Err(Repo(e))
      case Ok((db', _)) => Ok((db', DeleteMessage))
  }

  /** A built-in role is neither updated nor deleted, whatever the request. */
  lemma ProtectedRolesStay(db: Db, id: nat, data: RoleRepo.UpdateRoleBody, actor: nat, now: int)
    requires RoleRepo.FindById(db, id).Some? && RoleRepo.FindById(db, id).value.role.name in BaseRoles
    ensures Update(db, id, data, actor) == Err(RoleIsProtected)
    ensures Delete(db, id, actor, now) == Err(RoleIsProtected)
  {
  }

  /**
   * verifyRole uses the same filter as the repository's delete, so the repository
   * never reports not-found there: deleting an absent role gives NotFoundRecord,
   * and RoleNotFound never comes out of delete.
   */
  lemma DeleteNeverReportsRoleNotFound(db: Db, id: nat, deletedById: nat, now: int)
    ensures Delete(db, id, deletedById, now) != Err(RoleNotFound)
    ensures RoleRepo.FindById(db, id).None? ==> Delete(db, id, deletedById, now) == Err(NotFoundRecord)
  {
  }

  /** After a successful delete the role is gone from findById and from the count. */
  lemma DeletedRoleIsNotFound(db: Db, id: nat, deletedById: nat, now: int)
    requires RoleRepo.RolesNumbered(db)
    requires Delete(db, id, deletedById, now).Ok?
    ensures var db' := Delete(db, id, deletedById, now).value.0;
      && FindById(db', id) == Err(RoleNotFound)
      && RoleRepo.Count(db') == RoleRepo.Count(db) - 1
      && RoleRepo.RolesNumbered(db')
  {
    RoleRepo.DeleteHides(db, id, deletedById, false, now);
  }

  /** After a successful update the role is found with exactly the requested permissions. */
  lemma UpdatedRoleIsFound(db: Db, id: nat, data: RoleRepo.UpdateRoleBody, updatedById: nat)
    requires RoleRepo.RolesNumbered(db)
    requires Update(db, id, data, updatedById).Ok?
    ensures var (db', role) := Update(db, id, data, updatedById).value;
      && FindById(db', id).Ok?
      && FindById(db', id).value.role == role
      && (forall p :: p in FindById(db', id).value.permissions ==> p.id in data.permissionIds)
      && (forall i :: 0 <= i < |db.permissions| && db.permissions[i].id in data.permissionIds ==>
            db.permissions[i] in FindById(db', id).value.permissions)
  {
    RoleRepo.UpdateIsFound(db, id, data, updatedById);
  }
}
