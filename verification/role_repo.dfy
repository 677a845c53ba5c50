/**
 * RoleRepo: role rows with soft deletion. Reads see only rows whose deletedAt is
 * null; update replaces a role's whole permission set and refuses soft-deleted
 * permissions; delete is soft unless a hard delete is asked for.
 */
module RoleRepo {
  import opened Wrappers
  import opened Seqs
  import opened Store
  import opened AuthRepo

  /** CreateRoleBody. */
  datatype RoleBody = RoleBody(name: string, description: string, isActive: bool)

  /** UpdateRoleBody: the role's columns and the complete new permission list. */
  datatype UpdateRoleBody = UpdateRoleBody(
    name: string, description: string, isActive: bool, permissionIds: seq<nat>)

  /** A role with the permissions findById loads for it. */
  datatype RoleDetail = RoleDetail(role: Role, permissions: seq<Permission>)

  /** update fails with a Prisma error or with its own plain Error naming soft-deleted permissions. */
  datatype RoleRepoError = Prisma(error: RepoError) | PermissionIsDeleted(ids: seq<nat>)

  /** `deletedAt: null`. */
  predicate Live(r: Role)
  {
    r.deletedAt.None?
  }

  /** Role ids are distinct and below the next id the table hands out. */
  ghost predicate RolesNumbered(db: Db)
  {
    && (forall i :: 0 <= i < |db.roles| ==> db.roles[i].id < db.nextRoleId)
    && (forall i, j :: 0 <= i < j < |db.roles| ==> db.roles[i].id != db.roles[j].id)
  }

  /** Position of the non-deleted role with this id (`where: { id, deletedAt: null }`). */
  function LiveRoleIndex(db: Db, id: nat): (r: Option<nat>)
    ensures r.Some? ==> r.value < |db.roles| && db.roles[r.value].id == id && Live(db.roles[r.value])
    ensures r.None? <==> forall i :: 0 <= i < |db.roles| ==> !(db.roles[i].id == id && Live(db.roles[i]))
  {
    IndexWhere(db.roles, (role: Role) => role.id == id && Live(role))
  }

  /** count: the number of non-deleted roles. */
  function Count(db: Db): (n: nat)
    ensures n == |set i | 0 <= i < |db.roles| && Live(db.roles[i])|
    ensures n <= |db.roles|
    ensures n == 0 ==> forall i :: 0 <= i < |db.roles| ==> !Live(db.roles[i])
  {
    OccurrencesIsCount(db.roles, Live);
    assert (set i | 0 <= i < |db.roles| && Live(db.roles[i])) == Positions(db.roles, Live);
    |Filter(db.roles, Live)|
  }

  /** How many non-deleted roles precede position j in table order. */
  function LiveBefore(db: Db, j: nat): nat
    requires j <= |db.roles|
  {
    Occurrences(db.roles[..j], Live)
  }

  /** Where in table order the non-deleted role with exactly k non-deleted roles before it sits. */
  function LivePosition(db: Db, k: nat): (j: nat)
    requires k < Count(db)
    ensures j < |db.roles| && Live(db.roles[j]) && LiveBefore(db, j) == k
  {
    RankPosition(db.roles, Live, k)
  }

  /**
   * list: skip the first `skip` non-deleted roles and take at most `limit`; the
   * i-th row is the non-deleted role preceded by exactly skip + i others.
   */
  function List(db: Db, skip: nat, limit: nat): (r: seq<Role>)
    ensures |r| <= limit
    ensures skip >= Count(db) ==> r == []
    ensures skip + limit <= Count(db) ==> |r| == limit
    ensures skip < Count(db) < skip + limit ==> |r| == Count(db) - skip
    ensures forall i :: 0 <= i < |r| ==> r[i] in db.roles && Live(r[i])
    ensures forall i :: 0 <= i < |r| ==> r[i] == db.roles[LivePosition(db, skip + i)]
    ensures forall j :: 0 <= j < |db.roles| && Live(db.roles[j]) && skip <= LiveBefore(db, j) < skip + |r| ==>
      r[LiveBefore(db, j) - skip] == db.roles[j]
  {
    PageSizes(db, skip, limit);
    PageRanks(db, skip, limit);
    Page(Filter(db.roles, Live), skip, limit)
  }

  /** The sizes of a page of non-deleted roles, measured against the count. */
  lemma PageSizes(db: Db, skip: nat, limit: nat)
    ensures var r := Page(Filter(db.roles, Live), skip, limit);
      && |r| <= limit
      && (skip >= Count(db) ==> r == [])
      && (skip + limit <= Count(db) ==> |r| == limit)
      && (skip < Count(db) < skip + limit ==> |r| == Count(db) - skip)
      && forall i :: 0 <= i < |r| ==> r[i] in db.roles && Live(r[i])
  {
    assert |Filter(db.roles, Live)| == Count(db);
  }

  /** Each slot of a page of non-deleted roles holds the role of its rank, and each rank inside the page has its slot. */
  lemma PageRanks(db: Db, skip: nat, limit: nat)
    ensures var r := Page(Filter(db.roles, Live), skip, limit);
      && (forall i :: 0 <= i < |r| ==> r[i] == db.roles[LivePosition(db, skip + i)])
      && (forall j :: 0 <= j < |db.roles| && Live(db.roles[j]) && skip <= LiveBefore(db, j) < skip + |r| ==>
            r[LiveBefore(db, j) - skip] == db.roles[j])
  {
    var r := Page(Filter(db.roles, Live), skip, limit);
    assert Count(db) == |Filter(db.roles, Live)|;
    forall i | 0 <= i < |r|
      ensures r[i] == db.roles[LivePosition(db, skip + i)]
    {
      PageSlotHasRank(db.roles, Live, skip, limit, i);
      assert Count(db) == Occurrences(db.roles, Live);
      assert LivePosition(db, skip + i) == RankPosition(db.roles, Live, skip + i);
    }
    forall j | 0 <= j < |db.roles| && Live(db.roles[j]) && skip <= LiveBefore(db, j) < skip + |r|
      ensures r[LiveBefore(db, j) - skip] == db.roles[j]
    {
      RankHasPageSlot(db.roles, Live, skip, limit, j);
    }
  }

  /** Two consecutive pages together are the page spanning both. */
  lemma ConsecutivePagesJoin(db: Db, skip: nat, a: nat, b: nat)
    ensures List(db, skip, a) + List(db, skip + a, b) == List(db, skip, a + b)
  {
    PagesJoin(Filter(db.roles, Live), skip, a, b);
  }

  /** The role's permissions as findById includes them: the non-deleted ones. */
  function LivePermissionsOf(db: Db, role: Role): (r: seq<Permission>)
    ensures forall i :: 0 <= i < |r| ==> r[i] in db.permissions && r[i].id in role.permissionIds && r[i].deletedAt.None?
    ensures forall i :: (0 <= i < |db.permissions| && db.permissions[i].id in role.permissionIds
                         && db.permissions[i].deletedAt.None?) ==> db.permissions[i] in r
  {
    Filter(db.permissions, (p: Permission) => p.id in role.permissionIds && p.deletedAt.None?)
  }

  /** findById: the non-deleted role with this id and its non-deleted permissions, or null. */
  function FindById(db: Db, id: nat): (r: Option<RoleDetail>)
    ensures r.None? <==> forall i :: 0 <= i < |db.roles| ==> !(db.roles[i].id == id && Live(db.roles[i]))
    ensures r.Some? ==> r.value.role in db.roles && r.value.role.id == id && Live(r.value.role)
    ensures r.Some? ==> r.value.permissions == LivePermissionsOf(db, r.value.role)
  {
    match LiveRoleIndex(db, id)
    case None => None
    case Some(k) => Some(RoleDetail(db.roles[k], LivePermissionsOf(db, db.roles[k])))
  }

  /** Position of a row other than `except` already holding `name` (the unique name index). */
  function NameHolder(db: Db, name: string, except: Option<nat>): (r: Option<nat>)
    ensures r.Some? ==> r.value < |db.roles| && db.roles[r.value].name == name && Some(r.value) != except
    ensures r.None? ==> forall i :: 0 <= i < |db.roles| && Some(i) != except ==> db.roles[i].name != name
  {
    var positions := seq(|db.roles|, i requires 0 <= i < |db.roles| => i);
    var holds := (i: int) => 0 <= i < |db.roles| && db.roles[i].name == name && Some(i) != except;
    match IndexWhere(positions, holds)
    case None =>
      assert forall i :: 0 <= i < |db.roles| && Some(i) != except ==> db.roles[i].name != name by {
        forall i | 0 <= i < |db.roles| && Some(i) != except ensures db.roles[i].name != name {
          assert positions[i] == i && !holds(positions[i]);
        }
      }
      None
    case Some(j) => Some(j)
  }

  /** create: a new active-or-not role with no permissions; a taken name is a unique violation. */
  function Create(db: Db, data: RoleBody, createdById: nat): (r: Result<(Db, Role), RepoError>)
    ensures r.Err? <==> exists i :: 0 <= i < |db.roles| && db.roles[i].name == data.name
    ensures r.Err? ==> r.error == UniqueViolation
    ensures r.Ok? ==>
      var (db', role) := r.value;
      && role.id == db.nextRoleId && role.name == data.name && role.description == data.description
      && role.isActive == data.isActive && role.createdById == Some(createdById)
      && Live(role) && role.permissionIds == {}
      && db'.roles == db.roles + [role]
      && db' == db.(roles := db'.roles, nextRoleId := db.nextRoleId + 1)
  {
    if NameHolder(db, data.name, None).Some? then Err(UniqueViolation)
    else
      var role := Role(db.nextRoleId, data.name, data.description, data.isActive,
                       Some(createdById), None, None, None, {});
      Ok((db.(roles := db.roles + [role], nextRoleId := db.nextRoleId + 1), role))
  }

  /** The requested permissions that are soft-deleted. */
  function DeletedRequested(db: Db, ids: seq<nat>): (r: seq<Permission>)
    ensures forall i :: 0 <= i < |r| ==> r[i] in db.permissions && r[i].id in ids && r[i].deletedAt.Some?
    ensures forall i :: (0 <= i < |db.permissions| && db.permissions[i].id in ids
                         && db.permissions[i].deletedAt.Some?) ==> db.permissions[i] in r
  {
    Filter(db.permissions, (p: Permission) => p.id in ids && p.deletedAt.Some?)
  }

  function PermissionExists(db: Db, id: nat): bool
  {
    IndexWhere(db.permissions, (p: Permission) => p.id == id).Some?
  }

  /**
   * update: first refuses, with the ids, any requested permission that is
   * soft-deleted; then updates the non-deleted role with this id, setting name,
   * description, isActive and updatedById, and replacing its permission set by
   * exactly the requested ids.
   */
  function Update(db: Db, id: nat, data: UpdateRoleBody, updatedById: nat): (r: Result<(Db, Role), RoleRepoError>)
    ensures (exists i :: 0 <= i < |db.permissions| && db.permissions[i].id in data.permissionIds
                         && db.permissions[i].deletedAt.Some?)
        <==> r.Err? && r.error.PermissionIsDeleted?
    ensures LiveRoleIndex(db, id).None? ==> r.Err?
    ensures r.Err? && r.error.Prisma? ==> r.error.error in {RecordNotFound, UniqueViolation}
    ensures r.Ok? ==>
      var (db', role) := r.value;
      && LiveRoleIndex(db, id).Some?
      && var k := LiveRoleIndex(db, id).value;
      && role == db.roles[k].(name := data.name, description := data.description, isActive := data.isActive,
                              permissionIds := (set x | x in data.permissionIds), updatedById := Some(updatedById))
      && db' == db.(roles := db.roles[k := role])
      && (forall i :: 0 <= i < |db.roles| && i != k ==> db.roles[i].name != data.name)
      && (forall x :: x in data.permissionIds ==>
            (exists i :: 0 <= i < |db.permissions| && db.permissions[i].id == x && db.permissions[i].deletedAt.None?))
  {
    var deleted := DeletedRequested(db, data.permissionIds);
    if |data.permissionIds| > 0 && |deleted| > 0 then
      assert deleted[0] in db.permissions;
      Err(PermissionIsDeleted(seq(|deleted|, i requires 0 <= i < |deleted| => deleted[i].id)))
    else
      match LiveRoleIndex(db, id)
      case None => Err(Prisma(RecordNotFound))
      case Some(k) =>
        var missing := IndexWhere(data.permissionIds, (x: nat) => !PermissionExists(db, x));
        if missing.Some? then Err(Prisma(RecordNotFound))
        else if NameHolder(db, data.name, Some(k)).Some? then Err(Prisma(UniqueViolation))
        else
          assert forall x :: x in data.permissionIds ==> PermissionExists(db, x);
          var role := db.roles[k].(name := data.name, description := data.description, isActive := data.isActive,
                                   permissionIds := (set x | x in data.permissionIds), updatedById := Some(updatedById));
          Ok((db.(roles := db.roles[k := role]), role))
  }

  /**
   * delete: the non-deleted role with this id is removed when isHard is set, and
   * otherwise marked inactive with deletedAt and deletedById.
   */
  function Delete(db: Db, id: nat, deletedById: nat, isHard: bool, now: int): (r: Result<(Db, Role), RepoError>)
    ensures r.Err? <==> LiveRoleIndex(db, id).None?
    ensures r.Err? ==> r.error == RecordNotFound
    ensures r.Ok? ==>
      var (db', role) := r.value;
      var k := LiveRoleIndex(db, id).value;
      && (isHard ==> role == db.roles[k] && db' == db.(roles := db.roles[..k] + db.roles[k + 1..]))
      && (!isHard ==>
            && role == db.roles[k].(isActive := false, deletedAt := Some(now), deletedById := Some(deletedById))
            && db' == db.(roles := db.roles[k := role]))
  {
    match LiveRoleIndex(db, id)
    case None => Err(RecordNotFound)
    case Some(k) =>
      if isHard then Ok((db.(roles := db.roles[..k] + db.roles[k + 1..]), db.roles[k]))
      else
        var role := db.roles[k].(isActive := false, deletedAt := Some(now), deletedById := Some(deletedById));
        Ok((db.(roles := db.roles[k := role]), role))
  }

  /** A created role is numbered freshly and found by its id, with no permissions. */
  lemma {:induction false} CreateIsFound(db: Db, data: RoleBody, createdById: nat)
    requires RolesNumbered(db)
    requires Create(db, data, createdById).Ok?
    ensures var (db', role) := Create(db, data, createdById).value;
      && RolesNumbered(db')
      && FindById(db', role.id) == Some(RoleDetail(role, []))
      && Count(db') == Count(db) + 1
  {
    var role := Create(db, data, createdById).value.1;
    AppendIsFound(db, role);
    AppendIsCounted(db, role);
  }

  /** Appending a live role under the next id keeps ids distinct; the role is then found, with no permissions. */
  lemma {:induction false} AppendIsFound(db: Db, role: Role)
    requires RolesNumbered(db)
    requires role.id == db.nextRoleId && Live(role) && role.permissionIds == {}
    ensures var db' := db.(roles := db.roles + [role], nextRoleId := db.nextRoleId + 1);
      && RolesNumbered(db')
      && FindById(db', role.id) == Some(RoleDetail(role, []))
  {
    var db' := db.(roles := db.roles + [role], nextRoleId := db.nextRoleId + 1);
    assert db'.roles[|db.roles|] == role;
    assert forall i :: 0 <= i < |db.roles| ==> db'.roles[i] == db.roles[i];
    assert LiveRoleIndex(db', role.id) == Some(|db.roles|);
    FilterNone(db'.permissions, (p: Permission) => p.id in role.permissionIds && p.deletedAt.None?);
  }

  /** Appending a live role adds one to the count. */
  lemma {:induction false} AppendIsCounted(db: Db, role: Role)
    requires Live(role)
    ensures Count(db.(roles := db.roles + [role], nextRoleId := db.nextRoleId + 1)) == Count(db) + 1
  {
    FilterAppend(db.roles, [role], Live);
    assert Filter([role], Live) == [role] by {
      assert [role][1..] == [];
    }
  }

  /** Updating keeps the numbering, and the role is then found with exactly the requested permissions. */
  lemma {:induction false} UpdateIsFound(db: Db, id: nat, data: UpdateRoleBody, updatedById: nat)
    requires RolesNumbered(db)
    requires Update(db, id, data, updatedById).Ok?
    ensures var (db', role) := Update(db, id, data, updatedById).value;
      && RolesNumbered(db')
      && FindById(db', id).Some?
      && FindById(db', id).value.role == role
      && (forall i :: 0 <= i < |db.permissions| ==>
            (db.permissions[i] in FindById(db', id).value.permissions <== db.permissions[i].id in data.permissionIds))
      && (forall p :: p in FindById(db', id).value.permissions ==> p.id in data.permissionIds)
  {
    var (db', role) := Update(db, id, data, updatedById).value;
    var k := LiveRoleIndex(db, id).value;
    assert db'.roles[k] == role;
    var k' := LiveRoleIndex(db', id);
    assert k'.Some?;
    assert k'.value == k;
    forall i | 0 <= i < |db.permissions| && db.permissions[i].id in data.permissionIds
      ensures db.permissions[i] in FindById(db', id).value.permissions
    {
      assert db.permissions[i].deletedAt.None?;
    }
  }

  /** A deleted role is no longer found nor counted, and ids stay distinct. */
  lemma {:induction false} DeleteHides(db: Db, id: nat, deletedById: nat, isHard: bool, now: int)
    requires RolesNumbered(db)
    requires Delete(db, id, deletedById, isHard, now).Ok?
    ensures var db' := Delete(db, id, deletedById, isHard, now).value.0;
      && RolesNumbered(db')
      && FindById(db', id).None?
      && Count(db') == Count(db) - 1
  {
    var k := LiveRoleIndex(db, id).value;
    if isHard {
      HardDeleteHides(db, k);
    } else {
      SoftDeleteHides(db, k, Delete(db, id, deletedById, isHard, now).value.1);
    }
  }

  /** Removing the live row at position k keeps ids distinct and leaves no live row with its id. */
  lemma {:induction false} HardDeleteHides(db: Db, k: nat)
    requires RolesNumbered(db)
    requires k < |db.roles| && Live(db.roles[k])
    ensures var db' := db.(roles := db.roles[..k] + db.roles[k + 1..]);
      && RolesNumbered(db')
      && LiveRoleIndex(db', db.roles[k].id).None?
      && Count(db') == Count(db) - 1
  {
    var rest := db.roles[..k] + db.roles[k + 1..];
    var db' := db.(roles := rest);
    assert |rest| == |db.roles| - 1;
    assert forall i :: 0 <= i < k ==> rest[i] == db.roles[i];
    assert forall i :: k <= i < |rest| ==> rest[i] == db.roles[i + 1];
    FilterRemoveDrops(db.roles, Live, k);
  }

  /** Overwriting the live row at position k by a deleted copy keeps the ids and hides that row. */
  lemma {:induction false} SoftDeleteHides(db: Db, k: nat, role: Role)
    requires RolesNumbered(db)
    requires k < |db.roles| && Live(db.roles[k])
    requires role.id == db.roles[k].id && !Live(role)
    ensures var db' := db.(roles := db.roles[k := role]);
      && RolesNumbered(db')
      && LiveRoleIndex(db', role.id).None?
      && Count(db') == Count(db) - 1
  {
    FilterUpdateDrops(db.roles, Live, k, role);
  }
}
