/**
 * RolesService.getClientRoleId: a per-process memo cell for the id of the
 * built-in Client role, tested for JavaScript truthiness.
 */
module RolesService {
  import opened Wrappers
  import opened Seqs
  import opened Store
  import opened AuthRepo

  /** The memo cell; None is the initial `null`. */
  datatype RoleCache = RoleCache(clientRoleId: Option<nat>)

  const EmptyCache := RoleCache(None)

  /** `if (this.clientRoleId)`: null and 0 are both falsy. */
  predicate Hit(c: RoleCache)
  {
    c.clientRoleId.Some? && c.clientRoleId.value != 0
  }

  /** The first live role named Client (findFirstOrThrow with deletedAt null). */
  function LiveClientRole(db: Db): (r: Option<Role>)
    ensures r.Some? ==> r.value in db.roles && r.value.name == ClientRoleName && r.value.deletedAt.None?
    ensures r.None? <==> forall i :: 0 <= i < |db.roles| ==> !(db.roles[i].name == ClientRoleName && db.roles[i].deletedAt.None?)
  {
    FindFirst(db.roles, (x: Role) => x.name == ClientRoleName && x.deletedAt.None?)
  }

  /**
   * One call: a truthy cached id is returned without reading the store; otherwise
   * the store is queried, and a found id is cached while a failure leaves the cell as it was.
   */
  function GetClientRoleId(cache: RoleCache, db: Db): (r: (RoleCache, Result<nat, RepoError>))
    ensures Hit(cache) ==> r == (cache, Ok(cache.clientRoleId.value))
    ensures !Hit(cache) && LiveClientRole(db).None? ==> r == (cache, Err(RecordNotFound))
    ensures !Hit(cache) && LiveClientRole(db).Some? ==> r.1 == Ok(LiveClientRole(db).value.id)
    ensures r.1.Ok? ==> r.0 == RoleCache(Some(r.1.value))
  {
    if Hit(cache) then (cache, Ok(cache.clientRoleId.value))
    else match LiveClientRole(db)
      case None => (cache, Err(RecordNotFound))
      case Some(role) => (RoleCache(Some(role.id)), Ok(role.id))
  }

  /** A run of calls against successive store states; returns every result and the final cell. */
  function Calls(cache: RoleCache, dbs: seq<Db>): (r: (seq<Result<nat, RepoError>>, RoleCache))
    ensures |r.0| == |dbs|
    decreases |dbs|
  {
    if |dbs| == 0 then ([], cache)
    else
      var (c1, first) := GetClientRoleId(cache, dbs[0]);
      var (rest, last) := Calls(c1, dbs[1..]);
      ([first] + rest, last)
  }

  /** With a truthy id cached, every later call returns it and the cell never changes. */
  lemma {:induction false} CachedIdIsFinal(cache: RoleCache, dbs: seq<Db>)
    requires Hit(cache)
    ensures Calls(cache, dbs).1 == cache
    ensures forall i :: 0 <= i < |dbs| ==> Calls(cache, dbs).0[i] == Ok(cache.clientRoleId.value)
    decreases |dbs|
  {
    if |dbs| > 0 {
      CachedIdIsFinal(cache, dbs[1..]);
    }
  }

  /**
   * Memoisation: once some call returns a non-zero id, every later call returns
   * that same id, whatever the store looks like by then.
   */
  lemma {:induction false} FirstNonZeroIdSticks(cache: RoleCache, dbs: seq<Db>, i: nat, j: nat)
    requires i < j < |dbs|
    requires Calls(cache, dbs).0[i].Ok? && Calls(cache, dbs).0[i].value != 0
    ensures Calls(cache, dbs).0[j] == Calls(cache, dbs).0[i]
    decreases |dbs|
  {
    var (c1, first) := GetClientRoleId(cache, dbs[0]);
    assert Calls(cache, dbs).0 == [first] + Calls(c1, dbs[1..]).0;
    if i == 0 {
      assert Hit(c1);
      CachedIdIsFinal(c1, dbs[1..]);
    } else {
      FirstNonZeroIdSticks(c1, dbs[1..], i - 1, j - 1);
    }
  }

  /** An id of 0 is falsy, so a cell holding it behaves exactly like an empty one. */
  lemma ZeroIsNeverServedFromCache(db: Db)
    ensures GetClientRoleId(RoleCache(Some(0)), db).1 == GetClientRoleId(EmptyCache, db).1
  {
  }
}
