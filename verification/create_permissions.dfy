/**
 * The create-permissions script: reconciles the permission table with the
 * routes the application registers, keyed on "METHOD-path", then gives the Admin
 * role every non-deleted permission.
 */
module CreatePermissions {
  import opened Wrappers
  import opened Seqs
  import opened Strings
  import opened Store

  /** A layer of the Express router stack; middleware layers carry no route. */
  datatype Layer = Layer(route: Option<RouteLayer>)

  /** A route layer: its path and the method of its first handler, as Express stores it. */
  datatype RouteLayer = RouteLayer(path: string, handlerMethod: string)

  /** An entry of availableRoutes. */
  datatype AvailableRoute = AvailableRoute(path: string, httpMethod: string, name: string, moduleName: Option<string>)

  /** findFirstOrThrow found no non-deleted Admin role. */
  datatype SyncError = AdminRoleMissing

  /** The script runs its writes one by one, so a late failure keeps the earlier writes. */
  datatype SyncOutcome = SyncOutcome(db: Db, result: Result<(), SyncError>)

  /** The second '/'-separated segment of a route path, which is undefined for a path with no '/'. */
  function ModuleOf(routePath: string): (r: Option<string>)
    ensures r.Some? ==> '/' !in r.value
    ensures r.None? <==> '/' !in routePath
  {
    var parts := Split(routePath, '/');
    if |parts| >= 2 then Some(parts[1]) else None
  }

  /** "/<module>" belongs to <module>. */
  lemma ModuleOfTopLevel(segment: string)
    requires '/' !in segment
    ensures ModuleOf("/" + segment) == Some(segment)
  {
    assert "/" + segment == "" + ['/'] + segment;
    SplitCons("", '/', segment);
    SplitNone(segment, '/');
  }

  /** "/<module>/<rest>" belongs to <module>, whatever follows. */
  lemma ModuleOfNested(segment: string, rest: string)
    requires '/' !in segment
    ensures ModuleOf("/" + segment + "/" + rest) == Some(segment)
  {
    var tail := segment + ['/'] + rest;
    assert "/" + segment + "/" + rest == "" + ['/'] + tail;
    SplitCons("", '/', tail);
    SplitCons(segment, '/', rest);
    assert Split("/" + segment + "/" + rest, '/')[1] == segment;
  }

  /** A route layer as an available route: prefixed path, upper-cased method, "METHOD path" name. */
  function ToRoute(prefix: string, r: RouteLayer): (a: AvailableRoute)
    ensures a.path == "/" + prefix + r.path
    ensures a.httpMethod == ToUpper(r.handlerMethod)
    ensures a.name == a.httpMethod + " " + a.path
    ensures a.moduleName == ModuleOf(r.path)
  {
    var path := "/" + prefix + r.path;
    var verb := ToUpper(r.handlerMethod);
    AvailableRoute(path, verb, verb + " " + path, ModuleOf(r.path))
  }

  /** availableRoutes: every route layer mapped, in stack order; other layers dropped. */
  function AvailableRoutes(prefix: string, layers: seq<Layer>): (r: seq<AvailableRoute>)
    ensures |r| <= |layers|
    ensures forall i :: 0 <= i < |r| ==>
      exists j :: 0 <= j < |layers| && layers[j].route.Some? && r[i] == ToRoute(prefix, layers[j].route.value)
    ensures forall j :: 0 <= j < |layers| && layers[j].route.Some? ==> ToRoute(prefix, layers[j].route.value) in r
    decreases |layers|
  {
    if |layers| == 0 then []
    else
      var rest := AvailableRoutes(prefix, layers[1..]);
      assert forall j :: 1 <= j < |layers| ==> layers[j] == layers[1..][j - 1];
      if layers[0].route.Some? then [ToRoute(prefix, layers[0].route.value)] + rest else rest
  }

  /** The reconciliation key `${method}-${path}`. */
  function Key(verb: string, path: string): string
  {
    verb + "-" + path
  }

  /** Method names contain no '-', so a key determines its method and path. */
  lemma KeyIsInjective(m1: string, p1: string, m2: string, p2: string)
    requires '-' !in m1 && '-' !in m2
    ensures Key(m1, p1) == Key(m2, p2) <==> m1 == m2 && p1 == p2
  {
    if Key(m1, p1) == Key(m2, p2) {
      assert Key(m1, p1) == m1 + ['-'] + p1;
      assert Key(m2, p2) == m2 + ['-'] + p2;
      SplitCons(m1, '-', p1);
      SplitCons(m2, '-', p2);
      assert Split(Key(m1, p1), '-')[0] == m1;
      assert Split(Key(m2, p2), '-')[0] == m2;
      assert m1 == m2;
      assert p1 == Key(m1, p1)[|m1| + 1..];
      assert p2 == Key(m2, p2)[|m2| + 1..];
    }
  }

  function PermKey(p: Permission): string
  {
    Key(p.httpMethod, p.path)
  }

  function RouteKey(a: AvailableRoute): string
  {
    Key(a.httpMethod, a.path)
  }

  /** The keys of availableRoutesMap. */
  function RouteKeys(routes: seq<AvailableRoute>): set<string>
  {
    set i | 0 <= i < |routes| :: RouteKey(routes[i])
  }

  /** The keys of permissionInDbMap. */
  function PermKeys(perms: seq<Permission>): set<string>
  {
    set i | 0 <= i < |perms| :: PermKey(perms[i])
  }

  predicate LivePermission(p: Permission)
  {
    p.deletedAt.None?
  }

  /** Permission ids are distinct and below the next id the table hands out. */
  ghost predicate PermissionsNumbered(db: Db)
  {
    && (forall i :: 0 <= i < |db.permissions| ==> db.permissions[i].id < db.nextPermissionId)
    && (forall i, j :: 0 <= i < j < |db.permissions| ==> db.permissions[i].id != db.permissions[j].id)
  }

  /** permissionsToDelete: the listed permissions whose key matches no route. */
  function ToDelete(live: seq<Permission>, routes: seq<AvailableRoute>): (r: seq<Permission>)
    ensures forall i :: 0 <= i < |r| ==> r[i] in live && PermKey(r[i]) !in RouteKeys(routes)
    ensures forall i :: 0 <= i < |live| && PermKey(live[i]) !in RouteKeys(routes) ==> live[i] in r
  {
    Filter(live, (p: Permission) => PermKey(p) !in RouteKeys(routes))
  }

  /** routesToAdd: the routes whose key matches no listed permission. */
  function ToAdd(live: seq<Permission>, routes: seq<AvailableRoute>): (r: seq<AvailableRoute>)
    ensures forall i :: 0 <= i < |r| ==> r[i] in routes && RouteKey(r[i]) !in PermKeys(live)
    ensures forall i :: 0 <= i < |routes| && RouteKey(routes[i]) !in PermKeys(live) ==> routes[i] in r
  {
    Filter(routes, (a: AvailableRoute) => RouteKey(a) !in PermKeys(live))
  }

  /** No key is both deleted and added. */
  lemma DeleteAndAddAreDisjoint(live: seq<Permission>, routes: seq<AvailableRoute>)
    ensures forall i, j :: 0 <= i < |ToDelete(live, routes)| && 0 <= j < |ToAdd(live, routes)| ==>
      PermKey(ToDelete(live, routes)[i]) != RouteKey(ToAdd(live, routes)[j])
  {
    var del := ToDelete(live, routes);
    var add := ToAdd(live, routes);
    forall i, j | 0 <= i < |del| && 0 <= j < |add| ensures PermKey(del[i]) != RouteKey(add[j]) {
      var k :| 0 <= k < |routes| && routes[k] == add[j];
      assert RouteKey(routes[k]) in RouteKeys(routes);
    }
  }

  /** The rows createMany inserts for routesToAdd, numbered from `firstId`. */
  function NewRows(firstId: nat, routes: seq<AvailableRoute>): (r: seq<Permission>)
    ensures |r| == |routes|
    ensures forall i :: 0 <= i < |r| ==>
      && r[i].id == firstId + i && r[i].path == routes[i].path && r[i].httpMethod == routes[i].httpMethod
      && r[i].name == routes[i].name && r[i].moduleName == routes[i].moduleName && LivePermission(r[i])
  {
    seq(|routes|, i requires 0 <= i < |routes| =>
      Permission(firstId + i, routes[i].name, "", routes[i].path, routes[i].httpMethod, routes[i].moduleName, None))
  }

  function IdsOf(perms: seq<Permission>): set<nat>
  {
    set i | 0 <= i < |perms| :: perms[i].id
  }

  /** The first non-deleted role named Admin. */
  function AdminIndex(db: Db): (r: Option<nat>)
    ensures r.Some? ==> r.value < |db.roles| && db.roles[r.value].name == AdminRoleName && db.roles[r.value].deletedAt.None?
    ensures r.None? <==> forall i :: 0 <= i < |db.roles| ==> !(db.roles[i].name == AdminRoleName && db.roles[i].deletedAt.None?)
  {
    IndexWhere(db.roles, (role: Role) => role.name == AdminRoleName && role.deletedAt.None?)
  }

  /** The permissions the script lists: `deletedAt: null`. */
  function LivePermissions(db: Db): seq<Permission>
  {
    Filter(db.permissions, LivePermission)
  }

  /** The rows deleteMany removes: every row whose id is among permissionsToDelete. */
  function Kept(db: Db, routes: seq<AvailableRoute>): (r: seq<Permission>)
    ensures forall i :: 0 <= i < |r| ==> r[i] in db.permissions && r[i].id !in IdsOf(ToDelete(LivePermissions(db), routes))
    ensures forall i :: 0 <= i < |db.permissions| && db.permissions[i].id !in IdsOf(ToDelete(LivePermissions(db), routes))
              ==> db.permissions[i] in r
  {
    var doomed := IdsOf(ToDelete(LivePermissions(db), routes));
    Filter(db.permissions, (p: Permission) => p.id !in doomed)
  }

  /** The rows createMany inserts. */
  function Added(db: Db, routes: seq<AvailableRoute>): seq<Permission>
  {
    NewRows(db.nextPermissionId, ToAdd(LivePermissions(db), routes))
  }

  /** The store after the hard delete and the inserts, the steps before the Admin update. */
  function Reconcile(db: Db, routes: seq<AvailableRoute>): (r: Db)
    ensures r.roles == db.roles
    ensures r.permissions == Kept(db, routes) + Added(db, routes)
  {
    var added := Added(db, routes);
    db.(permissions := Kept(db, routes) + added, nextPermissionId := db.nextPermissionId + |added|)
  }

  /** bootstrap: reconcile, then reset the Admin role's permissions to every non-deleted one. */
  function Sync(db: Db, prefix: string, layers: seq<Layer>): (r: SyncOutcome)
    ensures var mid := Reconcile(db, AvailableRoutes(prefix, layers));
      && (r.result.Err? <==> AdminIndex(mid).None?)
      && (r.result.Err? ==> r.db == mid)
      && (r.result.Ok? ==>
            var k := AdminIndex(mid).value;
            && r.db == mid.(roles := mid.roles[k := mid.roles[k].(permissionIds := IdsOf(Filter(mid.permissions, LivePermission)))]))
  {
    var mid := Reconcile(db, AvailableRoutes(prefix, layers));
    match AdminIndex(mid)
    case None => SyncOutcome(mid, Err(AdminRoleMissing))
    case Some(k) =>
      var all := IdsOf(Filter(mid.permissions, LivePermission));
      SyncOutcome(mid.(roles := mid.roles[k := mid.roles[k].(permissionIds := all)]), Ok(()))
  }

  /** The non-deleted rows after reconciliation: the surviving listed ones, then the new ones. */
  lemma AfterReconcile(db: Db, routes: seq<AvailableRoute>)
    ensures Filter(Reconcile(db, routes).permissions, LivePermission)
         == Filter(Kept(db, routes), LivePermission) + Added(db, routes)
  {
    FilterAppend(Kept(db, routes), Added(db, routes), LivePermission);
    FilterAll(Added(db, routes), LivePermission);
  }

  /** Every non-deleted permission left by reconciliation has a route. */
  lemma {:induction false} EveryPermissionHasRoute(db: Db, routes: seq<AvailableRoute>, p: Permission)
    requires p in Filter(Reconcile(db, routes).permissions, LivePermission)
    ensures PermKey(p) in RouteKeys(routes)
  {
    AfterReconcile(db, routes);
    var added := Added(db, routes);
    var add := ToAdd(LivePermissions(db), routes);
    if p in added {
      var j :| 0 <= j < |added| && added[j] == p;
      var m :| 0 <= m < |routes| && routes[m] == add[j];
      assert RouteKey(routes[m]) == PermKey(p);
    } else {
      var kept := Filter(Kept(db, routes), LivePermission);
      assert p in kept;
      var del := ToDelete(LivePermissions(db), routes);
      assert p in Kept(db, routes) && LivePermission(p);
      assert p.id !in IdsOf(del);
      var m :| 0 <= m < |db.permissions| && db.permissions[m] == p;
      assert p in LivePermissions(db);
      var n :| 0 <= n < |LivePermissions(db)| && LivePermissions(db)[n] == p;
    }
  }

  /** A listed permission whose key has a route survives the delete. */
  lemma {:induction false} MatchedPermissionSurvives(db: Db, routes: seq<AvailableRoute>, j: nat)
    requires PermissionsNumbered(db)
    requires j < |LivePermissions(db)| && PermKey(LivePermissions(db)[j]) in RouteKeys(routes)
    ensures LivePermissions(db)[j] in Filter(Kept(db, routes), LivePermission)
  {
    var live := LivePermissions(db);
    var p := live[j];
    var del := ToDelete(live, routes);
    assert p in db.permissions;
    var m :| 0 <= m < |db.permissions| && db.permissions[m] == p;
    forall n | 0 <= n < |del| ensures del[n].id != p.id {
      assert del[n] in live && PermKey(del[n]) != PermKey(p);
      var m' :| 0 <= m' < |db.permissions| && db.permissions[m'] == del[n];
      assert m' != m;
    }
    assert p.id !in IdsOf(del);
    assert p in Kept(db, routes);
  }

  /** A route whose key no listed permission has gets a new row. */
  lemma {:induction false} UnmatchedRouteIsAdded(db: Db, routes: seq<AvailableRoute>, i: nat)
    requires i < |routes| && RouteKey(routes[i]) !in PermKeys(LivePermissions(db))
    ensures RouteKey(routes[i]) in PermKeys(Filter(Reconcile(db, routes).permissions, LivePermission))
  {
    AfterReconcile(db, routes);
    var after := Filter(Reconcile(db, routes).permissions, LivePermission);
    var keptLive := Filter(Kept(db, routes), LivePermission);
    var add := ToAdd(LivePermissions(db), routes);
    assert routes[i] in add;
    var j :| 0 <= j < |add| && add[j] == routes[i];
    var added := Added(db, routes);
    var k := |keptLive| + j;
    assert PermKey(added[j]) == RouteKey(routes[i]);
    assert k < |after| && after[k] == added[j];
  }

  lemma KeyOfMember(perms: seq<Permission>, p: Permission)
    requires p in perms
    ensures PermKey(p) in PermKeys(perms)
  {
    var q :| 0 <= q < |perms| && perms[q] == p;
  }

  /** Every route has a non-deleted permission after reconciliation. */
  lemma {:induction false} EveryRouteHasPermission(db: Db, routes: seq<AvailableRoute>, i: nat)
    requires PermissionsNumbered(db)
    requires i < |routes|
    ensures RouteKey(routes[i]) in PermKeys(Filter(Reconcile(db, routes).permissions, LivePermission))
  {
    var k := RouteKey(routes[i]);
    var live := LivePermissions(db);
    if k in PermKeys(live) {
      assert k in RouteKeys(routes);
      var j :| 0 <= j < |live| && PermKey(live[j]) == k;
      MatchedPermissionSurvives(db, routes, j);
      AfterReconcile(db, routes);
      KeyOfMember(Filter(Reconcile(db, routes).permissions, LivePermission), live[j]);
    } else {
      UnmatchedRouteIsAdded(db, routes, i);
    }
  }

  /**
   * After reconciliation the non-deleted permissions and the routes have the same
   * keys: every non-deleted permission has a route, and every route has a
   * non-deleted permission.
   */
  lemma {:induction false} ReconcileMatchesRoutes(db: Db, routes: seq<AvailableRoute>)
    requires PermissionsNumbered(db)
    ensures PermKeys(Filter(Reconcile(db, routes).permissions, LivePermission)) == RouteKeys(routes)
  {
    var after := Filter(Reconcile(db, routes).permissions, LivePermission);
    forall k | k in PermKeys(after) ensures k in RouteKeys(routes) {
      var i :| 0 <= i < |after| && PermKey(after[i]) == k;
      EveryPermissionHasRoute(db, routes, after[i]);
    }
    forall k | k in RouteKeys(routes) ensures k in PermKeys(after) {
      var i :| 0 <= i < |routes| && RouteKey(routes[i]) == k;
      EveryRouteHasPermission(db, routes, i);
    }
  }

  /** When the script completes, the Admin role holds exactly the ids of the non-deleted permissions. */
  lemma AdminHoldsEveryPermission(db: Db, prefix: string, layers: seq<Layer>)
    requires Sync(db, prefix, layers).result.Ok?
    ensures var r := Sync(db, prefix, layers).db;
      exists k :: 0 <= k < |r.roles| && r.roles[k].name == AdminRoleName && r.roles[k].deletedAt.None?
        && r.roles[k].permissionIds == IdsOf(Filter(r.permissions, LivePermission))
  {
    var mid := Reconcile(db, AvailableRoutes(prefix, layers));
    var k := AdminIndex(mid).value;
    assert Sync(db, prefix, layers).db.roles[k].name == AdminRoleName;
  }
}
