/**
 * AccessTokenGuard: takes the bearer token from the Authorization header,
 * verifies it, attaches its payload to the request, and admits the request only
 * when the payload's role is active, not deleted, and holds a non-deleted
 * permission for exactly this route path and HTTP method.
 */
module AccessTokenGuard {
  import opened Wrappers
  import opened Seqs
  import opened Strings
  import opened Store
  import opened Externals
  import opened GuardTypes

  /** The parts of an Express request the guard reads (header, route, method) and writes (user). */
  datatype Request = Request(
    authorization: Option<string>, routePath: Option<string>, httpMethod: string,
    user: Option<AccessClaims>)

  /** A guard run: the request as it leaves the guard, and the guard's outcome. */
  datatype BearerResult = BearerResult(request: Request, outcome: GuardOutcome)

  const InvalidAccessToken: string := "Error:InvalidAccessToken"
  const PermissionDenied: string := "Error:PermissionDenied"

  /** extractAccessTokenFromHeader: the second piece of the header split on ' ', if non-empty. */
  function ExtractAccessToken(authorization: Option<string>): (r: Option<string>)
    ensures r.Some? ==> authorization.Some? && r.value != "" && ' ' !in r.value
    ensures r.Some? ==> |Split(authorization.value, ' ')| >= 2 && r.value == Split(authorization.value, ' ')[1]
  {
    match authorization
    case None => None
    case Some(h) =>
      var parts := Split(h, ' ');
      if |parts| < 2 || parts[1] == "" then None else Some(parts[1])
  }

  /**
   * Whatever the first word is, the token is the text between the first and the
   * second space; a header with nothing there yields no token.
   */
  lemma ExtractAfterFirstSpace(scheme: string, rest: string)
    requires ' ' !in scheme
    ensures ExtractAccessToken(Some(scheme + " " + rest))
         == (var t := Split(rest, ' ')[0]; if t == "" then None else Some(t))
  {
    SplitCons(scheme, ' ', rest);
    assert scheme + " " + rest == scheme + [' '] + rest;
  }

  /** "<scheme> <token>" yields the token, for any scheme word: the scheme is not checked. */
  lemma SchemeIsNotChecked(scheme: string, token: string)
    requires ' ' !in scheme && ' ' !in token && token != ""
    ensures ExtractAccessToken(Some(scheme + " " + token)) == Some(token)
  {
    ExtractAfterFirstSpace(scheme, token);
    SplitNone(token, ' ');
  }

  /** A header without a space, or no header at all, yields no token. */
  lemma {:induction false} NoSpaceNoToken(authorization: Option<string>)
    requires authorization.Some? ==> ' ' !in authorization.value
    ensures ExtractAccessToken(authorization).None?
  {
    if authorization.Some? {
      SplitNone(authorization.value, ' ');
    }
  }

  /** The row filter of findUniqueOrThrow: this id, active, not deleted. */
  predicate AdmitsRole(role: Role, roleId: nat)
  {
    role.id == roleId && role.isActive && role.deletedAt.None?
  }

  function FindActiveRole(db: Db, roleId: nat): (r: Option<Role>)
    ensures r.Some? ==> r.value in db.roles && AdmitsRole(r.value, roleId)
    ensures r.None? <==> forall i :: 0 <= i < |db.roles| ==> !AdmitsRole(db.roles[i], roleId)
  {
    FindFirst(db.roles, (role: Role) => AdmitsRole(role, roleId))
  }

  /**
   * The role's permissions as the include loads them: not deleted, of this method,
   * and of this path; an undefined route path drops the path filter.
   */
  function LoadedPermissions(db: Db, role: Role, path: Option<string>, verb: string): seq<Permission>
  {
    Filter(db.permissions, (p: Permission) =>
      p.id in role.permissionIds && p.deletedAt.None? && p.httpMethod == verb
      && (path.None? || p.path == path.value))
  }

  /** A permission that grants `verb path` to `role`. */
  predicate Grants(role: Role, p: Permission, path: string, verb: string)
  {
    p.id in role.permissionIds && p.deletedAt.None? && p.path == path && p.httpMethod == verb
  }

  /** validateUserPermissions: Forbidden unless the role exists, is live, and holds a matching permission. */
  function ValidateUserPermissions(db: Db, claims: AccessClaims, req: Request): (r: Result<(), GuardError>)
    ensures r.Err? ==> r.error == Forbidden(PermissionDenied)
    ensures FindActiveRole(db, claims.roleId).None? ==> r.Err?
    ensures req.routePath.None? ==> r.Err?
  {
    match FindActiveRole(db, claims.roleId)
    case None => Err(Forbidden(PermissionDenied))
    case Some(role) =>
      var loaded := LoadedPermissions(db, role, req.routePath, req.httpMethod);
      var hit := IndexWhere(loaded, (p: Permission) => Some(p.path) == req.routePath && p.httpMethod == req.httpMethod);
      if hit.Some? then Ok(()) else Err(Forbidden(PermissionDenied))
  }

  /**
   * Access is granted exactly when the live role holds a non-deleted permission
   * whose path and method both equal the request's.
   */
  lemma PermissionGate(db: Db, claims: AccessClaims, req: Request)
    ensures ValidateUserPermissions(db, claims, req).Ok?
        <==> FindActiveRole(db, claims.roleId).Some? && req.routePath.Some?
             && exists i :: 0 <= i < |db.permissions|
                  && Grants(FindActiveRole(db, claims.roleId).value, db.permissions[i], req.routePath.value, req.httpMethod)
  {
    var found := FindActiveRole(db, claims.roleId);
    if found.Some? && req.routePath.Some? {
      var role := found.value;
      var path := req.routePath.value;
      var loaded := LoadedPermissions(db, role, req.routePath, req.httpMethod);
      var q := (p: Permission) => Some(p.path) == req.routePath && p.httpMethod == req.httpMethod;
      var hit := IndexWhere(loaded, q);
      if hit.Some? {
        var p := loaded[hit.value];
        assert p in db.permissions;
        var i :| 0 <= i < |db.permissions| && db.permissions[i] == p;
        assert Grants(role, db.permissions[i], path, req.httpMethod);
      }
      if exists i :: 0 <= i < |db.permissions| && Grants(role, db.permissions[i], path, req.httpMethod) {
        var i :| 0 <= i < |db.permissions| && Grants(role, db.permissions[i], path, req.httpMethod);
        assert db.permissions[i] in loaded;
        var j :| 0 <= j < |loaded| && loaded[j] == db.permissions[i];
        assert q(loaded[j]);
        assert hit.Some?;
      }
    }
  }

  /**
   * canActivate: extraction failure throws a plain Unauthorized; verification
   * failure throws Unauthorized('Error:InvalidAccessToken'); otherwise the payload
   * is attached to the request and the permission check decides.
   */
  function CanActivate(db: Db, svc: Services, req: Request): (r: BearerResult)
    ensures r.outcome.Pass? || r.outcome.Throw?
    ensures ExtractAccessToken(req.authorization).None? ==> r == BearerResult(req, Throw(Unauthorized(None)))
    ensures var t := ExtractAccessToken(req.authorization);
      t.Some? && svc.verifyAccess(t.value).None? ==>
        r == BearerResult(req, Throw(Unauthorized(Some(InvalidAccessToken))))
    ensures var t := ExtractAccessToken(req.authorization);
      t.Some? && svc.verifyAccess(t.value).Some? ==>
        && r.request == req.(user := Some(svc.verifyAccess(t.value).value))
        && (r.outcome == Pass <==> ValidateUserPermissions(db, svc.verifyAccess(t.value).value, r.request).Ok?)
        && (r.outcome != Pass ==> r.outcome == Throw(Forbidden(PermissionDenied)))
  {
    match ExtractAccessToken(req.authorization)
    case None => BearerResult(req, Throw(Unauthorized(None)))
    case Some(token) =>
      match svc.verifyAccess(token)
      case None => BearerResult(req, Throw(Unauthorized(Some(InvalidAccessToken))))
      case Some(claims) =>
        var withUser := req.(user := Some(claims));
        match ValidateUserPermissions(db, claims, withUser)
        case Err(e) => BearerResult(withUser, Throw(e))
        case Ok(_) => BearerResult(withUser, Pass)
  }

  /** A token that cannot be extracted or verified is refused whatever the store holds. */
  lemma TokenFailureIgnoresStore(db1: Db, db2: Db, svc: Services, req: Request)
    requires var t := ExtractAccessToken(req.authorization);
      t.None? || svc.verifyAccess(t.value).None?
    ensures CanActivate(db1, svc, req) == CanActivate(db2, svc, req)
    ensures CanActivate(db1, svc, req).outcome.Throw?
    ensures CanActivate(db1, svc, req).outcome.error.Unauthorized?
  {
  }

  /**
   * The whole guard: a request passes iff its header carries a token that
   * verifies to claims whose live role holds a permission for exactly this
   * path and method.
   */
  lemma {:induction false} BearerPassesIff(db: Db, svc: Services, req: Request)
    ensures CanActivate(db, svc, req).outcome == Pass
        <==> var t := ExtractAccessToken(req.authorization);
             && t.Some? && svc.verifyAccess(t.value).Some?
             && var c := svc.verifyAccess(t.value).value;
             && FindActiveRole(db, c.roleId).Some? && req.routePath.Some?
             && exists i :: 0 <= i < |db.permissions|
                  && Grants(FindActiveRole(db, c.roleId).value, db.permissions[i], req.routePath.value, req.httpMethod)
  {
    var t := ExtractAccessToken(req.authorization);
    if t.Some? && svc.verifyAccess(t.value).Some? {
      var c := svc.verifyAccess(t.value).value;
      PermissionGate(db, c, req.(user := Some(c)));
    }
  }
}
