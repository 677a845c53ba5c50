/**
 * AuthenticationGuard.canActivate: reads a route's auth metadata (default: the
 * None guard under And), maps every declared type to its guard, and combines
 * their outcomes with And or Or.
 */
module AuthenticationGuard {
  import opened Wrappers
  import opened GuardTypes
  import opened AuthDecorator
  import opened Store
  import opened Externals
  import TokenGuard = AccessTokenGuard

  /** The guard instances of authTypeGuardMap. */
  datatype Guard = AccessTokenGuard | ApiKeyGuard | AllowAllGuard

  /** The outcomes the two request-dependent guards produce for the request at hand. */
  datatype GuardRun = GuardRun(bearer: GuardOutcome, apiKey: GuardOutcome)

  /** The verdict, and how many guards were run to reach it. */
  datatype Verdict = Allow | Reject(error: GuardError)
  datatype Decision = Decision(verdict: Verdict, evaluated: nat)

  /** The metadata used when a route declares none. */
  const DefaultMetadata := AuthMetadata([NoAuth], And)

  /** `new UnauthorizedException()`, thrown when guards refuse without an error of their own. */
  const GenericUnauthorized := Unauthorized(None)

  function GuardFor(t: AuthType): Option<Guard>
  {
    match t
    case Bearer => Some(AccessTokenGuard)
    case ApiKey => Some(ApiKeyGuard)
    case NoAuth => Some(AllowAllGuard)
    case Unsupported(_) => None
  }

  function RunGuard(g: Guard, run: GuardRun): GuardOutcome
  {
    match g
    case AccessTokenGuard => run.bearer
    case ApiKeyGuard => run.apiKey
    case AllowAllGuard => Pass
  }

  function UnsupportedError(t: AuthType): GuardError
  {
    Unauthorized(Some("Unsupported auth type: " + match t case Unsupported(n) => n case _ => ""))
  }

  /**
   * The pre-check: every declared type must have a guard; the first one that
   * has none raises Unauthorized naming it, before any guard runs.
   */
  function ResolveGuards(types: seq<AuthType>): (r: Result<seq<Guard>, GuardError>)
    ensures r.Ok? <==> forall i :: 0 <= i < |types| ==> GuardFor(types[i]).Some?
    ensures r.Ok? ==> |r.value| == |types| && forall i :: 0 <= i < |types| ==> GuardFor(types[i]) == Some(r.value[i])
    ensures r.Err? ==> exists i :: 0 <= i < |types| && GuardFor(types[i]).None? && r.error == UnsupportedError(types[i])
  {
    if |types| == 0 then Ok([])
    else match GuardFor(types[0])
      case None => Err(UnsupportedError(types[0]))
      case Some(g) =>
        match ResolveGuards(types[1..])
        case Err(e) => Err(e)
        case Ok(rest) => Ok([g] + rest)
  }

  /** The error an And chain throws for an outcome that is not a pass. */
  function AndError(o: GuardOutcome): GuardError
  {
    match o
    case Throw(e) => e
    case Raise(e) => e
    case _ => GenericUnauthorized
  }

  /**
   * And: run the guards in order; the first that resolves false throws the generic
   * Unauthorized, the first that throws propagates its own error, and no later
   * guard runs.
   */
  function EvalAnd(outs: seq<GuardOutcome>): (r: Decision)
    ensures r.verdict == Allow <==> forall i :: 0 <= i < |outs| ==> outs[i] == Pass
    ensures r.verdict == Allow ==> r.evaluated == |outs|
    ensures r.verdict.Reject? ==>
      && 1 <= r.evaluated <= |outs|
      && (forall i :: 0 <= i < r.evaluated - 1 ==> outs[i] == Pass)
      && outs[r.evaluated - 1] != Pass
      && r.verdict.error == AndError(outs[r.evaluated - 1])
  {
    if |outs| == 0 then Decision(Allow, 0)
    else if outs[0] != Pass then Decision(Reject(AndError(outs[0])), 1)
    else
      var rest := EvalAnd(outs[1..]);
      Decision(rest.verdict, rest.evaluated + 1)
  }

  /**
   * What `Promise.resolve(instance.canActivate(context)).catch(...)` turns into
   * false: a resolved false or a rejected promise. A synchronous throw happens
   * before `Promise.resolve` is reached, so nothing catches it.
   */
  predicate Caught(o: GuardOutcome)
  {
    o.Deny? || o.Throw?
  }

  /**
   * Or: run the guards in order until one resolves true; a rejecting guard's error
   * replaces the one kept so far, a guard resolving false leaves it, a synchronous
   * throw escapes the loop at once, and when every guard was caught the kept
   * error is thrown.
   */
  function EvalOr(outs: seq<GuardOutcome>, kept: GuardError): (r: Decision)
    ensures r.verdict == Allow <==>
      exists i :: 0 <= i < |outs| && outs[i] == Pass && forall k :: 0 <= k < i ==> Caught(outs[k])
    ensures r.verdict == Allow ==>
      1 <= r.evaluated <= |outs| && outs[r.evaluated - 1] == Pass
      && forall i :: 0 <= i < r.evaluated - 1 ==> Caught(outs[i])
    ensures r.verdict.Reject? ==>
      || (r.evaluated == |outs| && forall i :: 0 <= i < |outs| ==> Caught(outs[i]))
      || (&& 1 <= r.evaluated <= |outs| && outs[r.evaluated - 1].Raise?
          && r.verdict.error == outs[r.evaluated - 1].error
          && forall i :: 0 <= i < r.evaluated - 1 ==> Caught(outs[i]))
  {
    if |outs| == 0 then Decision(Reject(kept), 0)
    else if outs[0] == Pass then Decision(Allow, 1)
    else if outs[0].Raise? then Decision(Reject(outs[0].error), 1)
    else
      var rest := EvalOr(outs[1..], if outs[0].Throw? then outs[0].error else kept);
      assert forall k :: 1 <= k < |outs| ==> outs[k] == outs[1..][k - 1];
      Decision(rest.verdict, rest.evaluated + 1)
  }

  /** Reference definition of Or's error: the last error thrown, else the initial one. */
  function LastThrown(outs: seq<GuardOutcome>, initial: GuardError): GuardError
  {
    if |outs| == 0 then initial
    else if outs[|outs| - 1].Throw? then outs[|outs| - 1].error
    else LastThrown(outs[..|outs| - 1], initial)
  }

  lemma {:induction false} LastThrownCons(o: GuardOutcome, outs: seq<GuardOutcome>, initial: GuardError)
    ensures LastThrown([o] + outs, initial) == LastThrown(outs, if o.Throw? then o.error else initial)
    decreases |outs|
  {
    if |outs| > 0 {
      assert ([o] + outs)[..|[o] + outs| - 1] == [o] + outs[..|outs| - 1];
      LastThrownCons(o, outs[..|outs| - 1], initial);
    }
  }

  /** When every guard is caught, Or throws the last error caught, or the initial one if none threw. */
  lemma {:induction false} OrRejectsWithLastThrown(outs: seq<GuardOutcome>, kept: GuardError)
    requires forall i :: 0 <= i < |outs| ==> Caught(outs[i])
    ensures EvalOr(outs, kept) == Decision(Reject(LastThrown(outs, kept)), |outs|)
    decreases |outs|
  {
    if |outs| > 0 {
      var next := if outs[0].Throw? then outs[0].error else kept;
      OrRejectsWithLastThrown(outs[1..], next);
      assert outs == [outs[0]] + outs[1..];
      LastThrownCons(outs[0], outs[1..], kept);
    }
  }

  /** Under Or, the first outcome that is not caught decides, and is the last guard run. */
  lemma OrFirstUncaughtDecides(outs: seq<GuardOutcome>, kept: GuardError, k: nat)
    requires k < |outs| && !Caught(outs[k]) && forall i :: 0 <= i < k ==> Caught(outs[i])
    ensures outs[k] == Pass ==> EvalOr(outs, kept) == Decision(Allow, k + 1)
    ensures outs[k].Raise? ==> EvalOr(outs, kept) == Decision(Reject(outs[k].error), k + 1)
  {
  }

  /** Under And, the first outcome that is not a pass decides, and is the last guard run. */
  lemma AndFirstFailureDecides(outs: seq<GuardOutcome>, k: nat)
    requires k < |outs| && outs[k] != Pass && forall i :: 0 <= i < k ==> outs[i] == Pass
    ensures EvalAnd(outs) == Decision(Reject(AndError(outs[k])), k + 1)
  {
  }

  /** The outcome of every guard, in list order, for the request at hand. */
  function Outcomes(gs: seq<Guard>, run: GuardRun): (r: seq<GuardOutcome>)
    ensures |r| == |gs| && forall i :: 0 <= i < |gs| ==> r[i] == RunGuard(gs[i], run)
  {
    seq(|gs|, i requires 0 <= i < |gs| => RunGuard(gs[i], run))
  }

  /** canActivate for a route with metadata `meta` (None when the route declares none). */
  function CanActivate(meta: Option<AuthMetadata>, run: GuardRun): (r: Decision)
    ensures var m := if meta.Some? then meta.value else DefaultMetadata;
      && (ResolveGuards(m.authType).Err? ==> r == Decision(Reject(ResolveGuards(m.authType).error), 0))
      && (r.verdict == Allow ==> ResolveGuards(m.authType).Ok?)
  {
    var m := match meta case Some(x) => x case None => DefaultMetadata;
    match ResolveGuards(m.authType)
    case Err(e) => Decision(Reject(e), 0)
    case Ok(guards) =>
      var outs := Outcomes(guards, run);
      if m.condition == Or then EvalOr(outs, GenericUnauthorized) else EvalAnd(outs)
  }

  /** The Or / And decision rules, as one statement per case, for any outcomes. */
  predicate FoldDecides(c: Condition, outs: seq<GuardOutcome>, d: Decision)
  {
    && (c == Or ==>
          && (d.verdict == Allow <==>
                exists i :: 0 <= i < |outs| && outs[i] == Pass && forall k :: 0 <= k < i ==> Caught(outs[k]))
          && (forall k :: 0 <= k < |outs| && outs[k] == Pass && (forall i :: 0 <= i < k ==> Caught(outs[i])) ==>
                d == Decision(Allow, k + 1))
          && (forall k :: 0 <= k < |outs| && outs[k].Raise? && (forall i :: 0 <= i < k ==> Caught(outs[i])) ==>
                d == Decision(Reject(outs[k].error), k + 1))
          && ((forall i :: 0 <= i < |outs| ==> Caught(outs[i])) ==>
                d == Decision(Reject(LastThrown(outs, GenericUnauthorized)), |outs|)))
    && (c == And ==>
          && (d.verdict == Allow <==> forall i :: 0 <= i < |outs| ==> outs[i] == Pass)
          && (d.verdict == Allow ==> d.evaluated == |outs|)
          && (forall k :: 0 <= k < |outs| && outs[k] != Pass && (forall i :: 0 <= i < k ==> outs[i] == Pass) ==>
                d == Decision(Reject(AndError(outs[k])), k + 1)))
  }

  /** Or rejects with the last rejection's error (else the initial Unauthorized) when all are caught. */
  lemma OrFoldDecides(outs: seq<GuardOutcome>)
    ensures FoldDecides(Or, outs, EvalOr(outs, GenericUnauthorized))
  {
    forall k | 0 <= k < |outs| && !Caught(outs[k]) && (forall i :: 0 <= i < k ==> Caught(outs[i]))
      ensures outs[k] == Pass ==> EvalOr(outs, GenericUnauthorized) == Decision(Allow, k + 1)
      ensures outs[k].Raise? ==> EvalOr(outs, GenericUnauthorized) == Decision(Reject(outs[k].error), k + 1)
    {
      OrFirstUncaughtDecides(outs, GenericUnauthorized, k);
    }
    if forall i :: 0 <= i < |outs| ==> Caught(outs[i]) {
      OrRejectsWithLastThrown(outs, GenericUnauthorized);
    }
  }

  /** And allows when all pass, and otherwise the first non-pass decides. */
  lemma AndFoldDecides(outs: seq<GuardOutcome>)
    ensures FoldDecides(And, outs, EvalAnd(outs))
  {
    forall k | 0 <= k < |outs| && outs[k] != Pass && (forall i :: 0 <= i < k ==> outs[i] == Pass)
      ensures EvalAnd(outs) == Decision(Reject(AndError(outs[k])), k + 1)
    {
      AndFirstFailureDecides(outs, k);
    }
  }

  /**
   * For a list whose types all resolve, the decision over the guards' outcomes:
   * under Or, the first outcome that is not caught decides (a pass allows, a
   * synchronous throw rejects with its error), and when every guard is caught the
   * last rejection's error (else the initial Unauthorized) is thrown; under And,
   * the request is allowed exactly when every guard passes, and otherwise the
   * first guard that does not pass decides the error.
   */
  lemma ResolvedChainDecides(m: AuthMetadata, run: GuardRun)
    requires forall i :: 0 <= i < |m.authType| ==> GuardFor(m.authType[i]).Some?
    ensures var outs := Outcomes(ResolveGuards(m.authType).value, run);
      && |outs| == |m.authType|
      && (forall i :: 0 <= i < |outs| ==> outs[i] == RunGuard(GuardFor(m.authType[i]).value, run))
      && FoldDecides(m.condition, outs, CanActivate(Some(m), run))
  {
    var outs := Outcomes(ResolveGuards(m.authType).value, run);
    if m.condition == Or {
      OrFoldDecides(outs);
    } else {
      AndFoldDecides(outs);
    }
  }

  /** A route without auth metadata is public: one None guard runs and allows it. */
  lemma UndecoratedRouteIsPublic(run: GuardRun)
    ensures CanActivate(None, run) == Decision(Allow, 1)
  {
    assert [NoAuth][1..] == [];
    assert ResolveGuards([]) == Ok([]);
    assert [AllowAllGuard] + [] == [AllowAllGuard];
    assert ResolveGuards([NoAuth]) == Ok([AllowAllGuard]);
    assert Outcomes([AllowAllGuard], run) == [Pass];
    assert [Pass][1..] == [];
  }

  /** @IsPublic() behaves exactly like declaring nothing. */
  lemma IsPublicIsTheDefault(run: GuardRun)
    ensures CanActivate(Some(IsPublic()), run) == CanActivate(None, run)
  {
  }

  /** An unsupported type anywhere in the list rejects before any guard runs. */
  lemma UnsupportedTypeRejectsFirst(types: seq<AuthType>, c: Condition, run: GuardRun, k: nat)
    requires k < |types| && types[k].Unsupported?
    ensures CanActivate(Some(AuthMetadata(types, c)), run).evaluated == 0
    ensures CanActivate(Some(AuthMetadata(types, c)), run).verdict.Reject?
    ensures CanActivate(Some(AuthMetadata(types, c)), run).verdict.error.Unauthorized?
  {
    assert GuardFor(types[k]).None?;
  }

  /** An empty list is allowed under And and refused with the generic Unauthorized under Or. */
  lemma EmptyGuardList(run: GuardRun)
    ensures CanActivate(Some(AuthMetadata([], And)), run) == Decision(Allow, 0)
    ensures CanActivate(Some(AuthMetadata([], Or)), run) == Decision(Reject(GenericUnauthorized), 0)
  {
  }

  /**
   * Or over Bearer then ApiKey, every combination: a passing bearer short-circuits
   * and a synchronously throwing one ends the chain; otherwise the ApiKey guard
   * runs, a pass allows, its throw wins over the bearer's, a bearer rejection is
   * kept when the ApiKey guard only refuses, and two refusals give the generic
   * Unauthorized.
   */
  lemma BearerOrApiKey(run: GuardRun)
    ensures var d := CanActivate(Some(Auth([Bearer, ApiKey], Some(Or))), run);
      && (run.bearer == Pass ==> d == Decision(Allow, 1))
      && (run.bearer.Raise? ==> d == Decision(Reject(run.bearer.error), 1))
      && (Caught(run.bearer) && run.apiKey == Pass ==> d == Decision(Allow, 2))
      && (Caught(run.bearer) && (run.apiKey.Throw? || run.apiKey.Raise?) ==> d == Decision(Reject(run.apiKey.error), 2))
      && (run.bearer.Throw? && run.apiKey == Deny ==> d == Decision(Reject(run.bearer.error), 2))
      && (run.bearer == Deny && run.apiKey == Deny ==> d == Decision(Reject(GenericUnauthorized), 2))
  {
    var outs := [run.bearer, run.apiKey];
    assert [Bearer, ApiKey][1..] == [ApiKey];
    assert [ApiKey][1..] == [];
    assert ResolveGuards([]) == Ok([]);
    assert [ApiKeyGuard] + [] == [ApiKeyGuard];
    assert ResolveGuards([ApiKey]) == Ok([ApiKeyGuard]);
    assert [AccessTokenGuard] + [ApiKeyGuard] == [AccessTokenGuard, ApiKeyGuard];
    assert ResolveGuards([Bearer, ApiKey]) == Ok([AccessTokenGuard, ApiKeyGuard]);
    assert Outcomes([AccessTokenGuard, ApiKeyGuard], run) == outs;
    assert outs[1..] == [run.apiKey];
    assert [run.apiKey][1..] == [];
    assert CanActivate(Some(Auth([Bearer, ApiKey], Some(Or))), run) == EvalOr(outs, GenericUnauthorized);
    var kept := if run.bearer.Throw? then run.bearer.error else GenericUnauthorized;
    if Caught(run.bearer) {
      assert EvalOr(outs, GenericUnauthorized).evaluated == EvalOr([run.apiKey], kept).evaluated + 1;
      var last := if run.apiKey.Throw? then run.apiKey.error else kept;
      assert Caught(run.apiKey) ==> EvalOr([run.apiKey], kept) == Decision(Reject(last), 1) by {
        assert EvalOr([], last) == Decision(Reject(last), 0);
      }
    }
  }

  /** The chain as mounted: the Bearer guard is AccessTokenGuard over the current store. */
  function CanActivateRequest(
    meta: Option<AuthMetadata>, db: Db, svc: Services, req: TokenGuard.Request, apiKey: GuardOutcome): Decision
  {
    CanActivate(meta, GuardRun(TokenGuard.CanActivate(db, svc, req).outcome, apiKey))
  }

  /**
   * A route declaring only Bearer is admitted exactly when the bearer guard
   * passes, and otherwise fails with the bearer guard's own error.
   */
  lemma BearerOnlyRoute(db: Db, svc: Services, req: TokenGuard.Request, apiKey: GuardOutcome)
    ensures var d := CanActivateRequest(Some(Auth([Bearer], None)), db, svc, req, apiKey);
      var b := TokenGuard.CanActivate(db, svc, req).outcome;
      && (d.verdict == Allow <==> b == Pass)
      && (b.Throw? ==> d == Decision(Reject(b.error), 1))
  {
    var b := TokenGuard.CanActivate(db, svc, req).outcome;
    var run := GuardRun(b, apiKey);
    assert [Bearer][1..] == [];
    assert ResolveGuards([]) == Ok([]);
    assert [AccessTokenGuard] + [] == [AccessTokenGuard];
    assert ResolveGuards([Bearer]) == Ok([AccessTokenGuard]);
    assert Outcomes([AccessTokenGuard], run) == [b];
    assert [b][1..] == [];
  }
}
