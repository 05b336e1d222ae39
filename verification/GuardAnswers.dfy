/** What a client of a guarded route gets for its token, in terms of the token's claims alone. */
module GuardAnswers {
  import opened Prelude
  import opened AppErrors
  import opened Identity
  import opened RequestContext
  import opened GuardMeaning
  import opened GuardLaws

  type Verify = string -> Option<ClaimSet>

  type Load = (StdContext, ClaimSet) -> Result<seq<string>, Err>

  /** The request carries a token that verifies to `claims`, and their permissions are `permissions`. */
  predicate LogsIn(request: Request, verify: Verify, load: Load, claims: ClaimSet, permissions: seq<string>) {
    && BearerToken(request.authorization).Ok?
    && verify(BearerToken(request.authorization).value) == Some(claims)
    && load(request.ctx, claims) == Ok(permissions)
  }

  /** The identity that claims and permissions make, in both of its stores. */
  predicate Knows(keys: Keys, request: Request, claims: ClaimSet, permissions: seq<string>) {
    && AuthKey in keys && keys[AuthKey].Auth? && keys[AuthKey].identity.Some?
    && var ac := keys[AuthKey].identity.value;
    && ac.identityID == claims.identityID && ac.identityType == claims.identityType
    && ac.clientID == claims.clientID && ac.employeeID == claims.employeeID && ac.permissions == permissions
    && GetAuthFromContext(request.ctx) == Some(ac)
  }

  /** One step of a chain over the authenticating middleware. */
  lemma LoginStep(hs: seq<Handler>, i: nat, verify: Verify, load: Load, claims: ClaimSet, permissions: seq<string>, s: Scene,
                  params: Params) returns (next: Scene)
    requires i < |hs| && hs[i] == Authenticate(verify, load) && LogsIn(s.request, verify, load, claims, permissions)
    ensures Chain(hs, i, s, params) == Chain(hs, i + 1, next, params)
    ensures Knows(next.keys, next.request, claims, permissions) && next.keys - {AuthKey} == s.keys - {AuthKey}
    ensures next == s.(started := s.started + [i], keys := next.keys, request := next.request)
  {
    next := Granted(hs[i], s.(started := s.started + [i]));
    assert Lookup(next.request.ctx, AuthKey) == Some(next.keys[AuthKey]);
  }

  lemma GuardStep(hs: seq<Handler>, i: nat, s: Scene, params: Params)
    requires i < |hs| && !hs[i].Endpoint? && !hs[i].ErrorHandler? && !hs[i].Authenticate?
    ensures var started := s.(started := s.started + [i]);
      Chain(hs, i, s, params) ==
      if Admits(hs[i], s.keys, s.request, params) then Chain(hs, i + 1, started, params)
      else started.(errors := s.errors + [Rejection(hs[i], s.keys, s.request, params)], aborted := true)
  {
  }

  lemma ChainEnds(hs: seq<Handler>, s: Scene, params: Params)
    ensures Chain(hs, |hs|, s, params) == s
  {
  }

  /** Behind the authenticating middleware both stores know the claims of the token and all the permissions that
      were loaded for them, whatever was known before. */
  lemma AuthenticationKnowsTheClaims(verify: Verify, load: Load, claims: ClaimSet, permissions: seq<string>, s: Scene, params: Params)
    requires LogsIn(s.request, verify, load, claims, permissions) && !s.aborted
    ensures var c := Chain([Authenticate(verify, load)], 0, s, params);
      && !c.aborted && c.errors == s.errors && Knows(c.keys, c.request, claims, permissions)
      && c.keys - {AuthKey} == s.keys - {AuthKey}
  {
    var hs := [Authenticate(verify, load)];
    var next := LoginStep(hs, 0, verify, load, claims, permissions, s, params);
    ChainEnds(hs, next, params);
  }

  predicate CanLogIn(request: Request, verify: Verify, load: Load) {
    var token := BearerToken(request.authorization);
    token.Ok? && verify(token.value).Some? && load(request.ctx, verify(token.value).value).Ok?
  }

  /** A failed login stops any chain: nobody is authenticated, and the answer is 401, or 500 if a token was
      accepted and its permissions could not be loaded. */
  lemma FailedLogin(hs: seq<Handler>, i: nat, verify: Verify, load: Load, s: Scene, params: Params)
    requires i < |hs| && hs[i] == Authenticate(verify, load) && !CanLogIn(s.request, verify, load)
    ensures var c, token := Chain(hs, i, s, params), BearerToken(s.request.authorization);
      && c.aborted && c.keys == s.keys && c.request == s.request && c.written == s.written
      && |c.errors| == |s.errors| + 1 && c.started == s.started + [i]
      && ErrorStatus(c.errors[|s.errors|]) == if token.Ok? && verify(token.value).Some? then 500 else 401
  {
    assert !Admits(hs[i], s.keys, s.request, params);
  }

  /** What a guard asks of a logged-in identity. */
  predicate Grants(g: Handler, claims: ClaimSet, permissions: seq<string>, params: Params) {
    match g
    case RequirePermission(required) => forall p :: p in required ==> p in permissions
    case RequireIdentityType(allowed) => claims.identityType in allowed
    case RequireClientSelf(param, allowEmployee) =>
      || (allowEmployee && claims.identityType == "employee")
      || (claims.identityType == "client" && claims.clientID.Some? && param in params &&
          ParseUint(params[param]) == claims.clientID)
    case _ => false
  }

  predicate IsSingleGuard(g: Handler) { g.RequirePermission? || g.RequireIdentityType? || g.RequireClientSelf? }

  lemma KnownIsAdmitted(g: Handler, claims: ClaimSet, permissions: seq<string>, keys: Keys, request: Request, params: Params)
    requires IsSingleGuard(g) && Knows(keys, request, claims, permissions)
    ensures Admits(g, keys, request, params) <==> Grants(g, claims, permissions, params)
  {
    assert ParseUint("").None?;
  }

  /** Behind the middleware a guard lets exactly those through whose claims and loaded permissions meet it: all
      required permissions, one of the allowed types, or the client's own id in the path. */
  lemma GuardedByClaims(verify: Verify, load: Load, g: Handler, claims: ClaimSet, permissions: seq<string>, request: Request,
                        params: Params)
    requires LogsIn(request, verify, load, claims, permissions) && IsSingleGuard(g)
    ensures var c := Chain([Authenticate(verify, load), g], 0, Fresh(request), params);
      && (c.aborted <==> !Grants(g, claims, permissions, params))
      && (c.aborted ==> |c.errors| == 1 && ErrorStatus(c.errors[0]) in {400, 403})
      && (!c.aborted ==> c.errors == [] && Knows(c.keys, c.request, claims, permissions))
  {
    var hs := [Authenticate(verify, load), g];
    var next := LoginStep(hs, 0, verify, load, claims, permissions, Fresh(request), params);
    KnownIsAdmitted(g, claims, permissions, next.keys, next.request, params);
    GuardStep(hs, 1, next, params);
    ChainEnds(hs, next.(started := next.started + [1]), params);
  }

  /** `AnyOf` behind the middleware: one of its single guards has to grant, each without path parameters. */
  lemma EitherByClaims(verify: Verify, load: Load, gs: seq<Handler>, claims: ClaimSet, permissions: seq<string>, request: Request,
                       params: Params)
    requires LogsIn(request, verify, load, claims, permissions) && forall g :: g in gs ==> IsSingleGuard(g)
    ensures var c := Chain([Authenticate(verify, load), AnyOf(gs)], 0, Fresh(request), params);
      && (c.aborted <==> forall g :: g in gs ==> !Grants(g, claims, permissions, map[]))
      && (c.aborted ==> |c.errors| == 1 && ErrorStatus(c.errors[0]) == 403)
  {
    var hs := [Authenticate(verify, load), AnyOf(gs)];
    var next := LoginStep(hs, 0, verify, load, claims, permissions, Fresh(request), params);
    forall g | g in gs
      ensures Admits(g, next.keys, next.request, map[]) <==> Grants(g, claims, permissions, map[])
    {
      KnownIsAdmitted(g, claims, permissions, next.keys, next.request, map[]);
    }
    GuardStep(hs, 1, next, params);
    ChainEnds(hs, next.(started := next.started + [1]), params);
  }

  /** The whole route: with the error handler in front and an endpoint that succeeds, a client gets 200 exactly
      if it logs in and holds every required permission; else 401 for its token, 500 if its permissions could
      not be loaded, or 403. */
  lemma PermissionRouteAnswers(verify: Verify, load: Load, required: seq<string>, request: Request, params: Params)
    ensures var hs := [ErrorHandler, Authenticate(verify, load), RequirePermission(required), Endpoint(Nil)];
      var token := BearerToken(request.authorization);
      Chain(hs, 0, Fresh(request), params).written ==
        [if token.Fail? || verify(token.value).None? then 401
         else
           var loaded := load(request.ctx, verify(token.value).value);
           if loaded.Fail? then 500 else if forall p :: p in required ==> p in loaded.value then 200 else 403]
  {
    var hs := [ErrorHandler, Authenticate(verify, load), RequirePermission(required), Endpoint(Nil)];
    var s := Fresh(request).(started := [0]);
    HandlerFirst(hs, request, params);
    if CanLogIn(request, verify, load) {
      var claims := verify(BearerToken(request.authorization).value).value;
      var permissions := load(request.ctx, claims).value;
      var next := LoginStep(hs, 1, verify, load, claims, permissions, s, params);
      KnownIsAdmitted(hs[2], claims, permissions, next.keys, next.request, params);
      GuardStep(hs, 2, next, params);
      var last := next.(started := next.started + [2]);
      EndpointLast(hs, 3, last, params);
    } else {
      FailedLogin(hs, 1, verify, load, s, params);
    }
  }

  lemma EndpointLast(hs: seq<Handler>, i: nat, s: Scene, params: Params)
    requires |hs| == i + 1 && hs[i] == Endpoint(Nil)
    ensures Chain(hs, i, s, params) == s.(started := s.started + [i], written := s.written + [200])
  {
    ChainEnds(hs, s.(started := s.started + [i], written := s.written + [200]), params);
  }

  /** An endpoint that fails is answered with the status of the outermost application error in its error, whatever
      wraps it, and with 500 if there is none. */
  lemma FailingEndpointAnswers(prefixes: seq<string>, core: Err, request: Request, params: Params)
    requires core.App? || core.Plain?
    ensures Chain([ErrorHandler, Endpoint(Wrap(prefixes, core))], 0, Fresh(request), params).written ==
            [if core.App? then core.status else 500]
  {
    var outcome := Wrap(prefixes, core);
    var hs, s := [ErrorHandler, Endpoint(outcome)], Fresh(request).(started := [0]);
    WrappersAreTransparent(prefixes, core);
    HandlerFirst(hs, request, params);
    assert !outcome.Nil?;
    FailingEndpointLast(hs, 1, outcome, s, params);
  }

  lemma FailingEndpointLast(hs: seq<Handler>, i: nat, outcome: Err, s: Scene, params: Params)
    requires |hs| == i + 1 && hs[i] == Endpoint(outcome) && !outcome.Nil?
    ensures Chain(hs, i, s, params) == s.(started := s.started + [i], errors := s.errors + [outcome])
  {
    ChainEnds(hs, s.(started := s.started + [i], errors := s.errors + [outcome]), params);
  }
}
