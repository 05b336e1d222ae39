/** What every route built from the guards can rely on. */
module GuardLaws {
  import opened Prelude
  import opened AppErrors
  import opened Identity
  import opened RequestContext
  import opened GuardMeaning

  // ----- whole chains -----

  /** The scene in which handler `j` starts when everything from handler `i` on lets the request through. */
  ghost function SceneAt(hs: seq<Handler>, i: nat, s: Scene, j: nat): Scene
    requires j <= |hs|
    decreases j - i
  {
    if j <= i then s else SceneAt(hs, i + 1, Granted(hs[i], s), j)
  }

  ghost predicate Rejects(hs: seq<Handler>, i: nat, s: Scene, params: Params, j: nat)
    requires i <= j < |hs|
  {
    var t := SceneAt(hs, i, s, j);
    !Admits(hs[j], t.keys, t.request, params)
  }

  /** `end` is where the chain stops: behind the first handler that rejects, or behind the last one. */
  ghost predicate StopsAt(hs: seq<Handler>, i: nat, s: Scene, params: Params, end: nat) {
    && i <= end <= |hs|
    && (forall j :: i <= j < end - 1 ==> !Rejects(hs, i, s, params, j))
    && (end < |hs| ==> i < end && Rejects(hs, i, s, params, end - 1))
  }

  ghost predicate Rejected(hs: seq<Handler>, i: nat, s: Scene, params: Params, end: nat) {
    i < end <= |hs| && Rejects(hs, i, s, params, end - 1)
  }

  function Range(i: nat, j: nat): seq<nat>
    decreases j - i
  {
    if j <= i then [] else [i] + Range(i + 1, j)
  }

  lemma Associative<T>(a: seq<T>, b: seq<T>, c: seq<T>)
    ensures (a + b) + c == a + (b + c)
  {
  }

  function OwnError(h: Handler): seq<Err> {
    if h.Endpoint? && h.outcome != Nil then [h.outcome] else []
  }

  /** The errors that endpoints `i` to `j - 1` record. */
  function EndpointErrors(hs: seq<Handler>, i: nat, j: nat): seq<Err>
    requires j <= |hs|
    decreases j - i
  {
    if j <= i then []
    else OwnError(hs[i]) + EndpointErrors(hs, i + 1, j)
  }

  /** The scene behind handler `i` once it has let the request through. */
  ghost function Passed(h: Handler, i: nat, s: Scene): Scene {
    var s0 := s.(started := s.started + [i]);
    if !h.Endpoint? then Granted(h, s0)
    else if h.outcome.Nil? then s0.(written := s.written + [200])
    else s0.(errors := s.errors + [h.outcome])
  }

  lemma ChainStep(hs: seq<Handler>, i: nat, s: Scene, params: Params)
    requires i < |hs| && !s.aborted
    ensures !Admits(hs[i], s.keys, s.request, params) ==>
              Chain(hs, i, s, params) == s.(started := s.started + [i], aborted := true,
                                            errors := s.errors + [Rejection(hs[i], s.keys, s.request, params)])
    ensures Admits(hs[i], s.keys, s.request, params) ==>
              var c, d := Chain(hs, i, s, params), Chain(hs, i + 1, Passed(hs[i], i, s), params);
              c == d.(written := c.written) && (hs[i].ErrorHandler? || c == d)
  {
    var s0 := s.(started := s.started + [i]);
    assert Chain(hs, i, s, params) == Resume(hs[i], hs, i + 1, s0, params);
  }

  lemma LaterRejections(hs: seq<Handler>, i: nat, s: Scene, params: Params, end: nat)
    requires i < |hs| && end <= |hs|
    ensures var s1 := Passed(hs[i], i, s);
      && (forall j :: i < j < |hs| ==> (Rejects(hs, i, s, params, j) <==> Rejects(hs, i + 1, s1, params, j)))
      && (i < end ==> SceneAt(hs, i, s, end).keys == SceneAt(hs, i + 1, s1, end).keys)
      && (i < end ==> SceneAt(hs, i, s, end).request == SceneAt(hs, i + 1, s1, end).request)
  {
    var s1 := Passed(hs[i], i, s);
    forall j | i < j <= |hs|
      ensures SceneAt(hs, i, s, j).keys == SceneAt(hs, i + 1, s1, j).keys
      ensures SceneAt(hs, i, s, j).request == SceneAt(hs, i + 1, s1, j).request
    {
      SameCredentials(hs, i + 1, Granted(hs[i], s), s1, j);
    }
  }

  lemma StepBack(hs: seq<Handler>, i: nat, s: Scene, params: Params, end: nat)
    requires i < |hs| && !Rejects(hs, i, s, params, i)
    requires StopsAt(hs, i + 1, Passed(hs[i], i, s), params, end)
    ensures StopsAt(hs, i, s, params, end)
    ensures RejectionAt(hs, i, s, params, end) == RejectionAt(hs, i + 1, Passed(hs[i], i, s), params, end)
    ensures Rejected(hs, i, s, params, end) <==> Rejected(hs, i + 1, Passed(hs[i], i, s), params, end)
  {
    LaterRejections(hs, i, s, params, end - 1);
  }

  lemma PassedError(h: Handler, i: nat, s: Scene)
    ensures Passed(h, i, s).errors == s.errors + OwnError(h) && Passed(h, i, s).started == s.started + [i]
  {
  }

  lemma PassedRecords(hs: seq<Handler>, i: nat, s: Scene, end: nat)
    requires i < end <= |hs|
    ensures Passed(hs[i], i, s).started + Range(i + 1, end) == s.started + Range(i, end)
    ensures Passed(hs[i], i, s).errors + EndpointErrors(hs, i + 1, end) == s.errors + EndpointErrors(hs, i, end)
  {
    PassedError(hs[i], i, s);
    Associative(s.errors, OwnError(hs[i]), EndpointErrors(hs, i + 1, end));
    Associative(s.started, [i], Range(i + 1, end));
  }

  /** The error of the rejecting handler at which the chain stops, if one rejects. */
  ghost function RejectionAt(hs: seq<Handler>, i: nat, s: Scene, params: Params, end: nat): seq<Err> {
    if Rejected(hs, i, s, params, end) then
      var t := SceneAt(hs, i, s, end - 1);
      [Rejection(hs[end - 1], t.keys, t.request, params)]
    else []
  }

  /** The scene that the last handler up to `end` which admits leaves behind. */
  ghost function LetThrough(hs: seq<Handler>, i: nat, s: Scene, params: Params, end: nat): Scene
    requires end <= |hs|
  {
    SceneAt(hs, i, s, if Rejected(hs, i, s, params, end) then end - 1 else end)
  }

  /** The chain stops behind handler `end - 1`: handlers `i` to `end - 1` start once each and in order, the
      chain is aborted exactly if the last of them rejects, and then its error is the last one recorded. */
  ghost predicate RunsTo(hs: seq<Handler>, i: nat, s: Scene, params: Params, end: nat) {
    var c := Chain(hs, i, s, params);
    && StopsAt(hs, i, s, params, end)
    && c.started == s.started + Range(i, end)
    && (c.aborted <==> Rejected(hs, i, s, params, end))
    && c.errors == s.errors + EndpointErrors(hs, i, end) + RejectionAt(hs, i, s, params, end)
  }

  ghost predicate SameIdentity(c: Scene, t: Scene) {
    c.keys == t.keys && c.request == t.request
  }

  lemma RunsToStepBack(hs: seq<Handler>, i: nat, s: Scene, params: Params, end: nat)
    requires i < |hs| && !s.aborted && Admits(hs[i], s.keys, s.request, params)
    requires RunsTo(hs, i + 1, Passed(hs[i], i, s), params, end)
    ensures RunsTo(hs, i, s, params, end)
  {
    var s1 := Passed(hs[i], i, s);
    assert !Rejects(hs, i, s, params, i);
    StepBack(hs, i, s, params, end);
    ChainStep(hs, i, s, params);
    PassedRecords(hs, i, s, end);
  }

  lemma IdentityStepBack(hs: seq<Handler>, i: nat, s: Scene, params: Params, end: nat)
    requires i < |hs| && !s.aborted && Admits(hs[i], s.keys, s.request, params)
    requires StopsAt(hs, i + 1, Passed(hs[i], i, s), params, end)
    requires SameIdentity(Chain(hs, i + 1, Passed(hs[i], i, s), params), LetThrough(hs, i + 1, Passed(hs[i], i, s), params, end))
    ensures SameIdentity(Chain(hs, i, s, params), LetThrough(hs, i, s, params, end))
  {
    assert !Rejects(hs, i, s, params, i);
    StepBack(hs, i, s, params, end);
    LaterRejections(hs, i, s, params, end - 1);
    LaterRejections(hs, i, s, params, end);
    ChainStep(hs, i, s, params);
  }

  /** Every chain runs to its first rejection and never beyond it, and leaves behind the identity that
      the handlers which admitted have set. */
  lemma {:induction false} ChainRunsToFirstRejection(hs: seq<Handler>, i: nat, s: Scene, params: Params)
    returns (end: nat)
    requires i <= |hs| && !s.aborted
    ensures RunsTo(hs, i, s, params, end)
    ensures SameIdentity(Chain(hs, i, s, params), LetThrough(hs, i, s, params, end))
    decreases |hs| - i
  {
    if i == |hs| {
      end := i;
    } else if Admits(hs[i], s.keys, s.request, params) {
      end := ChainRunsToFirstRejection(hs, i + 1, Passed(hs[i], i, s), params);
      RunsToStepBack(hs, i, s, params, end);
      IdentityStepBack(hs, i, s, params, end);
    } else {
      end := i + 1;
      ChainStep(hs, i, s, params);
      assert Rejects(hs, i, s, params, i);
      assert Range(i, end) == [i];
      assert EndpointErrors(hs, i, end) == [];
    }
  }

  /** Which handler starts with which identity depends on the keys and the request alone. */
  lemma {:induction false} SameCredentials(hs: seq<Handler>, i: nat, s: Scene, t: Scene, j: nat)
    requires s.keys == t.keys && s.request == t.request && j <= |hs|
    ensures SceneAt(hs, i, s, j).keys == SceneAt(hs, i, t, j).keys
    ensures SceneAt(hs, i, s, j).request == SceneAt(hs, i, t, j).request
    decreases j - i
  {
    if i < j {
      SameCredentials(hs, i + 1, Granted(hs[i], s), Granted(hs[i], t), j);
    }
  }

  predicate IsGuard(h: Handler) { !h.ErrorHandler? && !h.Endpoint? }

  function Fresh(request: Request): Scene { Scene(map[], request, [], [], false, []) }

  lemma {:induction false} GuardsWriteNothing(hs: seq<Handler>, i: nat, s: Scene, params: Params, outcome: Err)
    requires i < |hs| && hs[|hs| - 1] == Endpoint(outcome) && !s.aborted
    requires forall j :: i <= j < |hs| - 1 ==> IsGuard(hs[j])
    ensures var c := Chain(hs, i, s, params);
      c.written == if c.aborted || outcome != Nil then s.written else s.written + [200]
    decreases |hs| - i
  {
    ChainStep(hs, i, s, params);
    if i < |hs| - 1 && Admits(hs[i], s.keys, s.request, params) {
      GuardsWriteNothing(hs, i + 1, Passed(hs[i], i, s), params, outcome);
    }
  }

  function Route(guards: seq<Handler>, outcome: Err): seq<Handler> {
    [ErrorHandler] + guards + [Endpoint(outcome)]
  }

  /** Behind the error handler and any guards, a client gets exactly one response: the rejection of the
      first guard that does not admit, and only if all admit the endpoint's own result. */
  lemma OneResponse(guards: seq<Handler>, outcome: Err, request: Request, params: Params)
    returns (end: nat)
    requires forall g :: g in guards ==> IsGuard(g)
    ensures var hs := Route(guards, outcome);
      var c := Chain(hs, 0, Fresh(request), params);
      && StopsAt(hs, 0, Fresh(request), params, end)
      && (c.aborted <==> end <= |guards| + 1)
      && (|guards| + 1 in c.started <==> !c.aborted)
      && c.written == [if c.aborted then ErrorStatus(RejectionAt(hs, 0, Fresh(request), params, end)[0])
                       else if outcome.Nil? then 200 else ErrorStatus(outcome)]
  {
    var hs, s := Route(guards, outcome), Fresh(request);
    var last := |guards| + 1;
    assert forall j :: 1 <= j < last ==> hs[j] == guards[j - 1] && hs[j] in guards;
    end := ChainRunsToFirstRejection(hs, 0, s, params);
    assert !Rejects(hs, 0, s, params, 0) && !Rejects(hs, 0, s, params, last);
    NoEndpointErrors(hs, 0, end, last);
    RangeMembers(0, end);
    RouteWrites(guards, outcome, request, params);
  }

  lemma RouteWrites(guards: seq<Handler>, outcome: Err, request: Request, params: Params)
    requires forall g :: g in guards ==> IsGuard(g)
    ensures var c := Chain(Route(guards, outcome), 0, Fresh(request), params);
      c.written == (if c.aborted || outcome != Nil then [] else [200]) +
                   (if c.errors == [] then [] else [ErrorStatus(c.errors[|c.errors| - 1])])
  {
    var hs, s1 := Route(guards, outcome), Fresh(request).(started := [0]);
    assert forall j :: 1 <= j <= |guards| ==> hs[j] == guards[j - 1] && hs[j] in guards;
    GuardsWriteNothing(hs, 1, s1, params, outcome);
    HandlerFirst(hs, request, params);
  }

  lemma HandlerFirst(hs: seq<Handler>, request: Request, params: Params)
    requires hs != [] && hs[0] == ErrorHandler
    ensures var c := Chain(hs, 1, Fresh(request).(started := [0]), params);
      Chain(hs, 0, Fresh(request), params) ==
      if c.errors == [] then c else c.(written := c.written + [ErrorStatus(c.errors[|c.errors| - 1])])
  {
    assert Fresh(request).started + [0] == [0];
  }

  lemma {:induction false} RangeMembers(i: nat, j: nat)
    ensures forall k :: k in Range(i, j) <==> i <= k < j
    decreases j - i
  {
    if i < j {
      RangeMembers(i + 1, j);
    }
  }

  lemma {:induction false} NoEndpointErrors(hs: seq<Handler>, i: nat, j: nat, last: nat)
    requires j <= |hs| == last + 1 && i <= j && hs[last].Endpoint?
    requires forall k :: i <= k < last ==> !hs[k].Endpoint?
    ensures EndpointErrors(hs, i, j) == if j <= last || hs[last].outcome.Nil? || i > last then [] else [hs[last].outcome]
    decreases j - i
  {
    if i < j {
      NoEndpointErrors(hs, i + 1, j, last);
    }
  }

  // ----- the two copies of the identity -----

  /** The gin keys and the stdlib context tell the same identity. */
  predicate Coherent(keys: Keys, request: Request) {
    GetAuth(keys) == GetAuthFromContext(request.ctx)
  }

  /** No chain, whatever it authenticates, tries or rejects, drives the two copies apart. */
  lemma {:induction false} CoherenceIsKept(hs: seq<Handler>, i: nat, s: Scene, params: Params)
    requires Coherent(s.keys, s.request)
    ensures Coherent(Chain(hs, i, s, params).keys, Chain(hs, i, s, params).request)
    decreases Remaining(hs, i)
  {
    if i < |hs| {
      var h := hs[i];
      var s0 := s.(started := s.started + [i]);
      if h.Endpoint? {
        CoherenceIsKept(hs, i + 1, s0.(written := s.written + [200]), params);
        CoherenceIsKept(hs, i + 1, s0.(errors := s.errors + [h.outcome]), params);
      } else {
        CoherenceIsKept(hs, i + 1, Granted(h, s0), params);
      }
    }
  }

  function SetAuthAll(keys: Keys, request: Request, identities: seq<Option<AuthContext>>): (Keys, Request) {
    if identities == [] then (keys, request)
    else
      var (k, r) := SetAuthAll(keys, request, identities[..|identities| - 1]);
      (k[AuthKey := Auth(identities[|identities| - 1])], WithAuth(r, identities[|identities| - 1]))
  }

  /** After any number of writes both views give the latest one, and the other context values survive. */
  lemma {:induction false} LatestSetAuthWins(keys: Keys, request: Request, identities: seq<Option<AuthContext>>, name: string)
    requires identities != []
    ensures var (k, r) := SetAuthAll(keys, request, identities);
      && GetAuth(k) == GetAuthFromContext(r.ctx) == identities[|identities| - 1]
      && Lookup(r.ctx, Named(name)) == Lookup(request.ctx, Named(name))
      && k - {AuthKey} == keys - {AuthKey}
  {
    var init := identities[..|identities| - 1];
    if init != [] {
      LatestSetAuthWins(keys, request, init, name);
    }
  }

  /** Services see a subject exactly when the token's claims carried one, and then the same one. */
  lemma SubjectComesFromTheClaims(h: Handler, claims: ClaimSet, s: Scene, params: Params)
    requires h.Authenticate? && Admits(h, s.keys, s.request, params)
    requires h.verify(BearerToken(s.request.authorization).value) == Some(claims)
    ensures var seen := GetSubjectFromContext(Granted(h, s).request.ctx);
      && (seen.Ok? <==> SubjectID(claims).Present?)
      && (seen.Ok? ==> seen.value == SubjectID(claims).id)
      && (seen.Fail? ==> seen.error.status == if Supported(claims.identityType) then 401 else 403)
    ensures GetAuth(Granted(h, s).keys).Some?
    ensures GetIdentityIDFromContext(Granted(h, s).request.ctx).Ok? <==> claims.identityID != 0
  {
    var next := Granted(h, s);
    assert Lookup(next.request.ctx, AuthKey) == Some(next.keys[AuthKey]);
  }

  // ----- single guards -----

  predicate IsClient(ac: Option<AuthContext>) {
    ac.Some? && ac.value.identityType == CLIENT && ac.value.clientID.Some?
  }

  /** What a client learns from a rejection: 401 from the guards says exactly that nobody is authenticated,
      400 that a client named no id, 500 that loading permissions failed, and 403 everything else. */
  lemma RejectionStatuses(h: Handler, keys: Keys, request: Request, params: Params)
    requires !Admits(h, keys, request, params)
    ensures var status := ErrorStatus(Rejection(h, keys, request, params));
      && status in {400, 401, 403, 500}
      && (h.Authenticate? ==> (status == 401 || status == 500))
      && (h.Authenticate? ==> (status == 500 <==>
            BearerToken(request.authorization).Ok? && h.verify(BearerToken(request.authorization).value).Some?))
      && (h.AnyOf? ==> status == 403)
      && (!h.Authenticate? && !h.AnyOf? ==> (status == 401 <==> GetAuth(keys).None?))
      && (status == 400 <==> h.RequireClientSelf? && IsClient(GetAuth(keys)) && ParseUint(Param(params, h.param)).None?)
  {
  }

  /** With employees disallowed, only the client whose id the path parameter spells gets through. */
  lemma ClientSelfExactly(param: string, keys: Keys, request: Request, params: Params)
    ensures Admits(RequireClientSelf(param, false), keys, request, params) <==>
            && GetAuth(keys).Some?
            && GetSubjectFromContext(WithAuth(request, GetAuth(keys)).ctx).Ok?
            && GetAuth(keys).value.identityType == CLIENT
            && ParseUint(Param(params, param)) == Some(GetSubjectFromContext(WithAuth(request, GetAuth(keys)).ctx).value)
    ensures forall id: uint :: GetAuth(keys).Some? && GetAuth(keys).value.identityType == CLIENT &&
              GetAuth(keys).value.clientID == Some(id)
              ==> Admits(RequireClientSelf(param, false), keys, request, map[param := Decimal(id)])
  {
    forall id: uint ensures ParseUint(Decimal(id)) == Some(id) {
      ParseUintInvertsDecimal(id);
    }
    assert Lookup(WithAuth(request, GetAuth(keys)).ctx, AuthKey) == Some(Auth(GetAuth(keys)));
  }

  /** Probes carry no path parameters: inside `AnyOf` the self check only ever passes employees. */
  lemma ClientSelfUnderAnyOf(param: string, allowEmployee: bool, keys: Keys, request: Request, params: Params)
    ensures Admits(AnyOf([RequireClientSelf(param, allowEmployee)]), keys, request, params) <==>
            allowEmployee && GetAuth(keys).Some? && GetAuth(keys).value.identityType == EMPLOYEE
  {
    var self := RequireClientSelf(param, allowEmployee);
    assert self in [self];
    assert Param(map[], param) == "";
  }

  /** Where that hurts: a client whose own id is in the path is admitted by the check itself, and by the same
      check inside `AnyOf` not. */
  lemma OwnIdIsRefusedUnderAnyOf(id: uint, request: Request)
    ensures var keys: Keys := map[AuthKey := Auth(Some(AuthContext(id, CLIENT, Some(id), None, [])))];
      var self, params := RequireClientSelf("clientId", false), map["clientId" := Decimal(id)];
      Admits(self, keys, request, params) && !Admits(AnyOf([self]), keys, request, params)
  {
    ParseUintInvertsDecimal(id);
    ClientSelfUnderAnyOf("clientId", false, map[AuthKey := Auth(Some(AuthContext(id, CLIENT, Some(id), None, [])))],
                         request, map["clientId" := Decimal(id)]);
  }

  /** The guards at the leaves of nested `AnyOf`s. */
  function Leaves(h: Handler): seq<Handler>
    decreases h, 0
  {
    if h.AnyOf? then AllLeaves(h.members) else [h]
  }

  function AllLeaves(hs: seq<Handler>): seq<Handler>
    decreases hs
  {
    if hs == [] then [] else Leaves(hs[0]) + AllLeaves(hs[1..])
  }

  /** Nesting is irrelevant: `AnyOf` to any depth admits exactly when some leaf admits on a probe. */
  lemma AnyOfIsItsLeaves(h: Handler, keys: Keys, request: Request, params: Params)
    requires h.AnyOf?
    ensures Admits(h, keys, request, params) <==> exists leaf :: leaf in Leaves(h) && Admits(leaf, keys, request, map[])
    ensures forall leaf :: leaf in Leaves(h) ==> !leaf.AnyOf?
    decreases h, 0
  {
    MembersAreTheirLeaves(h.members, keys, request);
  }

  lemma {:induction false} MembersAreTheirLeaves(hs: seq<Handler>, keys: Keys, request: Request)
    ensures (exists m :: m in hs && Admits(m, keys, request, map[])) <==>
            (exists leaf :: leaf in AllLeaves(hs) && Admits(leaf, keys, request, map[]))
    ensures forall leaf :: leaf in AllLeaves(hs) ==> !leaf.AnyOf?
    decreases hs
  {
    if hs != [] {
      var first, rest := hs[0], hs[1..];
      if first.AnyOf? {
        AnyOfIsItsLeaves(first, keys, request, map[]);
      }
      MembersAreTheirLeaves(rest, keys, request);
      assert forall m :: m in hs <==> m == first || m in rest;
      assert forall leaf :: leaf in AllLeaves(hs) <==> leaf in Leaves(first) || leaf in AllLeaves(rest);
    }
  }

  ghost predicate SameElements(p: seq<string>, q: seq<string>) {
    forall x :: x in p <==> x in q
  }

  /** The same guard tree up to order and repetition in its lists of required permissions. */
  ghost predicate SameGuard(g: Handler, h: Handler) {
    || g == h
    || (g.RequirePermission? && h.RequirePermission? && SameElements(g.required, h.required))
    || (g.AnyOf? && h.AnyOf? && |g.members| == |h.members| &&
        forall i :: 0 <= i < |g.members| ==> SameGuard(g.members[i], h.members[i]))
  }

  function KeysOf(keys: Keys, ac: AuthContext): Keys { keys[AuthKey := Auth(Some(ac))] }

  /** More permissions never lose access, through any nesting, and the order and repetition of held and
      of required permissions never matter. */
  lemma {:induction false} MonotoneInPermissions(g: Handler, h: Handler, keys: Keys, ac: AuthContext, more: seq<string>,
                                request: Request, params: Params)
    requires SameGuard(g, h)
    requires forall p :: p in ac.permissions ==> p in more
    ensures Admits(g, KeysOf(keys, ac), request, params) ==>
            Admits(h, KeysOf(keys, ac.(permissions := more)), request, params)
    decreases g
  {
    if g.AnyOf? && Admits(g, KeysOf(keys, ac), request, params) {
      var m :| m in g.members && Admits(m, KeysOf(keys, ac), request, map[]);
      var i :| 0 <= i < |g.members| && g.members[i] == m;
      MonotoneInPermissions(m, h.members[i], keys, ac, more, request, map[]);
      assert h.members[i] in h.members;
    }
  }

  /** In particular the lists of held and of required permissions are sets. */
  lemma PermissionListsAreSets(g: Handler, h: Handler, keys: Keys, ac: AuthContext, other: seq<string>,
                                request: Request, params: Params)
    requires SameGuard(g, h) && SameElements(ac.permissions, other)
    ensures Admits(g, KeysOf(keys, ac), request, params) <==>
            Admits(h, KeysOf(keys, ac.(permissions := other)), request, params)
  {
    SameGuardSymmetric(g, h);
    MonotoneInPermissions(g, h, keys, ac, other, request, params);
    MonotoneInPermissions(h, g, keys, ac.(permissions := other), ac.permissions, request, params);
    assert ac.(permissions := other).(permissions := ac.permissions) == ac;
  }

  lemma {:induction false} SameGuardSymmetric(g: Handler, h: Handler)
    requires SameGuard(g, h)
    ensures SameGuard(h, g)
    decreases g
  {
    if g != h && g.AnyOf? {
      forall i | 0 <= i < |g.members|
        ensures SameGuard(h.members[i], g.members[i])
      {
        SameGuardSymmetric(g.members[i], h.members[i]);
      }
    }
  }

  /** Trying authentication inside `AnyOf` authenticates nobody: on a request without identity, whatever
      the members of the `AnyOf` are, a guard behind it still turns the request away. */
  lemma AnyOfAuthenticatesNobody(members: seq<Handler>, guard: Handler, s: Scene, params: Params)
    requires GetAuth(s.keys).None? && !s.aborted
    requires guard.RequirePermission? || guard.RequireIdentityType? || guard.RequireClientSelf?
    ensures var c := Chain([AnyOf(members), guard], 0, s, params);
      && c.aborted && c.keys == s.keys && c.request == s.request
      && c.errors == s.errors + [if Admits(AnyOf(members), s.keys, s.request, params)
                                 then Unauthorized("not authenticated")
                                 else Forbidden("user does not satisfy auth requirements")]
  {
    var hs := [AnyOf(members), guard];
    ChainStep(hs, 0, s, params);
    ChainStep(hs, 1, s.(started := s.started + [0]), params);
  }
}
