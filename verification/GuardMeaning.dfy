/** What a chain of gin handlers means, without indices, contexts or loops. */
module GuardMeaning {
  import opened Prelude
  import opened AppErrors
  import opened Identity
  import opened RequestContext

  type Params = map<string, string>

  /** The handlers of a route. Token verification and permission loading are foreign, so each occurrence
      of the authenticating middleware carries its own; an occurrence runs at most once per request. */
  datatype Handler =
    | Authenticate(verify: string -> Option<ClaimSet>, load: (StdContext, ClaimSet) -> Result<seq<string>, Err>)
    | RequirePermission(required: seq<string>)
    | RequireIdentityType(allowed: seq<string>)
    | RequireClientSelf(param: string, allowEmployee: bool)
    | AnyOf(members: seq<Handler>)
    | ErrorHandler
    | Endpoint(outcome: Err)  // records its error, or writes 200 when the outcome is Nil; never aborts

  function AuthContextOf(c: ClaimSet, permissions: seq<string>): AuthContext {
    AuthContext(c.identityID, c.identityType, c.clientID, c.employeeID, permissions)
  }

  function Authentication(verify: string -> Option<ClaimSet>,
                          load: (StdContext, ClaimSet) -> Result<seq<string>, Err>,
                          request: Request): Result<AuthContext, Err>
  {
    match BearerToken(request.authorization)
    case Fail(e) => Fail(e)
    case Ok(token) =>
      match verify(token)
      case None => Fail(Unauthorized("invalid or expired token"))
      case Some(claims) =>
        match load(request.ctx, claims)
        case Fail(e) => Fail(InternalErr(e))
        case Ok(permissions) => Ok(AuthContextOf(claims, permissions))
  }

  function Param(params: Params, name: string): string {
    if name in params then params[name] else ""
  }

  /** The boolean meaning of a handler: does it let the request through? */
  ghost predicate Admits(h: Handler, keys: Keys, request: Request, params: Params)
    decreases h
  {
    match h
    case Authenticate(verify, load) => Authentication(verify, load, request).Ok?
    case RequirePermission(required) =>
      GetAuth(keys).Some? && forall p :: p in required ==> p in GetAuth(keys).value.permissions
    case RequireIdentityType(allowed) => GetAuth(keys).Some? && GetAuth(keys).value.identityType in allowed
    case RequireClientSelf(param, allowEmployee) =>
      && GetAuth(keys).Some?
      && var ac := GetAuth(keys).value;
      || (allowEmployee && ac.identityType == EMPLOYEE)
      || (ac.identityType == CLIENT && ac.clientID.Some? && ParseUint(Param(params, param)) == ac.clientID)
    case AnyOf(members) => exists m :: m in members && Admits(m, keys, request, map[])
    case ErrorHandler => true
    case Endpoint(_) => true
  }

  /** The one error that a handler records when it does not let the request through. */
  function Rejection(h: Handler, keys: Keys, request: Request, params: Params): Err {
    if (h.RequirePermission? || h.RequireIdentityType? || h.RequireClientSelf?) && GetAuth(keys).None?
    then Unauthorized("not authenticated")
    else
      match h
      case Authenticate(verify, load) =>
        (match Authentication(verify, load, request) case Fail(e) => e case Ok(_) => Nil)
      case RequirePermission(_) => Forbidden("insufficient permissions")
      case RequireIdentityType(_) => Forbidden("access denied for this identity type")
      case RequireClientSelf(param, _) =>
        var ac := GetAuth(keys).value;
        if ac.identityType != CLIENT || ac.clientID.None? then Forbidden("access denied")
        else if ParseUint(Param(params, param)).None? then BadRequest("invalid client id")
        else Forbidden("client id does not match authenticated user")
      case AnyOf(_) => Forbidden("user does not satisfy auth requirements")
      case ErrorHandler => Nil
      case Endpoint(_) => Nil
  }

  /** What is observable of a request while its chain runs. */
  datatype Scene = Scene(
    keys: Keys, request: Request, errors: seq<Err>, written: seq<int>, aborted: bool, started: seq<nat>)

  /** The scene a handler passes on; only the authenticating middleware changes anything. */
  function Granted(h: Handler, s: Scene): Scene {
    if h.Authenticate? then
      match Authentication(h.verify, h.load, s.request)
      case Ok(ac) => s.(keys := s.keys[AuthKey := Auth(Some(ac))], request := WithAuth(s.request, Some(ac)))
      case Fail(_) => s
    else s
  }

  function ErrorStatus(e: Err): int {
    if FindApp(e).App? then FindApp(e).status else 500
  }

  function Remaining(hs: seq<Handler>, i: int): nat {
    if i < |hs| then |hs| - i else 0
  }

  /** The meaning of handlers `i`, `i + 1`, ... run from scene `s`. */
  ghost function Chain(hs: seq<Handler>, i: nat, s: Scene, params: Params): Scene
    decreases Remaining(hs, i), 0
  {
    if i >= |hs| then s else Resume(hs[i], hs, i + 1, s.(started := s.started + [i]), params)
  }

  /** The meaning of one handler in front of handlers `k`, `k + 1`, .... */
  ghost function Resume(h: Handler, hs: seq<Handler>, k: nat, s: Scene, params: Params): Scene
    decreases Remaining(hs, k), 1
  {
    match h
    case Endpoint(outcome) =>
      Chain(hs, k, if outcome.Nil? then s.(written := s.written + [200]) else s.(errors := s.errors + [outcome]), params)
    case ErrorHandler =>
      var after := Chain(hs, k, s, params);
      if after.errors == [] then after
      else after.(written := after.written + [ErrorStatus(after.errors[|after.errors| - 1])])
    case _ =>
      if Admits(h, s.keys, s.request, params) then Chain(hs, k, Granted(h, s), params)
      else s.(errors := s.errors + [Rejection(h, s.keys, s.request, params)], aborted := true)
  }

  /** A guard tried on a context without further handlers aborts it exactly when it does not admit. */
  lemma ProbeVerdict(h: Handler, s: Scene)
    requires !s.aborted
    ensures Resume(h, [], 0, s, map[]).aborted <==> !Admits(h, s.keys, s.request, map[])
  {
  }
}
