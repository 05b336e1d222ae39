/** The guards as they run: handlers mutate one gin context and call `Next` themselves, while the loop
    that started them also advances. */
module GinEngine {
  import opened Prelude
  import opened AppErrors
  import opened Identity
  import opened RequestContext
  import opened GuardMeaning

  /** gin's abort index; gin refuses to register a chain that long. */
  const ABORT_INDEX: nat := 63

  class GinContext {
    const handlers: seq<Handler>
    const params: Params
    var index: int
    var keys: Keys
    var request: Request
    var errors: seq<Err>
    var written: seq<int>
    ghost var aborted: bool
    ghost var started: seq<nat>

    constructor (handlers: seq<Handler>, params: Params, request: Request)
      ensures this.handlers == handlers && this.params == params && index == -1
      ensures View() == Scene(map[], request, [], [], false, [])
    {
      this.handlers, this.params, this.request := handlers, params, request;
      index, keys, errors, written, aborted, started := -1, map[], [], [], false, [];
    }

    ghost function View(): Scene
      reads this
    {
      Scene(keys, request, errors, written, aborted, started)
    }

    /** A handler is running, or the context is fresh; nothing has been aborted. */
    ghost predicate Ready()
      reads this
    {
      && |handlers| < ABORT_INDEX
      && -1 <= index < |handlers|
      && !aborted
    }

    /** The largest index that running on from index `i` can leave behind. */
    ghost function Ceiling(i: int): int {
      ABORT_INDEX + |handlers| - 1 - i
    }

    ghost predicate Settled(from: int)
      reads this
    {
      && from <= index <= Ceiling(from)
      && index <= 127  // gin's int8 never wraps
      && (aborted ==> index >= ABORT_INDEX)
      && (handlers == [] && !aborted ==> index <= 0)
    }

    /** What is left to run from here means what `h` and all later handlers meant when `h` was started. */
    ghost predicate Ran(h: Handler, from: int, before: Scene)
      requires -1 <= from
      reads this
    {
      Settled(from) && Chain(handlers, index + 1, View(), params) == Resume(h, handlers, from + 1, before, params)
    }

    predicate IsAborted()
      reads this
    {
      index >= ABORT_INDEX
    }

    method AbortWithError(e: Err)
      requires Ready()
      modifies this
      ensures View() == old(View()).(errors := old(errors) + [e], aborted := true)
      ensures index == ABORT_INDEX
    {
      errors := errors + [e];
      index := ABORT_INDEX;
      aborted := true;
    }

    method Set(key: Key, value: Value)
      modifies this`keys
      ensures keys == old(keys)[key := value]
    {
      keys := keys[key := value];
    }

    method SetAuth(ac: AuthContext)
      modifies this`keys, this`request
      ensures keys == old(keys)[AuthKey := Auth(Some(ac))]
      ensures request == WithAuth(old(request), Some(ac))
    {
      Set(AuthKey, Auth(Some(ac)));
      request := request.(ctx := WithValue(request.ctx, AuthKey, Auth(Some(ac))));
    }

    /** Runs the handlers after `index`, each at most once however often handlers call `Next`. */
    method Next()
      requires Ready()
      modifies this
      ensures View() == Chain(handlers, old(index) + 1, old(View()), params)
      ensures |handlers| <= index && Settled(old(index))
      decreases |handlers| - index, 0
    {
      index := index + 1;
      while index < |handlers|
        invariant old(index) < index <= Ceiling(old(index))
        invariant index <= |handlers| ==> !aborted
        invariant aborted ==> index >= ABORT_INDEX
        invariant handlers == [] ==> index == 0
        invariant Chain(handlers, index, View(), params) == Chain(handlers, old(index) + 1, old(View()), params)
        decreases |handlers| - index
      {
        started := started + [index];
        Invoke(handlers[index]);
        index := index + 1;
      }
    }

    /** Runs one handler, and through its calls of `Next` whatever it lets run. */
    method Invoke(h: Handler)
      requires Ready()
      modifies this
      ensures Ran(h, old(index), old(View()))
      decreases |handlers| - index, 2, h
    {
      match h {
        case Authenticate(verify, load) => RunAuthenticate(verify, load);
        case RequirePermission(required) => RunRequirePermission(required);
        case RequireIdentityType(allowed) => RunRequireIdentityType(allowed);
        case RequireClientSelf(param, allowEmployee) => RunRequireClientSelf(param, allowEmployee);
        case AnyOf(members) => RunAnyOf(members);
        case ErrorHandler => RunErrorHandler();
        case Endpoint(outcome) =>
          if outcome.Nil? {
            written := written + [200];
          } else {
            errors := errors + [outcome];
          }
      }
    }

    method RunAuthenticate(verify: string -> Option<ClaimSet>,
                           load: (StdContext, ClaimSet) -> Result<seq<string>, Err>)
      requires Ready()
      modifies this
      ensures Ran(Authenticate(verify, load), old(index), old(View()))
      decreases |handlers| - index, 1
    {
      var bearer := BearerToken(request.authorization);
      if bearer.Fail? {
        AbortWithError(bearer.error);
        return;
      }
      var claims := verify(bearer.value);
      if claims.None? {
        AbortWithError(Unauthorized("invalid or expired token"));
        return;
      }
      var permissions := load(request.ctx, claims.value);
      if permissions.Fail? {
        AbortWithError(InternalErr(permissions.error));
        return;
      }
      SetAuth(AuthContextOf(claims.value, permissions.value));
      Next();
    }

    method RunRequirePermission(required: seq<string>)
      requires Ready()
      modifies this
      ensures Ran(RequirePermission(required), old(index), old(View()))
      decreases |handlers| - index, 1
    {
      var ac := GetAuth(keys);
      if ac.None? {
        AbortWithError(Unauthorized("not authenticated"));
        return;
      }
      for i := 0 to |required|
        invariant Ready() && View() == old(View()) && index == old(index)
        invariant forall j :: 0 <= j < i ==> required[j] in ac.value.permissions
      {
        var held := HasPermission(required[i], ac.value.permissions);
        if !held {
          AbortWithError(Forbidden("insufficient permissions"));
          return;
        }
      }
      Next();
    }

    method RunRequireIdentityType(allowed: seq<string>)
      requires Ready()
      modifies this
      ensures Ran(RequireIdentityType(allowed), old(index), old(View()))
      decreases |handlers| - index, 1
    {
      var ac := GetAuth(keys);
      if ac.None? {
        AbortWithError(Unauthorized("not authenticated"));
        return;
      }
      for i := 0 to |allowed|
        invariant Ready() && View() == old(View()) && index == old(index)
        invariant forall j :: 0 <= j < i ==> allowed[j] != ac.value.identityType
      {
        if ac.value.identityType == allowed[i] {
          Next();
          return;
        }
      }
      AbortWithError(Forbidden("access denied for this identity type"));
    }

    method RunRequireClientSelf(param: string, allowEmployee: bool)
      requires Ready()
      modifies this
      ensures Ran(RequireClientSelf(param, allowEmployee), old(index), old(View()))
      decreases |handlers| - index, 1
    {
      var ac := GetAuth(keys);
      if ac.None? {
        AbortWithError(Unauthorized("not authenticated"));
        return;
      }
      if allowEmployee && ac.value.identityType == EMPLOYEE {
        Next();
        return;
      }
      if ac.value.identityType != CLIENT || ac.value.clientID.None? {
        AbortWithError(Forbidden("access denied"));
        return;
      }
      var clientID := ParseUint(Param(params, param));
      if clientID.None? {
        AbortWithError(BadRequest("invalid client id"));
        return;
      }
      if clientID != ac.value.clientID {
        AbortWithError(Forbidden("client id does not match authenticated user"));
        return;
      }
      Next();
    }

    method RunErrorHandler()
      requires Ready()
      modifies this
      ensures Ran(ErrorHandler, old(index), old(View()))
      decreases |handlers| - index, 1
    {
      Next();
      if errors == [] {
        return;
      }
      var app := FindApp(errors[|errors| - 1]);
      written := written + [if app.App? then app.status else 500];
    }

    /** A fresh context for trying one guard: the request and a copy of the keys, but no path parameters. */
    method Probe() returns (probe: GinContext)
      ensures fresh(probe) && probe.handlers == [] && probe.params == map[] && probe.index == -1
      ensures probe.View() == Scene(keys, request, [], [], false, [])
    {
      probe := new GinContext([], map[], request);
      var rest := keys.Keys;
      while rest != {}
        invariant rest <= keys.Keys && fresh(probe)
        invariant probe.keys == map k | k in keys.Keys - rest :: keys[k]
        invariant probe.View() == Scene(probe.keys, request, [], [], false, []) && probe.index == -1
        decreases |rest|
      {
        var key :| key in rest;
        probe.Set(key, keys[key]);
        rest := rest - {key};
      }
    }

    method RunAnyOf(members: seq<Handler>)
      requires Ready()
      modifies this
      ensures Ran(AnyOf(members), old(index), old(View()))
      decreases |handlers| - index, 2, members
    {
      for i := 0 to |members|
        invariant Ready() && View() == old(View()) && index == old(index)
        invariant forall j :: 0 <= j < i ==> !Admits(members[j], keys, request, map[])
      {
        var probe := Probe();
        ghost var scene := probe.View();
        probe.Invoke(members[i]);
        ProbeVerdict(members[i], scene);
        if !probe.IsAborted() {
          Next();
          return;
        }
      }
      AbortWithError(Forbidden("user does not satisfy auth requirements"));
    }
  }

  method HasPermission(permission: string, permissions: seq<string>) returns (held: bool)
    ensures held <==> permission in permissions
  {
    for i := 0 to |permissions|
      invariant permission !in permissions[..i]
    {
      if permissions[i] == permission {
        return true;
      }
    }
    return false;
  }
}
