/** Application errors, error chains, and the two maps from error chains to gRPC statuses. */
module AppErrors {
  const DB_ERROR := "database error"

  datatype Code =
    | InvalidArgument | NotFound | AlreadyExists | PermissionDenied | Unauthenticated
    | ResourceExhausted | FailedPrecondition | Unavailable | DeadlineExceeded | Canceled | Internal

  datatype Status = Status(code: Code, message: string)

  /** A Go error value: nil, an `AppError`, a wrapper that adds a prefix, or any other leaf. */
  datatype Err =
    | Nil
    | App(status: int, message: string, cause: Err)
    | Wrapped(prefix: string, inner: Err)
    | Plain(text: string)
  {
    function Text(): string {
      match this
      case Nil => "<nil>"
      case App(_, message, cause) => if cause.Nil? then message else cause.Text()
      case Wrapped(prefix, inner) => prefix + ": " + inner.Text()
      case Plain(text) => text
    }
  }

  function BadRequest(message: string): Err { App(400, message, Nil) }

  function Unauthorized(message: string): Err { App(401, message, Nil) }

  function Forbidden(message: string): Err { App(403, message, Nil) }

  function Missing(message: string): Err { App(404, message, Nil) }

  function Conflict(message: string): Err { App(409, message, Nil) }

  function InternalErr(cause: Err): Err { App(500, "Internal Server Error", cause) }

  function ServiceUnavailable(cause: Err): Err { App(503, "Service Unavailable", cause) }

  /** The error is an application error with this HTTP status. */
  predicate HasStatus(e: Err, status: int) { e.App? && e.status == status }

  /** `errors.As` with an `*AppError` target: unwrap until the chain shows one. */
  function FindApp(e: Err): (r: Err)
    ensures r.Nil? || r.App?
  {
    match e
    case Nil => Nil
    case App(_, _, _) => e
    case Wrapped(_, inner) => FindApp(inner)
    case Plain(_) => Nil
  }

  function MapGrpcToHttpError(e: Err): Status {
    var app := FindApp(e);
    if app.Nil? then Status(Internal, "internal error: " + e.Text())
    else if app.status == 404 then Status(NotFound, app.message)
    else if app.status == 400 then Status(InvalidArgument, app.message)
    else if app.status == 401 then Status(Unauthenticated, app.message)
    else if app.status == 403 then Status(PermissionDenied, app.message)
    else if app.status == 409 then Status(AlreadyExists, app.message)
    else if app.status == 503 then Status(Unavailable, app.message)
    else if app.status == 429 then Status(ResourceExhausted, app.message)
    else Status(Internal, app.message)
  }

  function MapTradeSettlementError(e: Err): Status {
    var app := FindApp(e);
    if app.Nil? then Status(Internal, e.Text())
    else if app.status == 400 then Status(FailedPrecondition, app.message)
    else if app.status == 404 then Status(NotFound, app.message)
    else Status(Internal, app.message)
  }

  /** `e` under a stack of wrappers, outermost prefix first. */
  function Wrap(prefixes: seq<string>, e: Err): Err {
    if prefixes == [] then e else Wrapped(prefixes[0], Wrap(prefixes[1..], e))
  }

  /** Every chain is a stack of wrappers over what the search stops at: the search finds the outermost
      `AppError` when there is one above every other leaf, and nothing otherwise. */
  lemma {:induction false} ChainShape(e: Err) returns (prefixes: seq<string>, core: Err)
    ensures e == Wrap(prefixes, core) && !core.Wrapped?
    ensures FindApp(e) == if core.App? then core else Nil
  {
    match e
    case Wrapped(prefix, inner) =>
      var rest, c := ChainShape(inner);
      prefixes, core := [prefix] + rest, c;
      assert prefixes[1..] == rest;
    case _ =>
      prefixes, core := [], e;
  }

  /** Any number of wrappers is invisible to both maps when they find an `AppError`, whatever its cause,
      and never changes a code. */
  lemma {:induction false} WrappersAreTransparent(prefixes: seq<string>, e: Err)
    ensures FindApp(Wrap(prefixes, e)) == FindApp(e)
    ensures MapGrpcToHttpError(Wrap(prefixes, e)).code == MapGrpcToHttpError(e).code
    ensures MapTradeSettlementError(Wrap(prefixes, e)).code == MapTradeSettlementError(e).code
    ensures FindApp(e).App? ==> MapGrpcToHttpError(Wrap(prefixes, e)) == MapGrpcToHttpError(e)
    ensures FindApp(e).App? ==> MapTradeSettlementError(Wrap(prefixes, e)) == MapTradeSettlementError(e)
  {
    if prefixes != [] {
      WrappersAreTransparent(prefixes[1..], e);
    }
  }

  /** The status depends on the outermost `AppError` only: its cause and its wrappers do not matter. */
  lemma OnlyOutermostMatters(p: seq<string>, q: seq<string>, status: int, message: string, c: Err, d: Err)
    ensures MapGrpcToHttpError(Wrap(p, App(status, message, c))) == MapGrpcToHttpError(Wrap(q, App(status, message, d)))
  {
    WrappersAreTransparent(p, App(status, message, c));
    WrappersAreTransparent(q, App(status, message, d));
  }

  const SPLIT_STATUSES: set<int> := {400, 401, 403, 409, 429, 503}

  /** The generic map and the settlement map give the same code exactly off six statuses. */
  lemma MapsAgreeExactly(prefixes: seq<string>, core: Err)
    requires !core.Wrapped?
    ensures MapGrpcToHttpError(Wrap(prefixes, core)).code == MapTradeSettlementError(Wrap(prefixes, core)).code
       <==> !(core.App? && core.status in SPLIT_STATUSES)
  {
    WrappersAreTransparent(prefixes, core);
  }

  /** What a client of the gRPC services sees of an application error, through any wrappers: its message, and a
      code for each status, of which the settlement call uses its own for 400. */
  lemma CodesOfStatuses(prefixes: seq<string>, status: int, message: string, cause: Err)
    ensures var generic := MapGrpcToHttpError(Wrap(prefixes, App(status, message, cause)));
      && generic.message == message
      && (generic.code == InvalidArgument <==> status == 400) && (generic.code == Unauthenticated <==> status == 401)
      && (generic.code == PermissionDenied <==> status == 403) && (generic.code == NotFound <==> status == 404)
      && (generic.code == AlreadyExists <==> status == 409) && (generic.code == ResourceExhausted <==> status == 429)
      && (generic.code == Unavailable <==> status == 503)
      && (generic.code == Internal <==> status !in {400, 401, 403, 404, 409, 429, 503})
    ensures var settlement := MapTradeSettlementError(Wrap(prefixes, App(status, message, cause)));
      && settlement.message == message
      && (settlement.code == FailedPrecondition <==> status == 400) && (settlement.code == NotFound <==> status == 404)
      && (settlement.code == Internal <==> status !in {400, 404})
  {
    WrappersAreTransparent(prefixes, App(status, message, cause));
  }

  /** And of any other error: an internal one, with its text. */
  lemma CodesOfOtherErrors(prefixes: seq<string>, text: string)
    ensures var e := Wrap(prefixes, Plain(text));
      && MapGrpcToHttpError(e) == Status(Internal, "internal error: " + e.Text())
      && MapTradeSettlementError(e) == Status(Internal, e.Text())
  {
    WrappersAreTransparent(prefixes, Plain(text));
  }
}
