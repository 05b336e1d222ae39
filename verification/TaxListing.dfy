/** The tax listing: clients and actuaries of one page with the tax that each owes. */
module TaxListing {
  import opened Prelude
  import opened Sequences
  import opened AppErrors

  datatype User = User(id: nat, firstName: string, lastName: string, email: string)

  datatype TaxEntry = TaxEntry(id: nat, firstName: string, lastName: string, email: string, userType: string, owed: real)

  datatype Request = Request(userType: string, firstName: string, lastName: string, page: int, pageSize: int)

  /** A remote user source: page, page size and the two name filters select users, or the call fails. */
  type Source = (int, int, string, string) -> Result<seq<User>, Err>

  /** The tax service's total for one id. */
  type TaxOf = nat -> Result<real, Err>

  datatype Response = Response(data: seq<TaxEntry>, total: int, page: int, pageSize: int, totalPages: int)

  function Normalised(req: Request): Request {
    req.(page := if req.page < 1 then 1 else req.page, pageSize := if req.pageSize < 1 then 10 else req.pageSize)
  }

  /** The users of one kind that the request selects. */
  function Selected(req: Request, kind: string, source: Source): Result<seq<User>, Err> {
    if req.userType != "" && req.userType != kind then Ok([])
    else
      match source(req.page, req.pageSize, req.firstName, req.lastName)
      case Ok(users) => Ok(users)
      case Fail(e) => Fail(InternalErr(e))
  }

  /** `entries` are `users` in their order, each with its own tax. */
  predicate Listed(entries: seq<TaxEntry>, users: seq<User>, kind: string, taxOf: TaxOf) {
    && |entries| == |users|
    && forall i :: 0 <= i < |users| ==>
         && taxOf(users[i].id).Ok?
         && entries[i] == TaxEntry(users[i].id, users[i].firstName, users[i].lastName, users[i].email, kind,
                                   taxOf(users[i].id).value)
  }

  /** `e` is the error of the first user whose tax cannot be determined. */
  predicate FirstFailure(users: seq<User>, taxOf: TaxOf, e: Err) {
    exists i :: 0 <= i < |users| && taxOf(users[i].id) == Fail(e) && forall j :: 0 <= j < i ==> taxOf(users[j].id).Ok?
  }

  predicate AllTaxed(users: seq<User>, taxOf: TaxOf) {
    forall i :: 0 <= i < |users| ==> taxOf(users[i].id).Ok?
  }

  /** The outcomes in the order in which the handler reaches them. */
  predicate Outcome(req: Request, clients: Result<seq<User>, Err>, clientTax: TaxOf,
                    actuaries: Result<seq<User>, Err>, actuaryTax: TaxOf, result: Result<Response, Err>)
    requires req.pageSize >= 1
  {
    match result
    case Ok(r) =>
      && clients.Ok? && actuaries.Ok?
      && var n := |clients.value|;
      && n <= |r.data|
      && Listed(r.data[..n], clients.value, "client", clientTax)
      && Listed(r.data[n..], actuaries.value, "actuary", actuaryTax)
      && r.total == |r.data| && r.page == req.page && r.pageSize == req.pageSize
      && (r.totalPages - 1) * req.pageSize < r.total <= r.totalPages * req.pageSize
    case Fail(e) =>
      if clients.Fail? then e == clients.error
      else if !AllTaxed(clients.value, clientTax) then FirstFailure(clients.value, clientTax, e)
      else if actuaries.Fail? then e == actuaries.error
      else FirstFailure(actuaries.value, actuaryTax, e)
  }

  predicate KeepsPageSize(users: Result<seq<User>, Err>, req: Request) {
    users.Ok? ==> |users.value| <= req.pageSize
  }

  /** `math.Ceil` of a quotient. */
  function Ceiling(total: nat, pageSize: int): int
    requires pageSize >= 1
  {
    -((-(total as real) / pageSize as real).Floor)
  }

  lemma Scaled(x: real, y: real, s: real)
    requires s > 0.0
    ensures x < y ==> x * s < y * s
    ensures x <= y ==> x * s <= y * s
  {
  }

  lemma ProductAsReal(p: int, s: int)
    ensures (p * s) as real == p as real * s as real
  {
  }

  lemma CeilingBounds(total: nat, pageSize: int)
    requires pageSize >= 1
    ensures (Ceiling(total, pageSize) - 1) as real < total as real / pageSize as real <= Ceiling(total, pageSize) as real
  {
    var x := total as real / pageSize as real;
    assert -(total as real) / pageSize as real == -x;
  }

  lemma BelowQuotient(p: int, total: nat, pageSize: int)
    requires pageSize >= 1 && p as real < total as real / pageSize as real
    ensures p * pageSize < total
  {
    var x, s := total as real / pageSize as real, pageSize as real;
    assert x * s == total as real;
    Scaled(p as real, x, s);
    ProductAsReal(p, pageSize);
  }

  lemma AboveQuotient(p: int, total: nat, pageSize: int)
    requires pageSize >= 1 && total as real / pageSize as real <= p as real
    ensures total <= p * pageSize
  {
    var x, s := total as real / pageSize as real, pageSize as real;
    assert x * s == total as real;
    Scaled(x, p as real, s);
    ProductAsReal(p, pageSize);
  }

  lemma CeilingIsTight(total: nat, pageSize: int)
    requires pageSize >= 1
    ensures var p := Ceiling(total, pageSize); (p - 1) * pageSize < total <= p * pageSize
  {
    CeilingBounds(total, pageSize);
    BelowQuotient(Ceiling(total, pageSize) - 1, total, pageSize);
    AboveQuotient(Ceiling(total, pageSize), total, pageSize);
  }

  /** Appends an entry for each user, and stops at the first whose tax cannot be determined. */
  method AppendEntries(entries: seq<TaxEntry>, users: seq<User>, kind: string, taxOf: TaxOf)
    returns (result: Result<seq<TaxEntry>, Err>)
    ensures match result
      case Ok(all) => |entries| <= |all| && all[..|entries|] == entries && Listed(all[|entries|..], users, kind, taxOf)
      case Fail(e) => FirstFailure(users, taxOf, e)
  {
    var all := entries;
    for i := 0 to |users|
      invariant |all| == |entries| + i && all[..|entries|] == entries
      invariant forall j :: 0 <= j < i ==>
        && taxOf(users[j].id).Ok?
        && all[|entries| + j] == TaxEntry(users[j].id, users[j].firstName, users[j].lastName, users[j].email, kind,
                                          taxOf(users[j].id).value)
    {
      var user := users[i];
      var tax := taxOf(user.id);
      if tax.Fail? {
        return Fail(tax.error);
      }
      all := all + [TaxEntry(user.id, user.firstName, user.lastName, user.email, kind, tax.value)];
    }
    return Ok(all);
  }

  /** Lists the requested page of users; on any failure nothing is listed. */
  method ListTaxUsers(request: Request, getClients: Source, clientTax: TaxOf, getActuaries: Source, actuaryTax: TaxOf)
    returns (result: Result<Response, Err>)
    ensures var req := Normalised(request);
      Outcome(req, Selected(req, "client", getClients), clientTax,
                   Selected(req, "actuary", getActuaries), actuaryTax, result)
  {
    var req := request;
    if req.page < 1 {
      req := req.(page := 1);
    }
    if req.pageSize < 1 {
      req := req.(pageSize := 10);
    }
    var entries: seq<TaxEntry> := [];

    if req.userType == "" || req.userType == "client" {
      var response := getClients(req.page, req.pageSize, req.firstName, req.lastName);
      if response.Fail? {
        return Fail(InternalErr(response.error));
      }
      var extended := AppendEntries(entries, response.value, "client", clientTax);
      if extended.Fail? {
        return Fail(extended.error);
      }
      entries := extended.value;
    }

    if req.userType == "" || req.userType == "actuary" {
      var response := getActuaries(req.page, req.pageSize, req.firstName, req.lastName);
      if response.Fail? {
        return Fail(InternalErr(response.error));
      }
      var extended := AppendEntries(entries, response.value, "actuary", actuaryTax);
      if extended.Fail? {
        return Fail(extended.error);
      }
      entries := extended.value;
    }

    CeilingIsTight(|entries|, req.pageSize);
    return Ok(Response(entries, |entries|, req.page, req.pageSize, Ceiling(|entries|, req.pageSize)));
  }

  /** What `source` is asked for a kind of user: nothing if the request is for the other kind; else one page, the
      first unless another is named, and ten users unless another size is named. */
  function Asked(request: Request, kind: string, source: Source): Result<seq<User>, Err> {
    if request.userType == "" || request.userType == kind then
      source(if request.page >= 1 then request.page else 1, if request.pageSize >= 1 then request.pageSize else 10,
             request.firstName, request.lastName)
    else Ok([])
  }

  predicate Shows(e: TaxEntry, u: User, kind: string, taxOf: TaxOf) {
    && e.id == u.id && e.firstName == u.firstName && e.lastName == u.lastName && e.email == u.email
    && e.userType == kind && taxOf(u.id) == Ok(e.owed)
  }

  /** The answer in terms of the request as it came in: every client and then every actuary that the sources give,
      each with its own tax. A source that fails is answered with 500, and a tax that cannot be determined with
      its own error. */
  lemma ListingAnswers(request: Request, getClients: Source, clientTax: TaxOf, getActuaries: Source, actuaryTax: TaxOf,
                       result: Result<Response, Err>)
    requires var req := Normalised(request);
      Outcome(req, Selected(req, "client", getClients), clientTax, Selected(req, "actuary", getActuaries), actuaryTax, result)
    ensures var c, a := Asked(request, "client", getClients), Asked(request, "actuary", getActuaries);
      match result
      case Ok(r) =>
        && c.Ok? && a.Ok? && |r.data| == |c.value| + |a.value| == r.total
        && (forall i :: 0 <= i < |c.value| ==> Shows(r.data[i], c.value[i], "client", clientTax))
        && (forall i :: 0 <= i < |a.value| ==> Shows(r.data[|c.value| + i], a.value[i], "actuary", actuaryTax))
        && r.page == (if request.page >= 1 then request.page else 1)
        && r.pageSize == (if request.pageSize >= 1 then request.pageSize else 10)
      case Fail(e) =>
        || ((c.Fail? || a.Fail?) && HasStatus(e, 500))
        || (c.Ok? && exists i :: 0 <= i < |c.value| && clientTax(c.value[i].id) == Fail(e))
        || (c.Ok? && a.Ok? && exists i :: 0 <= i < |a.value| && actuaryTax(a.value[i].id) == Fail(e))
  {
    if result.Ok? {
      var n := |Selected(Normalised(request), "client", getClients).value|;
      var data := result.value.data;
      assert forall i :: 0 <= i < n ==> data[..n][i] == data[i];
      assert forall i :: 0 <= i < |data| - n ==> data[n..][i] == data[n + i];
    }
  }

  // ----- the total and the whole listing -----

  /** All users of a kind that two name filters select. */
  type Users = (string, string) -> seq<User>

  /** The user service answers with one page of them. */
  function Paged(users: Users): Source {
    (page: int, pageSize: int, first: string, last: string) => Ok(Page(users(first, last), page, pageSize))
  }

  /** The users of a kind that are to be listed over all pages. */
  function Wanted(req: Request, kind: string, users: Users): seq<User> {
    if req.userType != "" && req.userType != kind then [] else users(req.firstName, req.lastName)
  }

  predicate FitsOnFirst(req: Request, wanted: seq<User>) { req.page == 1 && |wanted| <= req.pageSize }

  lemma PageIsAllExactly(users: seq<User>, page: int, pageSize: int)
    requires page >= 1 && pageSize >= 1
    ensures |Page(users, page, pageSize)| <= |users|
    ensures |Page(users, page, pageSize)| == |users| <==> users == [] || (page == 1 && |users| <= pageSize)
  {
    if page > 1 {
      assert (page - 1) * pageSize >= 1;
    }
  }

  /** The total is meant to be that of the whole listing, over all pages. It is exactly when nobody is to be
      listed, or the first page is requested and holds all clients and all actuaries. */
  lemma TotalIsExactlyOnePage(req: Request, clients: Users, clientTax: TaxOf, actuaries: Users, actuaryTax: TaxOf, r: Response)
    requires req.page >= 1 && req.pageSize >= 1
    requires Outcome(req, Selected(req, "client", Paged(clients)), clientTax,
                          Selected(req, "actuary", Paged(actuaries)), actuaryTax, Ok(r))
    ensures var c, a := Wanted(req, "client", clients), Wanted(req, "actuary", actuaries);
      r.total == |c| + |a| <==> (c == [] && a == []) || (FitsOnFirst(req, c) && FitsOnFirst(req, a))
  {
    PageIsAllExactly(Wanted(req, "client", clients), req.page, req.pageSize);
    PageIsAllExactly(Wanted(req, "actuary", actuaries), req.page, req.pageSize);
  }

  /** A request that gets a wrong total: the first page, one user long, of two clients without tax. The answer
      says that there is one user on one page. */
  lemma TwoClientsCountAsOne(users: seq<User>, r: Response)
    requires |users| == 2
    requires var req := Request("client", "", "", 1, 1);
      Outcome(req, Selected(req, "client", Paged((first, last) => users)), (id: nat) => Ok(0.0),
                   Selected(req, "actuary", Paged((first, last) => [])), (id: nat) => Ok(0.0), Ok(r))
    ensures r.total == 1 && r.totalPages == 1 && r.data[0].id == users[0].id
  {
    var req := Request("client", "", "", 1, 1);
    assert Page(users, 1, 1) == [users[0]];
    assert Selected(req, "client", Paged((first, last) => users)).value == [users[0]];
    assert Selected(req, "actuary", Paged((first, last) => [])) == Ok([]);
    assert r.data[..1][0] == r.data[0];
    PageCountIsDetermined(r.totalPages, 1, 1, 1);
  }

  /** Sources that keep to the page size leave at most two pages, however many users there are. */
  lemma AtMostTwoPages(req: Request, clients: Result<seq<User>, Err>, clientTax: TaxOf,
                       actuaries: Result<seq<User>, Err>, actuaryTax: TaxOf, r: Response)
    requires req.pageSize >= 1 && Outcome(req, clients, clientTax, actuaries, actuaryTax, Ok(r))
    requires KeepsPageSize(clients, req) && KeepsPageSize(actuaries, req)
    ensures r.total <= 2 * req.pageSize && r.totalPages <= 2
  {
    CancelFactor(r.totalPages - 1, 2, req.pageSize);
  }

  /** The page count is the only one that fits the number of entries. */
  lemma PageCountIsDetermined(p: int, q: int, total: int, s: int)
    requires s >= 1 && (p - 1) * s < total <= p * s && (q - 1) * s < total <= q * s
    ensures p == q
  {
    CancelFactor(q - 1, p, s);
    CancelFactor(p - 1, q, s);
  }

  lemma CancelFactor(a: int, b: int, s: int)
    requires s >= 1 && a * s < b * s
    ensures a < b
  {
    var d := b - a;
    assert d * s == b * s - a * s;
    assert d <= 0 ==> d * s <= 0;
  }
}
