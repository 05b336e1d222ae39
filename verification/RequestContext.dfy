/** What a request carries: headers, path parameters, gin keys and the chain of stdlib context values. */
module RequestContext {
  import opened Prelude
  import opened AppErrors
  import opened Identity

  datatype AuthContext = AuthContext(
    identityID: uint, identityType: string, clientID: Option<uint>, employeeID: Option<uint>, permissions: seq<string>)

  /** `AuthKey` is the private key type of the auth package; every other key is `Named`. */
  datatype Key = AuthKey | Named(name: string)

  datatype Value = Auth(identity: Option<AuthContext>) | Opaque(text: string)

  type Keys = map<Key, Value>

  datatype StdContext = Background | WithValue(parent: StdContext, key: Key, value: Value)

  datatype Request = Request(authorization: string, ctx: StdContext)

  function Lookup(ctx: StdContext, key: Key): Option<Value> {
    match ctx
    case Background => None
    case WithValue(parent, k, v) => if k == key then Some(v) else Lookup(parent, key)
  }

  function AuthOf(v: Option<Value>): Option<AuthContext> {
    match v
    case Some(Auth(identity)) => identity
    case _ => None
  }

  function GetAuth(keys: Keys): Option<AuthContext> {
    AuthOf(if AuthKey in keys then Some(keys[AuthKey]) else None)
  }

  function GetAuthFromContext(ctx: StdContext): Option<AuthContext> {
    AuthOf(Lookup(ctx, AuthKey))
  }

  function GetSubjectFromContext(ctx: StdContext): Result<uint, Err> {
    match GetAuthFromContext(ctx)
    case None => Fail(Unauthorized("not authenticated"))
    case Some(ac) =>
      if ac.identityType == CLIENT then
        if ac.clientID.None? then Fail(Unauthorized("not authenticated")) else Ok(ac.clientID.value)
      else if ac.identityType == EMPLOYEE then
        if ac.employeeID.None? then Fail(Unauthorized("not authenticated")) else Ok(ac.employeeID.value)
      else Fail(Forbidden("access denied for this identity type"))
  }

  function GetIdentityIDFromContext(ctx: StdContext): Result<uint, Err> {
    match GetAuthFromContext(ctx)
    case None => Fail(Unauthorized("not authenticated"))
    case Some(ac) => if ac.identityID == 0 then Fail(Unauthorized("not authenticated")) else Ok(ac.identityID)
  }

  function WithAuth(request: Request, identity: Option<AuthContext>): Request {
    request.(ctx := WithValue(request.ctx, AuthKey, Auth(identity)))
  }

  /** The first space of `s`, or its length. */
  function FirstSpace(s: string): (i: nat)
    ensures i <= |s| && (i < |s| ==> s[i] == ' ') && forall j :: 0 <= j < i ==> s[j] != ' '
  {
    if s == [] || s[0] == ' ' then 0 else 1 + FirstSpace(s[1..])
  }

  function Lower(c: char): char {
    if 'A' <= c <= 'Z' then c - 'A' + 'a' else c
  }

  function LowerAll(s: string): (r: string)
    ensures |r| == |s| && forall i :: 0 <= i < |s| ==> r[i] == Lower(s[i])
  {
    if s == [] then [] else [Lower(s[0])] + LowerAll(s[1..])
  }

  /** The token of an Authorization header. */
  function BearerToken(header: string): Result<string, Err> {
    if header == "" then Fail(Unauthorized("missing authorization header"))
    else
      var i := FirstSpace(header);
      if i == |header| || LowerAll(header[..i]) != "bearer"
      then Fail(Unauthorized("authorization header must use bearer"))
      else Ok(header[i + 1..])
  }

  /** A token is found exactly behind a scheme that spells "bearer" in any case, and is the rest of the
      header whatever spaces it holds. */
  lemma BearerTokenExactly(scheme: string, token: string)
    requires ' ' !in scheme
    ensures BearerToken(scheme + " " + token) ==
            if LowerAll(scheme) == "bearer" then Ok(token)
            else Fail(Unauthorized("authorization header must use bearer"))
  {
    var header := scheme + " " + token;
    assert header[|scheme|] == ' ';
    assert forall j :: 0 <= j < |scheme| ==> header[j] == scheme[j];
    assert FirstSpace(header) == |scheme|;
    assert header[..|scheme|] == scheme && header[|scheme| + 1..] == token;
  }

  /** Spelled out: six letters, each in either case, then a space; a header without a space has no token. */
  lemma BearerInEitherCase(scheme: string, token: string)
    requires ' ' !in scheme
    ensures BearerToken(scheme + " " + token) == Ok(token) <==>
            |scheme| == 6 && forall i :: 0 <= i < 6 ==> scheme[i] == "bearer"[i] || scheme[i] == "BEARER"[i]
    ensures BearerToken(scheme + " " + token).Ok? || HasStatus(BearerToken(scheme + " " + token).error, 401)
    ensures BearerToken(scheme).Fail? && HasStatus(BearerToken(scheme).error, 401)
  {
    BearerTokenExactly(scheme, token);
    var lower := LowerAll(scheme);
    assert lower == "bearer" <==> |lower| == 6 && forall i :: 0 <= i < 6 ==> lower[i] == "bearer"[i];
    assert forall i :: 0 <= i < |scheme| && i < 6 ==>
      (lower[i] == "bearer"[i] <==> scheme[i] == "bearer"[i] || scheme[i] == "BEARER"[i]);
  }

  predicate IsDigit(c: char) { '0' <= c <= '9' }

  function DigitsValue(s: string): nat
    requires forall c :: c in s ==> IsDigit(c)
  {
    if s == [] then 0
    else
      assert IsDigit(s[|s| - 1]);
      DigitsValue(s[..|s| - 1]) * 10 + (s[|s| - 1] - '0') as nat
  }

  /** `strconv.ParseUint(s, 10, 64)`: non-empty, digits only, below 2^64. */
  function ParseUint(s: string): Option<uint> {
    if s == "" || exists c :: c in s && !IsDigit(c) then None
    else
      var v := DigitsValue(s);
      if v < UINT_LIMIT then Some(v) else None
  }

  function Decimal(n: nat): (s: string)
    ensures s != "" && forall c :: c in s ==> IsDigit(c)
  {
    var last := ['0' + (n % 10) as char];
    if n < 10 then last else Decimal(n / 10) + last
  }

  lemma {:induction false} DecimalValue(n: nat)
    ensures DigitsValue(Decimal(n)) == n
  {
    var s := Decimal(n);
    if n < 10 {
      assert s[..0] == [];
    } else {
      DecimalValue(n / 10);
      assert s[..|s| - 1] == Decimal(n / 10);
    }
  }

  /** Every id is the parse of its own decimal rendering. */
  lemma ParseUintInvertsDecimal(n: uint)
    ensures ParseUint(Decimal(n)) == Some(n)
  {
    DecimalValue(n);
  }
}
