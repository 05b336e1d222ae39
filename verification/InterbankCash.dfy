/** The local participant of an interbank payment: prepare a cash posting, then commit it or roll it back. */
module InterbankCash {
  import opened Prelude
  import opened Sequences
  import opened Text
  import opened AppErrors
  import opened ExchangeRates
  import opened Books

  /** `rows` is the order in which the database returns the client's accounts. */
  datatype PrepareRequest = PrepareRequest(
    postingID: string, accountNumber: string, clientID: nat, rows: seq<string>, currency: string, amount: real,
    userType: string, bankingTxID: nat, counterparty: string)

  datatype Verdict = Commit | Rollback

  function HasID(id: string): Posting -> bool { (p: Posting) => p.postingID == id }

  // ----- choosing the account -----

  function ClientRows(accounts: map<string, Account>, clientID: nat, rows: seq<string>): seq<Account> {
    if rows == [] then []
    else
      (if rows[0] in accounts && accounts[rows[0]].clientID == clientID then [accounts[rows[0]]] else [])
      + ClientRows(accounts, clientID, rows[1..])
  }

  function ActiveIn(currency: string): Account -> bool { (a: Account) => a.active && a.currency == currency }

  function Active(): Account -> bool { (a: Account) => a.active }

  /** The first active account in the posting's currency, else in RSD, else any. */
  function Preferred(rows: seq<Account>, currency: string): Option<Account> {
    match IndexOf(rows, ActiveIn(currency))
    case Some(i) => Some(rows[i])
    case None =>
      match IndexOf(rows, ActiveIn(RSD))
      case Some(j) => Some(rows[j])
      case None =>
        match IndexOf(rows, Active())
        case Some(k) => Some(rows[k])
        case None => None
  }

  /** The preferred account is active, in the posting's currency if any active one is, else in RSD if any
      active one is, and there is none only if no account is active. */
  lemma PreferredExactly(rows: seq<Account>, currency: string)
    ensures var picked := Preferred(rows, currency);
      && (picked.Some? ==> picked.value in rows && picked.value.active)
      && (picked.None? <==> forall a :: a in rows ==> !a.active)
      && ((exists a :: a in rows && a.active && a.currency == currency) ==> picked.value.currency == currency)
      && ((exists a :: a in rows && a.active && a.currency == RSD) ==> picked.value.currency in {currency, RSD})
  {
    forall a | a in rows
      ensures exists i :: 0 <= i < |rows| && rows[i] == a
    {
    }
  }

  /** The database returns all rows of the client, in some order. */
  predicate ListsAll(rows: seq<string>, accounts: map<string, Account>) {
    forall n :: n in accounts ==> n in rows
  }

  /** Is one of the client's active accounts in this currency? */
  predicate HasActive(accounts: map<string, Account>, clientID: nat, currency: string) {
    exists n :: n in accounts && accounts[n].clientID == clientID && accounts[n].active && accounts[n].currency == currency
  }

  /** Of all the client's accounts, in whatever order they come, the one picked is active, in the posting's
      currency if the client has such an active account, else in RSD if the client has one there, and none is
      picked only if the client has no active account. */
  lemma PreferredAmongTheClients(accounts: map<string, Account>, clientID: nat, rows: seq<string>, currency: string)
    requires Keyed(accounts) && ListsAll(rows, accounts)
    ensures var picked := Preferred(ClientRows(accounts, clientID, rows), currency);
      && (picked.Some? ==>
            var a := picked.value;
            a.number in accounts && accounts[a.number] == a && a.clientID == clientID && a.active)
      && (picked.None? <==> forall n :: n in accounts && accounts[n].clientID == clientID ==> !accounts[n].active)
      && (HasActive(accounts, clientID, currency) ==> picked.Some? && picked.value.currency == currency)
      && (HasActive(accounts, clientID, RSD) ==> picked.Some? && picked.value.currency in {currency, RSD})
  {
    var all := ClientRows(accounts, clientID, rows);
    RowsAreAccounts(accounts, clientID, rows);
    PreferredExactly(all, currency);
    assert forall n :: n in accounts && accounts[n].clientID == clientID ==> accounts[n] in all;
  }

  method PickAccount(rows: seq<Account>, currency: string) returns (picked: Option<Account>)
    ensures picked == Preferred(rows, currency)
  {
    var rsdAccount, anyAccount: Option<Account> := None, None;
    for i := 0 to |rows|
      invariant forall j :: 0 <= j < i ==> !ActiveIn(currency)(rows[j])
      invariant rsdAccount == First(rows[..i], ActiveIn(RSD))
      invariant anyAccount == First(rows[..i], Active())
    {
      FirstOfLonger(rows, i, ActiveIn(RSD));
      FirstOfLonger(rows, i, Active());
      if !rows[i].active {
        continue;
      }
      if rows[i].currency == currency {
        return Some(rows[i]);
      }
      if rows[i].currency == RSD && rsdAccount == None {
        rsdAccount := Some(rows[i]);
      }
      if anyAccount == None {
        anyAccount := Some(rows[i]);
      }
    }
    assert rows[..|rows|] == rows;
    return if rsdAccount.Some? then rsdAccount else anyAccount;
  }

  function First(rows: seq<Account>, p: Account -> bool): Option<Account> {
    match IndexOf(rows, p) case Some(i) => Some(rows[i]) case None => None
  }

  lemma FirstOfLonger(rows: seq<Account>, i: nat, p: Account -> bool)
    requires i < |rows|
    ensures First(rows[..i + 1], p) ==
            if First(rows[..i], p).Some? then First(rows[..i], p) else if p(rows[i]) then Some(rows[i]) else None
  {
    var shorter, longer := rows[..i], rows[..i + 1];
    assert forall j :: 0 <= j < i ==> shorter[j] == longer[j];
    assert longer[i] == rows[i];
  }

  function ResolveAccount(accounts: map<string, Account>, req: PrepareRequest, down: set<RepoOp>): Result<Account, Err> {
    if req.accountNumber != "" then
      if FindAccount in down then Fail(DB_FAILURE)
      else if req.accountNumber !in accounts then Fail(Missing("account not found"))
      else Ok(accounts[req.accountNumber])
    else if req.userType == "EMPLOYEE" then
      if req.currency !in BANK_ACCOUNTS then Fail(BadRequest("no bank account for this currency"))
      else if FindAccount in down then Fail(DB_FAILURE)
      else if BANK_ACCOUNTS[req.currency] !in accounts then Fail(Missing("bank account not found"))
      else Ok(accounts[BANK_ACCOUNTS[req.currency]])
    else if req.clientID == 0 then Fail(BadRequest("client id or account number is required"))
    else if FindClientAccounts in down then Fail(DB_FAILURE)
    else
      match Preferred(ClientRows(accounts, req.clientID, req.rows), req.currency)
      case Some(a) => Ok(a)
      case None => Fail(Missing("no active account for client"))
  }

  // ----- preparing -----

  /** Takes an outgoing amount out of the available balance; an incoming one changes nothing yet. */
  function Hold(accounts: map<string, Account>, n: string, amount: real, down: set<RepoOp>): Result<map<string, Account>, Err>
    requires n in accounts
  {
    if amount >= 0.0 then Ok(accounts)
    else if accounts[n].available < -amount then Fail(BadRequest("insufficient funds"))
    else if UpdateAccount in down then Fail(DB_FAILURE)
    else Ok(accounts[n := Moved(accounts, n, 0.0, amount)])
  }

  function PrepareNew(b: Books, req: PrepareRequest, rates: RatesRead, down: set<RepoOp>): Result<(map<string, Account>, Posting), Err> {
    match ResolveAccount(b.accounts, req, down)
    case Fail(e) => Fail(e)
    case Ok(account) =>
      match Convert(req.amount, req.currency, account.currency, rates)
      case Fail(e) => Fail(e)
      case Ok(amount) =>
        if account.number !in b.accounts then Fail(DB_FAILURE)
        else
          match Hold(b.accounts, account.number, amount, down)
          case Fail(e) => Fail(e)
          case Ok(accounts) =>
            if CreatePosting in down then Fail(DB_FAILURE)
            else Ok((accounts, Posting(req.postingID, account.number, account.currency, amount, req.currency,
                                       req.amount, Prepared, req.bankingTxID, req.counterparty)))
  }

  /** A new posting keeps the request and freezes its amount converted into the account's own currency. */
  lemma PostingTerms(b: Books, req: PrepareRequest, rates: RatesRead, down: set<RepoOp>)
    requires Keyed(b.accounts)
    ensures match PrepareNew(b, req, rates, down)
      case Fail(_) => true
      case Ok((_, p)) =>
        && p.account in b.accounts && p.currency == b.accounts[p.account].currency
        && p.requestedAmount == req.amount && p.requestedCurrency == req.currency
        && Convert(p.requestedAmount, p.requestedCurrency, p.currency, rates) == Ok(p.amount)
        && (req.accountNumber != "" ==> p.account == req.accountNumber)
  {
    RowsAreAccounts(b.accounts, req.clientID, req.rows);
  }

  /** Preparing: a posting id stands for one request for good. A prepared or committed posting answers a
      repeat; a rolled back one is held again, with the amount that was frozen the first time. */
  function PrepareOn(b: Books, req: PrepareRequest, rates: RatesRead, down: set<RepoOp>): (Books, Result<Posting, Err>) {
    if FindPosting in down then (b, Fail(DB_FAILURE))
    else
      match IndexOf(b.postings, HasID(req.postingID))
      case None =>
        var outcome := PrepareNew(b, req, rates, down);
        if outcome.Fail? then (b, Fail(outcome.error))
        else (b.(accounts := outcome.value.0, postings := b.postings + [outcome.value.1]), Ok(outcome.value.1))
      case Some(i) =>
        var p := b.postings[i];
        if p.requestedAmount != req.amount || p.requestedCurrency != req.currency then
          (b, Fail(Conflict("posting id already exists with different parameters")))
        else if p.status != RolledBack then (b, Ok(p))
        else if FindAccount in down then (b, Fail(DB_FAILURE))
        else if p.account !in b.accounts then (b, Fail(Missing("account not found")))
        else
          match Hold(b.accounts, p.account, p.amount, down)
          case Fail(e) => (b, Fail(e))
          case Ok(accounts) =>
            if SavePosting in down then (b, Fail(DB_FAILURE))
            else
              var again := p.(status := Prepared);
              (b.(accounts := accounts, postings := b.postings[i := again]), Ok(again))
  }

  function Malformed(req: PrepareRequest): Option<Err> {
    if req.postingID == "" then Some(BadRequest("posting id is required"))
    else if req.amount == 0.0 then Some(BadRequest("amount must not be zero"))
    else if req.currency !in ALLOWED_CURRENCIES then Some(BadRequest("unsupported currency"))
    else None
  }

  function Trimmed(req: PrepareRequest): PrepareRequest {
    req.(postingID := Trim(req.postingID), accountNumber := Trim(req.accountNumber))
  }

  function Prepare(b: Books, request: PrepareRequest, rates: RatesRead, down: set<RepoOp>): (Books, Result<Posting, Err>) {
    var req := Trimmed(request);
    if Malformed(req).Some? then (b, Fail(Malformed(req).value)) else PrepareOn(b, req, rates, down)
  }

  // ----- deciding -----

  /** The payment-history entry of a committed posting that no local payment started. */
  function HistoryEntry(p: Posting): Transaction {
    var requested := if p.requestedAmount < 0.0 then -p.requestedAmount else p.requestedAmount;
    if p.amount < 0.0 then
      Transaction(p.account, p.counterparty, requested, p.requestedCurrency, -p.amount, p.currency,
                  0.0, Completed, CashRecord(p.postingID))
    else
      Transaction(p.counterparty, p.account, requested, p.requestedCurrency, p.amount, p.currency,
                  0.0, Completed, CashRecord(p.postingID))
  }

  /** The history names the local account on the side that paid or received, with the amount by which the
      commit moved its balance. */
  lemma HistoryAgreesWithTheBooks(p: Posting)
    requires p.status.CashCommitted?
    ensures var t, moved := HistoryEntry(p), PostedBy(p.account)(p);
      && t.endAmount >= 0.0 && t.endCurrency == p.currency && t.startCurrency == p.requestedCurrency
      && (moved < 0.0 ==> t.payer == p.account && t.recipient == p.counterparty && t.endAmount == -moved)
      && (moved >= 0.0 ==> t.recipient == p.account && t.payer == p.counterparty && t.endAmount == moved)
      && (t.startAmount == p.requestedAmount || t.startAmount == -p.requestedAmount) && t.startAmount >= 0.0
  {
  }

  /** The journal with the history of a posting that is being committed. */
  function Recorded(b: Books, p: Posting, down: set<RepoOp>): Result<seq<Transaction>, Err> {
    if p.bankingTxID != 0 then
      if GetTransaction in down || p.bankingTxID > |b.journal| then Fail(DB_FAILURE) else Ok(b.journal)
    else if CreateTransaction in down || CreatePayment in down then Fail(DB_FAILURE)
    else Ok(b.journal + [HistoryEntry(p)])
  }

  function Decided(verdict: Verdict): PostingStatus {
    match verdict case Commit => CashCommitted case Rollback => RolledBack
  }

  /** The books after the decision on a prepared posting, apart from the posting's own row. */
  function Settle(b: Books, verdict: Verdict, p: Posting, down: set<RepoOp>): Result<Books, Err>
    requires p.account in b.accounts
  {
    if verdict.Rollback? then
      if p.amount >= 0.0 then Ok(b)
      else if UpdateAccount in down then Fail(DB_FAILURE)
      else Ok(b.(accounts := b.accounts[p.account := Moved(b.accounts, p.account, 0.0, -p.amount)]))
    else if p.amount < 0.0 && b.accounts[p.account].balance < -p.amount then Fail(BadRequest("insufficient balance"))
    else if UpdateAccount in down then Fail(DB_FAILURE)
    else
      match Recorded(b, p, down)
      case Fail(e) => Fail(e)
      case Ok(journal) =>
        var credited := if p.amount < 0.0 then 0.0 else p.amount;
        Ok(b.(accounts := b.accounts[p.account := Moved(b.accounts, p.account, p.amount, credited)], journal := journal))
  }

  /** One decision: it settles a prepared posting, repeats without effect, and never reverses the other. */
  function DecideOn(b: Books, verdict: Verdict, id: string, down: set<RepoOp>): (Books, Result<Posting, Err>) {
    if FindPosting in down then (b, Fail(DB_FAILURE))
    else
      match IndexOf(b.postings, HasID(id))
      case None => (b, Fail(Missing("interbank cash posting not found")))
      case Some(i) =>
        var p := b.postings[i];
        if FindAccount in down then (b, Fail(DB_FAILURE))
        else if p.account !in b.accounts then (b, Fail(Missing("account not found")))
        else if p.status == Decided(verdict) then
          if SavePosting in down then (b, Fail(DB_FAILURE)) else (b, Ok(p))
        else if p.status != Prepared then
          (b, Fail(BadRequest(if verdict.Commit? then "cannot commit rolled back posting" else "cannot rollback committed posting")))
        else
          match Settle(b, verdict, p, down)
          case Fail(e) => (b, Fail(e))
          case Ok(after) =>
            if SavePosting in down then (b, Fail(DB_FAILURE))
            else
              var decided := p.(status := Decided(verdict));
              (after.(postings := b.postings[i := decided]), Ok(decided))
  }

  function Decide(b: Books, verdict: Verdict, postingID: string, down: set<RepoOp>): (Books, Result<Posting, Err>) {
    if Trim(postingID) == "" then (b, Fail(BadRequest("posting id is required")))
    else DecideOn(b, verdict, Trim(postingID), down)
  }

  /** Preparing leaves the books alone, adds one posting, or holds a rolled back one again; an outgoing
      amount is held, and only if it is available. */
  lemma PrepareShape(b: Books, req: PrepareRequest, rates: RatesRead, down: set<RepoOp>)
    requires Keyed(b.accounts)
    ensures var (after, result) := PrepareOn(b, req, rates, down);
      || after == b
      || (&& result.Ok?
          && var p := result.value;
          && p.status.Prepared? && p.account in b.accounts
          && (p.amount < 0.0 ==> -p.amount <= b.accounts[p.account].available)
          && after.accounts == Holding(b.accounts, p)
          && after.journal == b.journal && after.reservations == b.reservations
          && match IndexOf(b.postings, HasID(req.postingID))
             case None => p.postingID == req.postingID && after.postings == b.postings + [p]
             case Some(i) => b.postings[i].status.RolledBack? && p == b.postings[i].(status := Prepared) &&
                             after.postings == b.postings[i := p])
  {
    RowsAreAccounts(b.accounts, req.clientID, req.rows);
  }

  function Holding(accounts: map<string, Account>, p: Posting): map<string, Account>
    requires p.account in accounts
  {
    if p.amount < 0.0 then accounts[p.account := Moved(accounts, p.account, 0.0, p.amount)] else accounts
  }

  /** Deciding leaves the books alone or settles one prepared posting. */
  lemma DecideShape(b: Books, verdict: Verdict, id: string, down: set<RepoOp>)
    ensures var after := DecideOn(b, verdict, id, down).0;
      || after == b
      || (&& IndexOf(b.postings, HasID(id)).Some?
          && var i := IndexOf(b.postings, HasID(id)).value;
          && var p := b.postings[i];
          && p.status.Prepared? && p.account in b.accounts
          && after.postings == b.postings[i := p.(status := Decided(verdict))]
          && after.reservations == b.reservations
          && after.journal == (if verdict.Commit? && p.bankingTxID == 0 then b.journal + [HistoryEntry(p)] else b.journal)
          && after.accounts == Deciding(b.accounts, verdict, p))
  {
  }

  function Deciding(accounts: map<string, Account>, verdict: Verdict, p: Posting): map<string, Account>
    requires p.account in accounts
  {
    var outgoing := p.amount < 0.0;
    if verdict.Commit? then
      accounts[p.account := Moved(accounts, p.account, p.amount, if outgoing then 0.0 else p.amount)]
    else if outgoing then accounts[p.account := Moved(accounts, p.account, 0.0, -p.amount)]
    else accounts
  }

  // ----- the service -----

  method PreparePosting(db: Database, request: PrepareRequest, rates: RatesRead, down: set<RepoOp>)
    returns (result: Result<Posting, Err>)
    requires Keyed(db.accounts)
    modifies db
    ensures (db.View(), result) == Prepare(old(db.View()), request, rates, down)
  {
    var req := request.(postingID := Trim(request.postingID), accountNumber := Trim(request.accountNumber));
    if req.postingID == "" {
      return Fail(BadRequest("posting id is required"));
    }
    if req.amount == 0.0 {
      return Fail(BadRequest("amount must not be zero"));
    }
    if req.currency !in ALLOWED_CURRENCIES {
      return Fail(BadRequest("unsupported currency"));
    }
    var before := db.View();
    result := PrepareWithinTransaction(db, req, rates, down);
    if result.Fail? {
      db.Rollback(before);
    }
  }

  method PrepareWithinTransaction(db: Database, req: PrepareRequest, rates: RatesRead, down: set<RepoOp>)
    returns (result: Result<Posting, Err>)
    requires Keyed(db.accounts)
    modifies db
    ensures result == PrepareOn(old(db.View()), req, rates, down).1
    ensures result.Ok? ==> db.View() == PrepareOn(old(db.View()), req, rates, down).0
  {
    if FindPosting in down {
      return Fail(DB_FAILURE);
    }
    var existing := IndexOf(db.postings, HasID(req.postingID));
    if existing.None? {
      result := OpenPosting(db, req, rates, down);
      return;
    }
    var p := db.postings[existing.value];
    if p.requestedAmount != req.amount || p.requestedCurrency != req.currency {
      return Fail(Conflict("posting id already exists with different parameters"));
    }
    if p.status != RolledBack {
      return Ok(p);
    }
    if FindAccount in down {
      return Fail(DB_FAILURE);
    }
    if p.account !in db.accounts {
      return Fail(Missing("account not found"));
    }
    var error := HoldAmount(db, db.accounts[p.account], p.amount, down);
    if error.Some? {
      return Fail(error.value);
    }
    p := p.(status := Prepared);
    if SavePosting in down {
      return Fail(DB_FAILURE);
    }
    db.postings := db.postings[existing.value := p];
    return Ok(p);
  }

  method HoldAmount(db: Database, account: Account, amount: real, down: set<RepoOp>) returns (error: Option<Err>)
    requires account.number in db.accounts && account == db.accounts[account.number]
    modifies db`accounts
    ensures match Hold(old(db.accounts), account.number, amount, down)
      case Ok(accounts) => error == None && db.accounts == accounts
      case Fail(e) => error == Some(e)
  {
    if amount < 0.0 {
      var required := -amount;
      if account.available < required {
        return Some(BadRequest("insufficient funds"));
      }
      if UpdateAccount in down {
        return Some(DB_FAILURE);
      }
      db.UpdateBalance(account.(available := account.available - required));
    }
    return None;
  }

  method OpenPosting(db: Database, req: PrepareRequest, rates: RatesRead, down: set<RepoOp>)
    returns (result: Result<Posting, Err>)
    requires Keyed(db.accounts)
    modifies db
    ensures match PrepareNew(old(db.View()), req, rates, down)
      case Ok((accounts, p)) => result == Ok(p) &&
        db.View() == old(db.View()).(accounts := accounts, postings := old(db.postings) + [p])
      case Fail(e) => result == Fail(e)
  {
    var resolved := Resolve(db, req, down);
    if resolved.Fail? {
      return Fail(resolved.error);
    }
    var account, amount := resolved.value, req.amount;
    if account.currency != req.currency {
      var converted := Convert(amount, req.currency, account.currency, rates);
      if converted.Fail? {
        return Fail(converted.error);
      }
      amount := converted.value;
    }
    var error := HoldAmount(db, account, amount, down);
    if error.Some? {
      return Fail(error.value);
    }
    if CreatePosting in down {
      return Fail(DB_FAILURE);
    }
    var posting := Posting(req.postingID, account.number, account.currency, amount, req.currency, req.amount,
                           Prepared, req.bankingTxID, req.counterparty);
    db.postings := db.postings + [posting];
    return Ok(posting);
  }

  method Resolve(db: Database, req: PrepareRequest, down: set<RepoOp>) returns (result: Result<Account, Err>)
    requires Keyed(db.accounts)
    ensures result == ResolveAccount(db.accounts, req, down)
    ensures result.Ok? ==> result.value.number in db.accounts && result.value == db.accounts[result.value.number]
  {
    if req.accountNumber != "" {
      if FindAccount in down {
        return Fail(DB_FAILURE);
      }
      if req.accountNumber !in db.accounts {
        return Fail(Missing("account not found"));
      }
      return Ok(db.accounts[req.accountNumber]);
    }
    if req.userType == "EMPLOYEE" {
      if req.currency !in BANK_ACCOUNTS {
        return Fail(BadRequest("no bank account for this currency"));
      }
      if FindAccount in down {
        return Fail(DB_FAILURE);
      }
      if BANK_ACCOUNTS[req.currency] !in db.accounts {
        return Fail(Missing("bank account not found"));
      }
      return Ok(db.accounts[BANK_ACCOUNTS[req.currency]]);
    }
    if req.clientID == 0 {
      return Fail(BadRequest("client id or account number is required"));
    }
    if FindClientAccounts in down {
      return Fail(DB_FAILURE);
    }
    var picked := PickAccount(ClientRows(db.accounts, req.clientID, req.rows), req.currency);
    RowsAreAccounts(db.accounts, req.clientID, req.rows);
    if picked.Some? {
      return Ok(picked.value);
    }
    return Fail(Missing("no active account for client"));
  }

  lemma {:induction false} RowsAreAccounts(accounts: map<string, Account>, clientID: nat, rows: seq<string>)
    requires Keyed(accounts)
    ensures forall a :: a in ClientRows(accounts, clientID, rows) ==>
              a.number in accounts && a == accounts[a.number] && a.clientID == clientID
    ensures forall n :: n in rows && n in accounts && accounts[n].clientID == clientID ==>
              accounts[n] in ClientRows(accounts, clientID, rows)
  {
    if rows != [] {
      RowsAreAccounts(accounts, clientID, rows[1..]);
    }
  }

  /** `Commit` and `Rollback` of the service. */
  method DecidePosting(db: Database, verdict: Verdict, postingID: string, down: set<RepoOp>)
    returns (result: Result<Posting, Err>)
    requires Keyed(db.accounts)
    modifies db
    ensures (db.View(), result) == Decide(old(db.View()), verdict, postingID, down)
  {
    var id := Trim(postingID);
    if id == "" {
      return Fail(BadRequest("posting id is required"));
    }
    var before := db.View();
    result := DecideWithinTransaction(db, verdict, id, down);
    if result.Fail? {
      db.Rollback(before);
    }
  }

  method DecideWithinTransaction(db: Database, verdict: Verdict, id: string, down: set<RepoOp>)
    returns (result: Result<Posting, Err>)
    requires Keyed(db.accounts)
    modifies db
    ensures result == DecideOn(old(db.View()), verdict, id, down).1
    ensures result.Ok? ==> db.View() == DecideOn(old(db.View()), verdict, id, down).0
  {
    if FindPosting in down {
      return Fail(DB_FAILURE);
    }
    var found := IndexOf(db.postings, HasID(id));
    if found.None? {
      return Fail(Missing("interbank cash posting not found"));
    }
    var posting := db.postings[found.value];
    if FindAccount in down {
      return Fail(DB_FAILURE);
    }
    if posting.account !in db.accounts {
      return Fail(Missing("account not found"));
    }
    if posting.status != Decided(verdict) {
      if posting.status != Prepared {
        return Fail(BadRequest(if verdict.Commit? then "cannot commit rolled back posting" else "cannot rollback committed posting"));
      }
      var error := MoveMoney(db, verdict, posting, down);
      if error.Some? {
        return Fail(error.value);
      }
      posting := posting.(status := Decided(verdict));
    }
    if SavePosting in down {
      return Fail(DB_FAILURE);
    }
    ghost var stored := db.postings;
    db.postings := db.postings[found.value := posting];
    assert posting == stored[found.value] ==> db.postings == stored;
    return Ok(posting);
  }

  method MoveMoney(db: Database, verdict: Verdict, p: Posting, down: set<RepoOp>) returns (error: Option<Err>)
    requires Keyed(db.accounts) && p.account in db.accounts
    modifies db`accounts, db`journal
    ensures match Settle(old(db.View()), verdict, p, down)
      case Ok(after) => error == None && db.View() == after
      case Fail(e) => error == Some(e)
  {
    var account := db.accounts[p.account];
    if verdict.Rollback? {
      if p.amount < 0.0 {
        if UpdateAccount in down {
          return Some(DB_FAILURE);
        }
        db.UpdateBalance(account.(available := account.available - p.amount));
      }
      return None;
    }
    if p.amount < 0.0 {
      var required := -p.amount;
      if account.balance < required {
        return Some(BadRequest("insufficient balance"));
      }
      account := account.(balance := account.balance - required);
    } else {
      account := account.(balance := account.balance + p.amount, available := account.available + p.amount);
    }
    if UpdateAccount in down {
      return Some(DB_FAILURE);
    }
    db.UpdateBalance(account);
    error := RecordPaymentHistory(db, p, down);
  }

  method RecordPaymentHistory(db: Database, p: Posting, down: set<RepoOp>) returns (error: Option<Err>)
    modifies db`journal
    ensures match Recorded(old(db.View()), p, down)
      case Ok(journal) => error == None && db.journal == journal
      case Fail(e) => error == Some(e)
  {
    if p.bankingTxID != 0 {
      if GetTransaction in down || p.bankingTxID > |db.journal| {
        return Some(DB_FAILURE);
      }
      return None;
    }
    if CreateTransaction in down {
      return Some(DB_FAILURE);
    }
    db.journal := db.journal + [HistoryEntry(p)];
    if CreatePayment in down {
      return Some(DB_FAILURE);
    }
    return None;
  }
}
