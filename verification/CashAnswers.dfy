/** What callers of the interbank cash participant are answered, in terms of requests and rows alone. */
module CashAnswers {
  import opened Prelude
  import opened Sequences
  import opened Text
  import opened AppErrors
  import opened ExchangeRates
  import opened Books
  import Cash = InterbankCash

  predicate Names(b: Books, postingID: string, i: nat) {
    && i < |b.postings| && b.postings[i].postingID == Trim(postingID)
    && forall k :: 0 <= k < i ==> b.postings[k].postingID != Trim(postingID)
  }

  predicate NamesNone(b: Books, postingID: string) {
    forall p :: p in b.postings ==> p.postingID != Trim(postingID)
  }

  lemma NamedIsFound(b: Books, postingID: string, i: nat)
    requires Names(b, postingID, i)
    ensures IndexOf(b.postings, Cash.HasID(Trim(postingID))) == Some(i)
  {
    assert Cash.HasID(Trim(postingID))(b.postings[i]);
  }

  lemma NoneIsFound(b: Books, postingID: string)
    requires NamesNone(b, postingID)
    ensures IndexOf(b.postings, Cash.HasID(Trim(postingID))).None?
  {
    assert forall i :: 0 <= i < |b.postings| ==> b.postings[i] in b.postings;
  }

  // ----- the account of a posting -----

  /** The bank's account for a currency, by its last digit. */
  predicate IsBanksAccount(n: string, currency: string) {
    exists digit :: n == "44400000000000000" + [digit] &&
      ((currency == "RSD" && digit == '0') || (currency == "EUR" && digit == '1') || (currency == "USD" && digit == '2') ||
       (currency == "CHF" && digit == '3') || (currency == "GBP" && digit == '4') || (currency == "JPY" && digit == '5') ||
       (currency == "CAD" && digit == '6') || (currency == "AUD" && digit == '7'))
  }

  lemma BanksAccounts(currency: string)
    ensures currency in BANK_ACCOUNTS <==> IsKnown(currency)
    ensures currency in BANK_ACCOUNTS ==> IsBanksAccount(BANK_ACCOUNTS[currency], currency)
  {
    if currency in BANK_ACCOUNTS {
      var n := BANK_ACCOUNTS[currency];
      assert n == "44400000000000000" + [n[17]];
    }
  }

  /** A posting that names an account is for that account, or refused with 404 if there is none. */
  lemma NamedAccount(accounts: map<string, Account>, req: Cash.PrepareRequest)
    requires req.accountNumber != ""
    ensures var resolved := Cash.ResolveAccount(accounts, req, {});
      if req.accountNumber in accounts then resolved == Ok(accounts[req.accountNumber])
      else resolved.Fail? && HasStatus(resolved.error, 404)
  {
  }

  /** An employee's posting that names none is for the bank's own account of its currency. */
  lemma EmployeesAccount(accounts: map<string, Account>, req: Cash.PrepareRequest)
    requires req.accountNumber == "" && req.userType == "EMPLOYEE"
    ensures var resolved := Cash.ResolveAccount(accounts, req, {});
      && (resolved.Ok? ==> exists n :: n in accounts && IsBanksAccount(n, req.currency) && resolved.value == accounts[n])
      && (!IsKnown(req.currency) ==> resolved.Fail? && HasStatus(resolved.error, 400))
      && (IsKnown(req.currency) && (forall n :: n in accounts ==> !IsBanksAccount(n, req.currency)) ==>
            resolved.Fail? && HasStatus(resolved.error, 404))
      && (resolved.Fail? ==> !IsKnown(req.currency) || HasStatus(resolved.error, 404))
  {
    BanksAccounts(req.currency);
  }

  /** Anybody else's is for one of the client's active accounts, in the posting's currency if there is one, else in
      RSD if there is one; it is refused with 400 without a client, and with 404 without an active account. */
  lemma ClientsAccount(accounts: map<string, Account>, req: Cash.PrepareRequest)
    requires Keyed(accounts) && Cash.ListsAll(req.rows, accounts) && req.accountNumber == "" && req.userType != "EMPLOYEE"
    ensures var resolved := Cash.ResolveAccount(accounts, req, {});
      if req.clientID == 0 then resolved.Fail? && HasStatus(resolved.error, 400)
      else if forall n :: n in accounts && accounts[n].clientID == req.clientID ==> !accounts[n].active then
        resolved.Fail? && HasStatus(resolved.error, 404)
      else
        && resolved.Ok?
        && var a := resolved.value;
        && a.number in accounts && accounts[a.number] == a && a.clientID == req.clientID && a.active
        && (Cash.HasActive(accounts, req.clientID, req.currency) ==> a.currency == req.currency)
        && (Cash.HasActive(accounts, req.clientID, "RSD") ==> a.currency == req.currency || a.currency == "RSD")
  {
    Cash.PreferredAmongTheClients(accounts, req.clientID, req.rows, req.currency);
  }

  // ----- preparing -----

  predicate WellFormed(req: Cash.PrepareRequest) {
    Trim(req.postingID) != "" && req.amount != 0.0 && IsKnown(req.currency)
  }

  lemma WellFormedExactly(req: Cash.PrepareRequest)
    ensures var refusal := Cash.Malformed(Cash.Trimmed(req));
      (refusal.None? <==> WellFormed(req)) && (refusal.Some? ==> HasStatus(refusal.value, 400))
  {
    EightCurrencies(req.currency);
  }

  /** A malformed request is refused with 400, whatever else holds. */
  lemma MalformedIsRefused(b: Books, req: Cash.PrepareRequest, rates: RatesRead, down: set<RepoOp>)
    requires !WellFormed(req)
    ensures var (c, result) := Cash.Prepare(b, req, rates, down);
      c == b && result.Fail? && HasStatus(result.error, 400)
  {
    WellFormedExactly(req);
  }

  /** A posting id stands for one amount in one currency for good. Asked for anything else it is refused with 409.
      A prepared or committed posting answers a repeat as it is; a rolled back one is held again, its frozen
      amount permitting: 400 if the account has too little, 404 if it is gone. */
  lemma UsedIdAnswers(b: Books, req: Cash.PrepareRequest, rates: RatesRead, i: nat)
    requires WellFormed(req) && Names(b, req.postingID, i)
    ensures var (c, result), p := Cash.Prepare(b, req, rates, {}), b.postings[i];
      if p.requestedAmount != req.amount || p.requestedCurrency != req.currency then
        c == b && result.Fail? && HasStatus(result.error, 409)
      else if p.status == Prepared || p.status == CashCommitted then c == b && result == Ok(p)
      else if p.account !in b.accounts then c == b && result.Fail? && HasStatus(result.error, 404)
      else if p.amount < 0.0 && b.accounts[p.account].available < -p.amount then
        c == b && result.Fail? && HasStatus(result.error, 400)
      else
        && result == Ok(p.(status := Prepared))
        && c == b.(accounts := c.accounts, postings := b.postings[i := p.(status := Prepared)])
        && Holds(b.accounts, c.accounts, p.account, p.amount)
  {
    NamedIsFound(b, req.postingID, i);
    WellFormedExactly(req);
  }

  /** An outgoing amount is no longer available, and nothing else changes. */
  predicate Holds(before: map<string, Account>, after: map<string, Account>, n: string, amount: real)
    requires n in before
  {
    after == if amount >= 0.0 then before else before[n := before[n].(available := before[n].available + amount)]
  }

  /** A new posting id: refused as its account, its conversion or its hold is; else the row shows the request and
      the amount in the currency of the account, and is prepared. */
  lemma NewIdAnswers(b: Books, request: Cash.PrepareRequest, rates: RatesRead)
    requires WellFormed(request) && NamesNone(b, request.postingID) && Keyed(b.accounts)
    ensures var (c, result), req := Cash.Prepare(b, request, rates, {}), Cash.Trimmed(request);
      && req.accountNumber == Trim(request.accountNumber) && req.postingID == Trim(request.postingID)
      && var resolved := Cash.ResolveAccount(b.accounts, req, {});
      if resolved.Fail? then c == b && result == Fail(resolved.error)
      else
        var a := resolved.value;
        var amount := Convert(request.amount, request.currency, a.currency, rates);
        if amount.Fail? then c == b && result == Fail(amount.error)
        else if amount.value < 0.0 && a.available < -amount.value then c == b && result.Fail? && HasStatus(result.error, 400)
        else
          && a.number in b.accounts
          && result == Ok(Posting(Trim(request.postingID), a.number, a.currency, amount.value, request.currency, request.amount,
                                  Prepared, request.bankingTxID, request.counterparty))
          && c == b.(accounts := c.accounts, postings := b.postings + [result.value])
          && Holds(b.accounts, c.accounts, a.number, amount.value)
  {
    NoneIsFound(b, request.postingID);
    WellFormedExactly(request);
    ResolvedIsThere(b.accounts, Cash.Trimmed(request));
  }

  lemma ResolvedIsThere(accounts: map<string, Account>, req: Cash.PrepareRequest)
    requires Keyed(accounts)
    ensures var resolved := Cash.ResolveAccount(accounts, req, {});
      resolved.Ok? ==> resolved.value.number in accounts && accounts[resolved.value.number] == resolved.value
  {
    Cash.RowsAreAccounts(accounts, req.clientID, req.rows);
  }

  // ----- deciding -----

  predicate Moves(before: map<string, Account>, after: map<string, Account>, n: string, balance: real, available: real)
    requires n in before
  {
    after == before[n := before[n].(balance := before[n].balance + balance, available := before[n].available + available)]
  }

  /** Committing, spelled out: 400 without an id, and 404 without the posting or its account; a committed posting
      answers a repeat, a rolled back one is refused with 400, as is one that the account cannot pay; a prepared
      one is committed, and its money has moved. */
  lemma CommitAnswers(b: Books, postingID: string, i: nat)
    requires Trim(postingID) != "" && Names(b, postingID, i)
    ensures var (c, result), p := Cash.Decide(b, Cash.Commit, postingID, {}), b.postings[i];
      if p.account !in b.accounts then c == b && result.Fail? && HasStatus(result.error, 404)
      else if p.status == CashCommitted then c == b && result == Ok(p)
      else if p.status == RolledBack then c == b && result.Fail? && HasStatus(result.error, 400)
      else if p.amount < 0.0 && b.accounts[p.account].balance < -p.amount then
        c == b && result.Fail? && HasStatus(result.error, 400)
      else if p.bankingTxID > |b.journal| then c == b && result.Fail? && HasStatus(result.error, 500)
      else
        && result == Ok(p.(status := CashCommitted))
        && c.postings == b.postings[i := result.value] && c.reservations == b.reservations
        && Moves(b.accounts, c.accounts, p.account, p.amount, if p.amount < 0.0 then 0.0 else p.amount)
        && (if p.bankingTxID != 0 then c.journal == b.journal
            else |c.journal| == |b.journal| + 1 && c.journal[..|b.journal|] == b.journal &&
                 ShowsPosting(c.journal[|b.journal|], p))
  {
    NamedIsFound(b, postingID, i);
  }

  /** The history entry of a committed posting. */
  predicate ShowsPosting(t: Transaction, p: Posting) {
    && t.status.Completed? && t.origin == CashRecord(p.postingID) && t.commission == 0.0
    && t.startAmount >= 0.0 && (t.startAmount == p.requestedAmount || t.startAmount == -p.requestedAmount)
    && t.endAmount >= 0.0 && (t.endAmount == p.amount || t.endAmount == -p.amount)
    && t.startCurrency == p.requestedCurrency && t.endCurrency == p.currency
    && if p.amount < 0.0 then t.payer == p.account && t.recipient == p.counterparty
       else t.payer == p.counterparty && t.recipient == p.account
  }

  /** Rolling back, spelled out likewise: what was held is available again. */
  lemma RollbackAnswers(b: Books, postingID: string, i: nat)
    requires Trim(postingID) != "" && Names(b, postingID, i)
    ensures var (c, result), p := Cash.Decide(b, Cash.Rollback, postingID, {}), b.postings[i];
      if p.account !in b.accounts then c == b && result.Fail? && HasStatus(result.error, 404)
      else if p.status == RolledBack then c == b && result == Ok(p)
      else if p.status == CashCommitted then c == b && result.Fail? && HasStatus(result.error, 400)
      else
        && result == Ok(p.(status := RolledBack))
        && c.postings == b.postings[i := result.value] && c.reservations == b.reservations && c.journal == b.journal
        && (if p.amount < 0.0 then Moves(b.accounts, c.accounts, p.account, 0.0, -p.amount) else c.accounts == b.accounts)
  {
    NamedIsFound(b, postingID, i);
  }

  lemma UnknownPosting(b: Books, verdict: Cash.Verdict, postingID: string)
    ensures Trim(postingID) == "" ==>
      var (c, result) := Cash.Decide(b, verdict, postingID, {}); c == b && result.Fail? && HasStatus(result.error, 400)
    ensures Trim(postingID) != "" && NamesNone(b, postingID) ==>
      var (c, result) := Cash.Decide(b, verdict, postingID, {}); c == b && result.Fail? && HasStatus(result.error, 404)
  {
    if NamesNone(b, postingID) {
      NoneIsFound(b, postingID);
    }
  }

  // ----- failing repositories -----

  /** A repository call that fails can only turn an answer into a failure, and leaves nothing behind. No decision is
      made without the lookups, the account's update, the entry and the update of the row. */
  lemma FailuresDecideNothing(b: Books, verdict: Cash.Verdict, postingID: string, down: set<RepoOp>)
    ensures var (c, result), without := Cash.Decide(b, verdict, postingID, down), Cash.Decide(b, verdict, postingID, {});
      && (without == (c, result) || (c == b && result.Fail? && (without.1.Fail? || HasStatus(result.error, 500))))
      && (c != b ==> down !! {FindPosting, FindAccount, SavePosting})
      && (c.accounts != b.accounts ==> UpdateAccount !in down)
      && (c.journal != b.journal ==> down !! {CreateTransaction, RepoOp.CreatePayment})
  {
  }

  /** Nothing is prepared without the lookups, the hold and the row. */
  lemma FailuresPrepareNothing(b: Books, req: Cash.PrepareRequest, rates: RatesRead, down: set<RepoOp>)
    ensures var (c, result), without := Cash.Prepare(b, req, rates, down), Cash.Prepare(b, req, rates, {});
      && (without == (c, result) || (c == b && result.Fail? && (without.1.Fail? || HasStatus(result.error, 500))))
      && (c.accounts != b.accounts ==> UpdateAccount !in down)
      && (|c.postings| > |b.postings| ==> down !! {FindPosting, CreatePosting})
      && (c != b && |c.postings| == |b.postings| ==> down !! {FindPosting, FindAccount, SavePosting})
  {
    FailuresOfPreparing(b, Cash.Trimmed(req), rates, down);
  }

  /** The failures of preparing, once the request is known to be well formed. */
  predicate FailsCleanly(b: Books, c: Books, result: Result<Posting, Err>, without: (Books, Result<Posting, Err>), down: set<RepoOp>) {
    && (without == (c, result) || (c == b && result.Fail? && (without.1.Fail? || HasStatus(result.error, 500))))
    && (c.accounts != b.accounts ==> UpdateAccount !in down)
    && (|c.postings| > |b.postings| ==> down !! {FindPosting, CreatePosting})
    && (c != b && |c.postings| == |b.postings| ==> down !! {FindPosting, FindAccount, SavePosting})
  }

  lemma FailuresOfPreparing(b: Books, req: Cash.PrepareRequest, rates: RatesRead, down: set<RepoOp>)
    ensures var (c, result) := Cash.PrepareOn(b, req, rates, down); FailsCleanly(b, c, result, Cash.PrepareOn(b, req, rates, {}), down)
  {
    if IndexOf(b.postings, Cash.HasID(req.postingID)).None? {
      FailuresOfNewPosting(b, req, rates, down);
    } else {
      FailuresOfRepeat(b, req, rates, down);
    }
  }

  lemma FailuresOfRepeat(b: Books, req: Cash.PrepareRequest, rates: RatesRead, down: set<RepoOp>)
    requires IndexOf(b.postings, Cash.HasID(req.postingID)).Some?
    ensures var (c, result) := Cash.PrepareOn(b, req, rates, down); FailsCleanly(b, c, result, Cash.PrepareOn(b, req, rates, {}), down)
  {
  }

  lemma FailuresOfResolving(accounts: map<string, Account>, req: Cash.PrepareRequest, down: set<RepoOp>)
    ensures var resolved, without := Cash.ResolveAccount(accounts, req, down), Cash.ResolveAccount(accounts, req, {});
      resolved == without || (resolved.Fail? && HasStatus(resolved.error, 500))
    ensures req.accountNumber != "" && FindAccount in down ==> Cash.ResolveAccount(accounts, req, down).Fail?
  {
  }

  lemma FailuresOfNewPosting(b: Books, req: Cash.PrepareRequest, rates: RatesRead, down: set<RepoOp>)
    ensures var made, without := Cash.PrepareNew(b, req, rates, down), Cash.PrepareNew(b, req, rates, {});
      && (made == without || (made.Fail? && (without.Fail? || HasStatus(made.error, 500))))
      && (made.Ok? ==> CreatePosting !in down && (made.value.0 != b.accounts ==> UpdateAccount !in down))
  {
    FailuresOfResolving(b.accounts, req, down);
  }
}
