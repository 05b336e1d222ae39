/** Payments: recording one, processing it on the bank's own books or handing it to another bank, and
    closing it when the other bank's outcome is known. */
module Payments {
  import opened Prelude
  import opened AppErrors
  import opened ExchangeRates
  import opened Books

  datatype PaymentRequest = PaymentRequest(payer: string, recipient: string, amount: real, commissionExempt: bool)

  /** What the interbank service answers to the initiation of a payment; no code when it is no gRPC error. */
  datatype Reply = Accepted | Refused(code: Option<Code>, message: string)

  // ----- recording -----

  datatype Terms = Terms(startAmount: real, endAmount: real, endCurrency: string, commission: real)

  /** The amounts of a payment: converted, and with commission on top, only between local accounts of
      different currencies. */
  function TermsOf(accounts: map<string, Account>, req: PaymentRequest, sameClient: bool, rates: RatesRead, down: set<RepoOp>)
    : Result<Terms, Err>
    requires req.payer in accounts
  {
    var payer := accounts[req.payer];
    if IsForeign(req.recipient) then Ok(Terms(req.amount, req.amount, payer.currency, 0.0))
    else if FindRecipient in down then Fail(DB_FAILURE)
    else if req.recipient !in accounts then Fail(Missing("recipient account not found"))
    else if accounts[req.recipient].clientID == payer.clientID && !sameClient then
      Fail(BadRequest("cannot make payment for same client accounts, that is a transfer"))
    else
      var currency := accounts[req.recipient].currency;
      if payer.currency == currency then Ok(Terms(req.amount, req.amount, currency, 0.0))
      else
        match Convert(req.amount, payer.currency, currency, rates)
        case Fail(e) => Fail(InternalErr(e))
        case Ok(converted) =>
          var fee := if req.commissionExempt then 0.0 else CalculateFee(req.amount);
          Ok(Terms(req.amount + fee, converted, currency, fee))
  }

  function LimitObstacle(payer: Account, amount: real): Option<Err> {
    if payer.dailySpending + amount > payer.dailyLimit then Some(BadRequest("daily limit exceeded"))
    else if payer.monthlySpending + amount > payer.monthlyLimit then Some(BadRequest("monthly limit exceeded"))
    else None
  }

  /** The entry of a payment that nothing stands in the way of. */
  function NewPayment(accounts: map<string, Account>, req: PaymentRequest, sameClient: bool, rates: RatesRead, down: set<RepoOp>)
    : Result<Transaction, Err>
  {
    if FindPayer in down then Fail(DB_FAILURE)
    else if req.payer !in accounts then Fail(Missing("payer account not found"))
    else
      match TermsOf(accounts, req, sameClient, rates, down)
      case Fail(e) => Fail(e)
      case Ok(terms) =>
        var payer := accounts[req.payer];
        if payer.available < terms.startAmount then Fail(BadRequest("insufficient funds"))
        else if LimitObstacle(payer, terms.startAmount).Some? then Fail(LimitObstacle(payer, terms.startAmount).value)
        else if CreateTransaction in down || RepoOp.CreatePayment in down then Fail(DB_FAILURE)
        else Ok(Transaction(req.payer, req.recipient, terms.startAmount, payer.currency,
                            terms.endAmount, terms.endCurrency, terms.commission, Processing, Payment))
  }

  /** Recording a payment adds one open entry and moves nothing. */
  function Record(b: Books, req: PaymentRequest, sameClient: bool, rates: RatesRead, down: set<RepoOp>): (Books, Result<nat, Err>) {
    match NewPayment(b.accounts, req, sameClient, rates, down)
    case Fail(e) => (b, Fail(e))
    case Ok(t) => (b.(journal := b.journal + [t]), Ok(|b.journal| + 1))
  }

  /** Is the payment between two local accounts of different currencies, and not exempt from commission? */
  predicate ChargesCommission(accounts: map<string, Account>, req: PaymentRequest) {
    && !IsForeign(req.recipient) && !req.commissionExempt
    && req.payer in accounts && req.recipient in accounts
    && accounts[req.payer].currency != accounts[req.recipient].currency
  }

  /** A recorded payment is open, carries the currencies of its parties and is within the payer's means;
      its recipient gets the requested amount converted, and the payer pays the amount and a commission: one
      and a half percent of a positive amount that is exchanged here and not exempt, and otherwise none. */
  lemma RecordShape(accounts: map<string, Account>, req: PaymentRequest, sameClient: bool, rates: RatesRead, down: set<RepoOp>)
    ensures match NewPayment(accounts, req, sameClient, rates, down)
      case Fail(_) => true
      case Ok(t) =>
        && t.origin.Payment? && t.status.Processing? && PaymentLinked(accounts, t)
        && t.payer == req.payer && t.recipient == req.recipient
        && t.startAmount <= accounts[t.payer].available
        && accounts[t.payer].dailySpending + t.startAmount <= accounts[t.payer].dailyLimit
        && accounts[t.payer].monthlySpending + t.startAmount <= accounts[t.payer].monthlyLimit
        && Convert(req.amount, t.startCurrency, t.endCurrency, rates) == Ok(t.endAmount)
        && t.startAmount == req.amount + t.commission
        && (if ChargesCommission(accounts, req) && req.amount > 0.0 then OneAndAHalfPercent(t.commission, req.amount)
            else t.commission == 0.0)
        && (req.amount > 0.0 && Positive(rates) ==> t.startAmount > 0.0 && t.endAmount > 0.0)
  {
    var made := NewPayment(accounts, req, sameClient, rates, down);
    FeeIsTheCommission(req.amount);
    if made.Ok? && Positive(rates) {
      ConvertKeepsSign(req.amount, made.value.startCurrency, made.value.endCurrency, rates);
    }
  }

  // ----- processing on the bank's own books -----

  /** The accounts after a payment has moved its money, through the bank's accounts where it is exchanged. */
  function Paid(accounts: map<string, Account>, t: Transaction): map<string, Account> {
    map n | n in accounts :: Moved(accounts, n, PaymentLeg(t, n), PaymentLeg(t, n))
  }

  /** Why the two bank accounts of an exchange do not allow it. */
  function ExchangeObstacle(accounts: map<string, Account>, t: Transaction, down: set<RepoOp>): Option<Err> {
    if FindBankTo in down || FindBankFrom in down then Some(DB_FAILURE)
    else if BankAccountFor(t.endCurrency) !in accounts then Some(PANIC)
    else if accounts[BankAccountFor(t.endCurrency)].available < t.endAmount then Some(BadRequest("insufficient banks funds"))
    else if BankAccountFor(t.startCurrency) !in accounts then Some(PANIC)
    else if FindAccount in down || UpdateAccount in down then Some(DB_FAILURE)
    else None
  }

  function PaymentObstacle(accounts: map<string, Account>, t: Transaction, down: set<RepoOp>): Option<Err> {
    if FindPayer in down then Some(DB_FAILURE)
    else if t.payer !in accounts then Some(PANIC)
    else if accounts[t.payer].available < t.startAmount then Some(BadRequest("insufficient payer funds"))
    else if LimitObstacle(accounts[t.payer], t.startAmount).Some? then LimitObstacle(accounts[t.payer], t.startAmount)
    else if FindRecipient in down then Some(DB_FAILURE)
    else if t.recipient !in accounts then Some(PANIC)
    else if t.recipient == t.payer then Some(BadRequest("cannot make payment to the same account"))
    else if t.startCurrency != t.endCurrency then ExchangeObstacle(accounts, t, down)
    else if UpdatePayer in down || UpdateRecipient in down then Some(DB_FAILURE)
    else None
  }

  function WithStatus(journal: seq<Transaction>, id: nat, status: TransactionStatus): seq<Transaction>
    requires 1 <= id <= |journal|
  {
    journal[id - 1 := journal[id - 1].(status := status)]
  }

  function Settle(b: Books, id: nat, down: set<RepoOp>): Result<Books, Err>
    requires 1 <= id <= |b.journal|
  {
    var t := b.journal[id - 1];
    if !t.status.Processing? then Fail(BadRequest("transaction already processed"))
    else if PaymentObstacle(b.accounts, t, down).Some? then Fail(PaymentObstacle(b.accounts, t, down).value)
    else if UpdateTransaction in down then Fail(Plain(DB_ERROR))
    else Ok(b.(accounts := Paid(b.accounts, t), journal := WithStatus(b.journal, id, Completed)))
  }

  // ----- payments to another bank -----

  /** The outcome is open: the request may have been carried out although its answer was lost. */
  predicate Ambiguous(reply: Reply) {
    reply.Refused? && reply.code in {Some(Unavailable), Some(DeadlineExceeded), Some(Canceled)}
  }

  function RefusalError(reply: Reply): Err
    requires reply.Refused?
  {
    match reply.code
    case Some(FailedPrecondition) => BadRequest(reply.message)
    case Some(InvalidArgument) => BadRequest(reply.message)
    case Some(NotFound) => Missing(reply.message)
    case Some(Unavailable) => ServiceUnavailable(Plain(reply.message))
    case _ => InternalErr(Plain(reply.message))
  }

  /** Handing a payment over moves nothing; only a definitive refusal closes it. */
  function Initiate(b: Books, id: nat, reply: Reply, down: set<RepoOp>): (Books, Option<Err>)
    requires 1 <= id <= |b.journal|
  {
    if !b.journal[id - 1].status.Processing? then (b, Some(BadRequest("transaction already processed")))
    else if reply.Accepted? then (b, None)
    else if Ambiguous(reply) then (b, Some(RefusalError(reply)))
    else if UpdateTransaction in down then (b, Some(DB_FAILURE))
    else (b.(journal := WithStatus(b.journal, id, Rejected)), Some(RefusalError(reply)))
  }

  function Process(b: Books, id: nat, reply: Reply, down: set<RepoOp>): (Books, Option<Err>) {
    if GetTransaction in down || !(1 <= id <= |b.journal|) then (b, Some(DB_FAILURE))
    else if IsForeign(b.journal[id - 1].recipient) then Initiate(b, id, reply, down)
    else
      match Settle(b, id, down)
      case Ok(after) => (after, None)
      case Fail(e) => (b, Some(e))
  }

  /** The other bank's outcome closes an open payment; a closed one stays as it is. */
  function Finalize(b: Books, id: nat, success: bool, down: set<RepoOp>): (Books, Option<Err>) {
    if GetTransaction in down || !(1 <= id <= |b.journal|) then (b, Some(DB_FAILURE))
    else if !b.journal[id - 1].status.Processing? then (b, None)
    else if UpdateTransaction in down then (b, Some(Plain(DB_ERROR)))
    else (b.(journal := WithStatus(b.journal, id, if success then Completed else Rejected)), None)
  }

  /** Processing changes nothing, moves the money of one open local payment, or rejects one to another bank. */
  lemma ProcessShape(b: Books, id: nat, reply: Reply, down: set<RepoOp>)
    ensures var after := Process(b, id, reply, down).0;
      || after == b
      || (&& 1 <= id <= |b.journal|
          && var t := b.journal[id - 1];
          && t.status.Processing?
          && if IsForeign(t.recipient) then after == b.(journal := WithStatus(b.journal, id, Rejected))
             else PaymentObstacle(b.accounts, t, {}).None? &&
                  after == b.(accounts := Paid(b.accounts, t), journal := WithStatus(b.journal, id, Completed)))
  {
  }

  lemma FinalizeShape(b: Books, id: nat, success: bool, down: set<RepoOp>)
    ensures var after := Finalize(b, id, success, down).0;
      || after == b
      || (&& 1 <= id <= |b.journal| && b.journal[id - 1].status.Processing?
          && after == b.(journal := WithStatus(b.journal, id, if success then Completed else Rejected)))
  {
  }

  // ----- the service -----

  method AgreeOnTerms(db: Database, req: PaymentRequest, sameClient: bool, rates: RatesRead, down: set<RepoOp>)
    returns (result: Result<Terms, Err>)
    requires Keyed(db.accounts) && req.payer in db.accounts
    ensures result == TermsOf(db.accounts, req, sameClient, rates, down)
  {
    var payerAccount := db.accounts[req.payer];
    var commission, startAmount, endAmount, endCurrency := 0.0, req.amount, req.amount, payerAccount.currency;
    if !IsForeign(req.recipient) {
      if FindRecipient in down {
        return Fail(DB_FAILURE);
      }
      if req.recipient !in db.accounts {
        return Fail(Missing("recipient account not found"));
      }
      var recipientAccount := db.accounts[req.recipient];
      if recipientAccount.clientID == payerAccount.clientID && !sameClient {
        return Fail(BadRequest("cannot make payment for same client accounts, that is a transfer"));
      }
      if payerAccount.currency != recipientAccount.currency {
        var converted := Convert(req.amount, payerAccount.currency, recipientAccount.currency, rates);
        if converted.Fail? {
          return Fail(InternalErr(converted.error));
        }
        if !req.commissionExempt {
          commission := CalculateFee(req.amount);
          startAmount := req.amount + commission;
        }
        endAmount, endCurrency := converted.value, recipientAccount.currency;
      }
    }
    return Ok(Terms(startAmount, endAmount, endCurrency, commission));
  }

  method CreatePayment(db: Database, req: PaymentRequest, sameClient: bool, rates: RatesRead, down: set<RepoOp>)
    returns (result: Result<nat, Err>)
    requires Keyed(db.accounts)
    modifies db
    ensures (db.View(), result) == Record(old(db.View()), req, sameClient, rates, down)
  {
    if FindPayer in down {
      return Fail(DB_FAILURE);
    }
    if req.payer !in db.accounts {
      return Fail(Missing("payer account not found"));
    }
    var payerAccount := db.accounts[req.payer];
    var agreed := AgreeOnTerms(db, req, sameClient, rates, down);
    if agreed.Fail? {
      return Fail(agreed.error);
    }
    var terms := agreed.value;
    if payerAccount.available < terms.startAmount {
      return Fail(BadRequest("insufficient funds"));
    }
    if payerAccount.dailySpending + terms.startAmount > payerAccount.dailyLimit {
      return Fail(BadRequest("daily limit exceeded"));
    }
    if payerAccount.monthlySpending + terms.startAmount > payerAccount.monthlyLimit {
      return Fail(BadRequest("monthly limit exceeded"));
    }
    var before := db.View();
    if CreateTransaction in down {
      return Fail(DB_FAILURE);
    }
    var t := Transaction(req.payer, req.recipient, terms.startAmount, payerAccount.currency,
                         terms.endAmount, terms.endCurrency, terms.commission, Processing, Payment);
    db.journal := db.journal + [t];
    if RepoOp.CreatePayment in down {
      db.Rollback(before);
      return Fail(DB_FAILURE);
    }
    return Ok(|db.journal|);
  }

  method ProcessPayment(db: Database, id: nat, reply: Reply, down: set<RepoOp>) returns (error: Option<Err>)
    requires Keyed(db.accounts)
    modifies db
    ensures (db.View(), error) == Process(old(db.View()), id, reply, down)
  {
    if GetTransaction in down || !(1 <= id <= |db.journal|) {
      return Some(DB_FAILURE);
    }
    if IsForeign(db.journal[id - 1].recipient) {
      error := ProcessInterbank(db, id, reply, down);
      return;
    }
    var before := db.View();
    error := SettleWithinTransaction(db, id, down);
    if error.Some? {
      db.Rollback(before);
    }
  }

  method ProcessInterbank(db: Database, id: nat, reply: Reply, down: set<RepoOp>) returns (error: Option<Err>)
    requires 1 <= id <= |db.journal|
    modifies db`journal
    ensures (db.View(), error) == Initiate(old(db.View()), id, reply, down)
  {
    var t := db.journal[id - 1];
    if !t.status.Processing? {
      return Some(BadRequest("transaction already processed"));
    }
    if reply.Accepted? {
      return None;
    }
    if !Ambiguous(reply) {
      t := t.(status := Rejected);
      if UpdateTransaction in down {
        return Some(DB_FAILURE);
      }
      db.journal := db.journal[id - 1 := t];
    }
    return Some(RefusalError(reply));
  }

  /** The body of the database transaction: it may leave partial writes behind when it fails. */
  method SettleWithinTransaction(db: Database, id: nat, down: set<RepoOp>) returns (error: Option<Err>)
    requires Keyed(db.accounts) && 1 <= id <= |db.journal|
    modifies db
    ensures match Settle(old(db.View()), id, down)
      case Ok(after) => error == None && db.View() == after
      case Fail(e) => error == Some(e)
  {
    var t := db.journal[id - 1];
    if !t.status.Processing? {
      return Some(BadRequest("transaction already processed"));
    }
    error := MoveMoney(db, t, down);
    if error.Some? {
      return;
    }
    if UpdateTransaction in down {
      return Some(Plain(DB_ERROR));
    }
    db.journal := db.journal[id - 1 := t.(status := Completed)];
  }

  method MoveMoney(db: Database, t: Transaction, down: set<RepoOp>) returns (error: Option<Err>)
    requires Keyed(db.accounts)
    modifies db`accounts
    ensures error == PaymentObstacle(old(db.accounts), t, down)
    ensures error == None ==> db.accounts == Paid(old(db.accounts), t)
  {
    if FindPayer in down {
      return Some(DB_FAILURE);
    }
    if t.payer !in db.accounts {
      return Some(PANIC);
    }
    var payer := db.accounts[t.payer];
    if payer.available < t.startAmount {
      return Some(BadRequest("insufficient payer funds"));
    }
    if payer.dailySpending + t.startAmount > payer.dailyLimit {
      return Some(BadRequest("daily limit exceeded"));
    }
    if payer.monthlySpending + t.startAmount > payer.monthlyLimit {
      return Some(BadRequest("monthly limit exceeded"));
    }
    if FindRecipient in down {
      return Some(DB_FAILURE);
    }
    if t.recipient !in db.accounts {
      return Some(PANIC);
    }
    var recipient := db.accounts[t.recipient];
    if recipient.number == payer.number {
      return Some(BadRequest("cannot make payment to the same account"));
    }
    if t.startCurrency != t.endCurrency {
      error := Exchange(db, t, down);
      return;
    }
    payer := payer.(balance := payer.balance - t.startAmount, available := payer.available - t.startAmount);
    recipient := recipient.(balance := recipient.balance + t.endAmount, available := recipient.available + t.endAmount);
    if UpdatePayer in down {
      return Some(DB_FAILURE);
    }
    db.UpdateBalance(payer);
    if UpdateRecipient in down {
      return Some(DB_FAILURE);
    }
    db.UpdateBalance(recipient);
    return None;
  }

  type Updates = map<string, real>

  function Add(updates: Updates, number: string, delta: real): Updates {
    updates[number := (if number in updates then updates[number] else 0.0) + delta]
  }

  /** The changes of an exchange, added up by account: one account may play several parts. */
  function ExchangeUpdates(t: Transaction): Updates {
    Add(Add(Add(Add(map[], t.payer, -t.startAmount), BankAccountFor(t.startCurrency), t.startAmount),
            BankAccountFor(t.endCurrency), -t.endAmount), t.recipient, t.endAmount)
  }

  lemma UpdatesAreLegs(t: Transaction, n: string)
    requires t.startCurrency != t.endCurrency
    ensures PaymentLeg(t, n) == if n in ExchangeUpdates(t) then ExchangeUpdates(t)[n] else 0.0
  {
  }

  method Exchange(db: Database, t: Transaction, down: set<RepoOp>) returns (error: Option<Err>)
    requires Keyed(db.accounts) && t.startCurrency != t.endCurrency
    requires t.payer in db.accounts && t.recipient in db.accounts
    modifies db`accounts
    ensures error == ExchangeObstacle(old(db.accounts), t, down)
    ensures error == None ==> db.accounts == Paid(old(db.accounts), t)
  {
    if FindBankTo in down || FindBankFrom in down {
      return Some(DB_FAILURE);
    }
    var banksAccountTo, banksAccountFrom := BankAccountFor(t.startCurrency), BankAccountFor(t.endCurrency);
    if banksAccountFrom !in db.accounts {
      return Some(PANIC);
    }
    if db.accounts[banksAccountFrom].available < t.endAmount {
      return Some(BadRequest("insufficient banks funds"));
    }
    if banksAccountTo !in db.accounts {
      return Some(PANIC);
    }
    var updates := GatherUpdates(t);
    UpdatesPay(db.accounts, t);
    error := WriteUpdates(db, updates, down);
  }

  method GatherUpdates(t: Transaction) returns (updates: Updates)
    ensures updates == ExchangeUpdates(t) && t.payer in updates
    ensures updates.Keys == {t.payer, BankAccountFor(t.startCurrency), BankAccountFor(t.endCurrency), t.recipient}
  {
    updates := Add(map[], t.payer, -t.startAmount);
    updates := Add(updates, BankAccountFor(t.startCurrency), t.startAmount);
    updates := Add(updates, BankAccountFor(t.endCurrency), -t.endAmount);
    updates := Add(updates, t.recipient, t.endAmount);
  }

  /** The map of changes is written account by account, in whatever order the map is walked. */
  method WriteUpdates(db: Database, updates: Updates, down: set<RepoOp>) returns (error: Option<Err>)
    requires Keyed(db.accounts) && updates.Keys <= db.accounts.Keys && updates != map[]
    modifies db`accounts
    ensures error == if FindAccount in down || UpdateAccount in down then Some(DB_FAILURE) else None
    ensures error == None ==> db.accounts == Written(old(db.accounts), updates, updates.Keys)
  {
    ghost var accounts := db.accounts;
    var pending := updates.Keys;
    while pending != {}
      invariant pending <= updates.Keys
      invariant pending == updates.Keys || (FindAccount !in down && UpdateAccount !in down)
      invariant db.accounts == Written(accounts, updates, updates.Keys - pending)
      decreases pending
    {
      var n :| n in pending;
      if FindAccount in down {
        return Some(DB_FAILURE);
      }
      var acc := db.accounts[n];
      acc := acc.(balance := acc.balance + updates[n], available := acc.available + updates[n]);
      if UpdateAccount in down {
        return Some(DB_FAILURE);
      }
      db.UpdateBalance(acc);
      pending := pending - {n};
    }
    return None;
  }

  lemma UpdatesPay(accounts: map<string, Account>, t: Transaction)
    requires t.startCurrency != t.endCurrency
    ensures Written(accounts, ExchangeUpdates(t), ExchangeUpdates(t).Keys) == Paid(accounts, t)
  {
    forall n | n in accounts
      ensures Written(accounts, ExchangeUpdates(t), ExchangeUpdates(t).Keys)[n] == Paid(accounts, t)[n]
    {
      UpdatesAreLegs(t, n);
    }
  }

  function Written(accounts: map<string, Account>, updates: Updates, done: set<string>): map<string, Account>
    requires done <= updates.Keys
  {
    map n | n in accounts :: if n in done then Moved(accounts, n, updates[n], updates[n]) else accounts[n]
  }

  method FinalizeInterbankPayment(db: Database, id: nat, success: bool, down: set<RepoOp>) returns (error: Option<Err>)
    modifies db`journal
    ensures (db.View(), error) == Finalize(old(db.View()), id, success, down)
  {
    if GetTransaction in down || !(1 <= id <= |db.journal|) {
      return Some(DB_FAILURE);
    }
    var t := db.journal[id - 1];
    if !t.status.Processing? {
      return None;
    }
    t := t.(status := if success then Completed else Rejected);
    if UpdateTransaction in down {
      return Some(Plain(DB_ERROR));
    }
    db.journal := db.journal[id - 1 := t];
    return None;
  }
}
