/** `ExecuteTradeSettlement` and the processing of the transaction it records. */
module TradeSettlement {
  import opened Prelude
  import opened Text
  import opened AppErrors
  import opened ExchangeRates
  import opened Books

  const BUY := 1
  const SELL := 2

  datatype TradeRequest = TradeRequest(accountNumber: string, tradeCurrency: string, direction: int, amount: real)

  datatype TradeResponse = TradeResponse(
    transactionID: nat, sourceAmount: real, sourceCurrency: string, destinationAmount: real, destinationCurrency: string)

  function CustomerOf(req: TradeRequest): string { Trim(req.accountNumber) }

  function CurrencyOf(req: TradeRequest): string { Upper(Trim(req.tradeCurrency)) }

  function ResolveBankAccountNumber(currency: string): Result<string, string> {
    if currency in BANK_ACCOUNTS then Ok(BANK_ACCOUNTS[currency]) else Fail("unsupported trade currency: " + currency)
  }

  /** Why a request cannot be recorded, the first obstacle in the order in which they are met. */
  function Obstacle(currencies: map<string, string>, req: TradeRequest, rates: RatesRead, down: set<RepoOp>): Option<Status> {
    var customer, bank := CustomerOf(req), ResolveBankAccountNumber(CurrencyOf(req));
    if customer == "" then Some(Status(InvalidArgument, "account_number is required"))
    else if CurrencyOf(req) == "" then Some(Status(InvalidArgument, "trade_currency_code is required"))
    else if req.direction == 0 then Some(Status(InvalidArgument, "direction is required"))
    else if req.amount <= 0.0 then Some(Status(InvalidArgument, "amount must be greater than zero"))
    else if FindCustomer in down then Some(Status(Internal, "failed to fetch account: " + DB_ERROR))
    else if customer !in currencies then Some(Status(NotFound, "account " + customer + " not found"))
    else if bank.Fail? then Some(Status(InvalidArgument, bank.error))
    else if FindBank in down then Some(Status(Internal, "failed to fetch bank settlement account: " + DB_ERROR))
    else if bank.value !in currencies then Some(Status(NotFound, "bank settlement account " + bank.value + " not found"))
    else if req.direction != BUY && req.direction != SELL then Some(Status(InvalidArgument, "direction must be BUY or SELL"))
    else
      match Convert(req.amount, currencies[bank.value], currencies[customer], rates)
      case Fail(e) => Some(Status(Internal, "failed to convert currencies: " + e.Text()))
      case Ok(_) =>
        if CreateTransaction in down then Some(Status(Internal, "failed to create transaction: " + DB_ERROR)) else None
  }

  /** The entry of a request without obstacles: the bank's leg is the requested amount in the currency of
      its account, the customer's leg is that amount converted, and the direction decides who pays. */
  function Entry(currencies: map<string, string>, req: TradeRequest, rates: RatesRead, down: set<RepoOp>): Transaction
    requires Obstacle(currencies, req, rates, down).None?
  {
    var customer, bank := CustomerOf(req), BANK_ACCOUNTS[CurrencyOf(req)];
    var converted := Convert(req.amount, currencies[bank], currencies[customer], rates).value;
    if req.direction == BUY then
      Transaction(customer, bank, converted, currencies[customer], req.amount, currencies[bank], 0.0, Processing, Settlement)
    else
      Transaction(bank, customer, req.amount, currencies[bank], converted, currencies[customer], 0.0, Processing, Settlement)
  }

  function Currencies(accounts: map<string, Account>): map<string, string> {
    map n | n in accounts :: accounts[n].currency
  }

  function RecordTrade(b: Books, req: TradeRequest, rates: RatesRead, down: set<RepoOp>): Books {
    if Obstacle(Currencies(b.accounts), req, rates, down).None?
    then b.(journal := b.journal + [Entry(Currencies(b.accounts), req, rates, down)])
    else b
  }

  /** Processing one recorded transaction; a failure leaves the books as they were. */
  function ProcessTrade(b: Books, id: nat, down: set<RepoOp>): Result<Books, Err> {
    if GetTransaction in down || !(1 <= id <= |b.journal|) then Fail(DB_FAILURE)
    else
      var t := b.journal[id - 1];
      if !t.status.Processing? then Fail(BadRequest("transaction already processed"))
      else if FindPayer in down || FindRecipient in down then Fail(DB_FAILURE)
      else if t.payer !in b.accounts || t.recipient !in b.accounts then Fail(PANIC)
      else if t.payer == t.recipient then Fail(BadRequest("cannot settle trade to the same account"))
      else if b.accounts[t.payer].available < t.startAmount then Fail(BadRequest("insufficient payer funds"))
      else if UpdatePayer in down || UpdateRecipient in down then Fail(DB_FAILURE)
      else if UpdateTransaction in down then Fail(Plain(DB_ERROR))
      else Ok(b.(
        accounts := b.accounts[t.payer := Moved(b.accounts, t.payer, -t.startAmount, -t.startAmount)]
                              [t.recipient := Moved(b.accounts, t.recipient, t.endAmount, t.endAmount)],
        journal := b.journal[id - 1 := t.(status := Completed)]))
  }

  function Processed(b: Books, id: nat, down: set<RepoOp>): Books {
    match ProcessTrade(b, id, down) case Ok(after) => after case Fail(_) => b
  }

  method ProcessTradeSettlement(db: Database, id: nat, down: set<RepoOp>) returns (error: Option<Err>)
    requires Keyed(db.accounts)
    modifies db
    ensures db.View() == Processed(old(db.View()), id, down)
    ensures error == match ProcessTrade(old(db.View()), id, down) case Ok(_) => None case Fail(e) => Some(e)
  {
    var before := db.View();
    error := ProcessWithinTransaction(db, id, down);
    if error.Some? {
      db.Rollback(before);
    }
  }

  /** The body of the database transaction: it may leave partial writes behind when it fails. */
  method ProcessWithinTransaction(db: Database, id: nat, down: set<RepoOp>) returns (error: Option<Err>)
    requires Keyed(db.accounts)
    modifies db
    ensures match ProcessTrade(old(db.View()), id, down)
      case Ok(after) => error == None && db.View() == after
      case Fail(e) => error == Some(e)
  {
    if GetTransaction in down || !(1 <= id <= |db.journal|) {
      return Some(DB_FAILURE);
    }
    var t := db.journal[id - 1];
    if !t.status.Processing? {
      return Some(BadRequest("transaction already processed"));
    }
    if FindPayer in down || FindRecipient in down {
      return Some(DB_FAILURE);
    }
    if t.payer !in db.accounts || t.recipient !in db.accounts {
      return Some(PANIC);
    }
    var payer, recipient := db.accounts[t.payer], db.accounts[t.recipient];
    if payer.number == recipient.number {
      return Some(BadRequest("cannot settle trade to the same account"));
    }
    if payer.available < t.startAmount {
      return Some(BadRequest("insufficient payer funds"));
    }
    payer := payer.(balance := payer.balance - t.startAmount, available := payer.available - t.startAmount);
    recipient := recipient.(balance := recipient.balance + t.endAmount, available := recipient.available + t.endAmount);
    if UpdatePayer in down {
      return Some(DB_FAILURE);
    }
    db.UpdateBalance(payer);
    if UpdateRecipient in down {
      return Some(DB_FAILURE);
    }
    db.UpdateBalance(recipient);
    if UpdateTransaction in down {
      return Some(Plain(DB_ERROR));
    }
    db.journal := db.journal[id - 1 := t.(status := Completed)];
    return None;
  }

  /** Everything up to the insert: validation, lookups and conversion. */
  method BuildTransaction(db: Database, req: TradeRequest, rates: RatesRead, down: set<RepoOp>)
    returns (result: Result<Transaction, Status>)
    requires Keyed(db.accounts)
    ensures var obstacle := Obstacle(Currencies(db.accounts), req, rates, down);
      result == if obstacle.Some? then Fail(obstacle.value) else Ok(Entry(Currencies(db.accounts), req, rates, down))
  {
    var accountNumber := Trim(req.accountNumber);
    if accountNumber == "" {
      return Fail(Status(InvalidArgument, "account_number is required"));
    }
    var tradeCurrency := Upper(Trim(req.tradeCurrency));
    if tradeCurrency == "" {
      return Fail(Status(InvalidArgument, "trade_currency_code is required"));
    }
    if req.direction == 0 {
      return Fail(Status(InvalidArgument, "direction is required"));
    }
    var amount := req.amount;
    if amount <= 0.0 {
      return Fail(Status(InvalidArgument, "amount must be greater than zero"));
    }
    if FindCustomer in down {
      return Fail(Status(Internal, "failed to fetch account: " + DB_ERROR));
    }
    if accountNumber !in db.accounts {
      return Fail(Status(NotFound, "account " + accountNumber + " not found"));
    }
    var customerAccount := db.accounts[accountNumber];
    var bankAccountNumber := ResolveBankAccountNumber(tradeCurrency);
    if bankAccountNumber.Fail? {
      return Fail(Status(InvalidArgument, bankAccountNumber.error));
    }
    if FindBank in down {
      return Fail(Status(Internal, "failed to fetch bank settlement account: " + DB_ERROR));
    }
    if bankAccountNumber.value !in db.accounts {
      return Fail(Status(NotFound, "bank settlement account " + bankAccountNumber.value + " not found"));
    }
    var bankAccount := db.accounts[bankAccountNumber.value];

    var sourceAccount, destinationAccount, amountIsSource := customerAccount, bankAccount, false;
    if req.direction == SELL {
      sourceAccount, destinationAccount, amountIsSource := bankAccount, customerAccount, true;
    } else if req.direction != BUY {
      return Fail(Status(InvalidArgument, "direction must be BUY or SELL"));
    }

    var sourceAmount, destinationAmount := amount, amount;
    if sourceAccount.currency != destinationAccount.currency {
      var converted;
      if amountIsSource {
        converted := Convert(amount, sourceAccount.currency, destinationAccount.currency, rates);
        destinationAmount := if converted.Ok? then converted.value else 0.0;
      } else {
        converted := Convert(amount, destinationAccount.currency, sourceAccount.currency, rates);
        sourceAmount := if converted.Ok? then converted.value else 0.0;
      }
      if converted.Fail? {
        return Fail(Status(Internal, "failed to convert currencies: " + converted.error.Text()));
      }
    }

    var transaction := Transaction(
      sourceAccount.number, destinationAccount.number, sourceAmount, sourceAccount.currency,
      destinationAmount, destinationAccount.currency, 0.0, Processing, Settlement);
    if CreateTransaction in down {
      return Fail(Status(Internal, "failed to create transaction: " + DB_ERROR));
    }
    return Ok(transaction);
  }

  /** Records a trade and processes it. The entry stays when the processing fails. */
  method ExecuteTradeSettlement(db: Database, req: TradeRequest, rates: RatesRead, down: set<RepoOp>)
    returns (result: Result<TradeResponse, Status>)
    requires Keyed(db.accounts)
    modifies db
    ensures var b, obstacle := old(db.View()), Obstacle(Currencies(old(db.accounts)), req, rates, down);
      if obstacle.Some? then result == Fail(obstacle.value) && db.View() == b
      else
        var recorded, id := RecordTrade(b, req, rates, down), |b.journal| + 1;
        var t := recorded.journal[id - 1];
        && |recorded.journal| == id
        && db.View() == Processed(recorded, id, down)
        && result == match ProcessTrade(recorded, id, down)
             case Fail(e) => Fail(MapTradeSettlementError(e))
             case Ok(_) => Ok(TradeResponse(id, t.startAmount, t.startCurrency, t.endAmount, t.endCurrency))
  {
    var built := BuildTransaction(db, req, rates, down);
    if built.Fail? {
      return Fail(built.error);
    }
    var t := built.value;
    db.journal := db.journal + [t];
    var transactionID := |db.journal|;
    var error := ProcessTradeSettlement(db, transactionID, down);
    if error.Some? {
      return Fail(MapTradeSettlementError(error.value));
    }
    return Ok(TradeResponse(transactionID, t.startAmount, t.startCurrency, t.endAmount, t.endCurrency));
  }
}
