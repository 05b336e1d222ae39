/** What callers of trade settlement are answered, in terms of requests, rows and rates alone. */
module TradeAnswers {
  import opened Prelude
  import opened Sequences
  import opened Text
  import opened AppErrors
  import opened ExchangeRates
  import opened Books
  import opened JournalLaws
  import CashAnswers
  import Trade = TradeSettlement

  /** A settlement request is refused with the code of the first thing that is wrong: InvalidArgument for a field
      that is missing or makes no sense, NotFound for an account that does not exist, and Internal for an amount
      that cannot be converted; the trade currency is read in any case and without surrounding space. */
  lemma RefusalCodes(currencies: map<string, string>, req: Trade.TradeRequest, rates: RatesRead)
    ensures var refusal := Trade.Obstacle(currencies, req, rates, {});
      var customer, code := Trim(req.accountNumber), Upper(Trim(req.tradeCurrency));
      if customer == "" || code == "" || req.direction == 0 || req.amount <= 0.0 then
        refusal.Some? && refusal.value.code == InvalidArgument
      else if customer !in currencies then refusal.Some? && refusal.value.code == NotFound
      else if !IsKnown(code) then refusal.Some? && refusal.value.code == InvalidArgument
      else
        && code in BANK_ACCOUNTS && CashAnswers.IsBanksAccount(BANK_ACCOUNTS[code], code)
        && if BANK_ACCOUNTS[code] !in currencies then refusal.Some? && refusal.value.code == NotFound
           else if req.direction != 1 && req.direction != 2 then refusal.Some? && refusal.value.code == InvalidArgument
           else if Convert(req.amount, currencies[BANK_ACCOUNTS[code]], currencies[customer], rates).Fail? then
             refusal.Some? && refusal.value.code == Internal
           else refusal.None?
  {
    CashAnswers.BanksAccounts(Upper(Trim(req.tradeCurrency)));
  }

  /** A repository call that fails refuses a request that would have been recorded, as an internal error, and never
      lets one through. */
  lemma FailuresRecordNothing(currencies: map<string, string>, req: Trade.TradeRequest, rates: RatesRead, down: set<RepoOp>)
    ensures var refusal, without := Trade.Obstacle(currencies, req, rates, down), Trade.Obstacle(currencies, req, rates, {});
      && (refusal == without || (refusal.Some? && refusal.value.code == Internal))
      && (refusal.None? <==> without.None? && down !! {FindCustomer, FindBank, CreateTransaction})
  {
  }

  /** The customer's leg of a recorded call, in the two rates of its time: the requested amount is bought at the
      buy rate of the bank's currency and paid at the sell rate of the customer's, where RSD counts one for one,
      in both directions; within one currency it is the requested amount. */
  lemma CustomerLegAtTheRates(b: Books, call: TradeCall)
    requires IsRecorded(Trade.Currencies(b.accounts), call)
    ensures var customer, bank := Trim(call.req.accountNumber), BANK_ACCOUNTS[Upper(Trim(call.req.tradeCurrency))];
      var from, to := b.accounts[bank].currency, b.accounts[customer].currency;
      var t := Trade.Entry(Trade.Currencies(b.accounts), call.req, call.rates, call.down);
      var leg := if call.req.direction == 1 then t.startAmount else t.endAmount;
      && (from == to ==> leg == call.req.amount)
      && (from != to ==>
            && call.rates.Some? && (from == "RSD" || from in call.rates.value) && (to == "RSD" || to in call.rates.value)
            && leg * (if to == "RSD" then 1.0 else call.rates.value[to].sell) ==
               call.req.amount * (if from == "RSD" then 1.0 else call.rates.value[from].buy))
      && (if call.req.direction == 1 then t.endAmount else t.startAmount) == call.req.amount
  {
    var currencies := Trade.Currencies(b.accounts);
    EntryShowsItsRequest(currencies, call);
    ConvertAtTheRates(call.req.amount, currencies[BANK_ACCOUNTS[Trade.CurrencyOf(call.req)]],
                      currencies[Trade.CustomerOf(call.req)], call.rates);
  }

  /** Processing a recorded settlement goes through exactly if it is open and between two different accounts, and
      the payer has the money; it then moves both balances of both accounts and completes the entry. Otherwise it
      fails with 400, with 500 for an id without an entry, or outside application errors for a missing account. */
  lemma ProcessingAnswers(b: Books, id: nat)
    ensures var done := Trade.ProcessTrade(b, id, {});
      if !(1 <= id <= |b.journal|) then done.Fail? && HasStatus(done.error, 500)
      else
        var t := b.journal[id - 1];
        if t.payer !in b.accounts || t.recipient !in b.accounts then
          done.Fail? && (if t.status.Processing? then done.error.Plain? else HasStatus(done.error, 400))
        else
          && (done.Ok? <==> t.status.Processing? && t.payer != t.recipient && t.startAmount <= b.accounts[t.payer].available)
          && (done.Fail? ==> HasStatus(done.error, 400))
          && (done.Ok? ==>
                && done.value == b.(accounts := done.value.accounts, journal := b.journal[id - 1 := t.(status := Completed)])
                && done.value.accounts == b.accounts
                     [t.payer := b.accounts[t.payer].(balance := b.accounts[t.payer].balance - t.startAmount,
                                                      available := b.accounts[t.payer].available - t.startAmount)]
                     [t.recipient := b.accounts[t.recipient].(balance := b.accounts[t.recipient].balance + t.endAmount,
                                                              available := b.accounts[t.recipient].available + t.endAmount)])
  {
  }

  /** A repository call that fails settles nothing: 500, or the driver's own error for the update of the entry. */
  lemma FailuresSettleNothing(b: Books, id: nat, down: set<RepoOp>)
    ensures var done, without := Trade.ProcessTrade(b, id, down), Trade.ProcessTrade(b, id, {});
      && (done == without || (done.Fail? && (without.Fail? || HasStatus(done.error, 500) || done.error == Plain(DB_ERROR))))
      && (done.Ok? ==> down !! {GetTransaction, FindPayer, FindRecipient, UpdatePayer, UpdateRecipient, UpdateTransaction})
  {
  }
}
