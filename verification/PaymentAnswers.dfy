/** What callers of the payment service are answered, in terms of requests, rows and replies alone. */
module PaymentAnswers {
  import opened Prelude
  import opened AppErrors
  import opened ExchangeRates
  import opened Books
  import Pay = Payments

  /** Eighteen characters that do not start with 444 are an account of another bank. */
  lemma ForeignExactly(n: string)
    ensures IsForeign(n) <==> |n| == 18 && !(n[0] == '4' && n[1] == '4' && n[2] == '4')
  {
    if |n| == 18 {
      assert n[..3] == [n[0], n[1], n[2]];
    }
  }

  // ----- recording -----

  /** What the payer is to pay, given the commission. */
  function Due(accounts: map<string, Account>, req: Pay.PaymentRequest): real {
    if Pay.ChargesCommission(accounts, req) then req.amount + CalculateFee(req.amount) else req.amount
  }

  /** A payment is refused with 404 for a payer or a local recipient that does not exist, with 400 for accounts of
      one client that are not to be checked, with 500 for an amount that cannot be converted, and with 400 beyond
      the payer's means or limits; else an open entry with the request's parties is added and its id given. */
  lemma RecordAnswers(b: Books, req: Pay.PaymentRequest, sameClient: bool, rates: RatesRead)
    ensures var (c, result), local := Pay.Record(b, req, sameClient, rates, {}), !IsForeign(req.recipient);
      if req.payer !in b.accounts then c == b && result.Fail? && HasStatus(result.error, 404)
      else
        var payer := b.accounts[req.payer];
        if local && req.recipient !in b.accounts then c == b && result.Fail? && HasStatus(result.error, 404)
        else if local && payer.clientID == b.accounts[req.recipient].clientID && !sameClient then
          c == b && result.Fail? && HasStatus(result.error, 400)
        else if local && Convert(req.amount, payer.currency, b.accounts[req.recipient].currency, rates).Fail? then
          c == b && result.Fail? && HasStatus(result.error, 500)
        else if payer.available < Due(b.accounts, req) || payer.dailySpending + Due(b.accounts, req) > payer.dailyLimit
                || payer.monthlySpending + Due(b.accounts, req) > payer.monthlyLimit then
          c == b && result.Fail? && HasStatus(result.error, 400)
        else
          && result == Ok(|b.journal| + 1) && c == b.(journal := c.journal)
          && |c.journal| == |b.journal| + 1 && c.journal[..|b.journal|] == b.journal
          && var t := c.journal[|b.journal|];
          && t.payer == req.payer && t.recipient == req.recipient && t.status.Processing? && t.origin.Payment?
          && t.startAmount == Due(b.accounts, req) && t.startCurrency == payer.currency
          && t.endCurrency == if local then b.accounts[req.recipient].currency else payer.currency
  {
    if req.payer in b.accounts {
      TermsAnswers(b.accounts, req, sameClient, rates);
    }
  }

  lemma TermsAnswers(accounts: map<string, Account>, req: Pay.PaymentRequest, sameClient: bool, rates: RatesRead)
    requires req.payer in accounts
    ensures var terms, payer, local := Pay.TermsOf(accounts, req, sameClient, rates, {}), accounts[req.payer], !IsForeign(req.recipient);
      if local && req.recipient !in accounts then terms.Fail? && HasStatus(terms.error, 404)
      else if local && payer.clientID == accounts[req.recipient].clientID && !sameClient then
        terms.Fail? && HasStatus(terms.error, 400)
      else if local && Convert(req.amount, payer.currency, accounts[req.recipient].currency, rates).Fail? then
        terms.Fail? && HasStatus(terms.error, 500)
      else
        && terms.Ok? && terms.value.startAmount == Due(accounts, req)
        && terms.value.endCurrency == if local then accounts[req.recipient].currency else payer.currency
  {
  }

  /** A repository call that fails can only turn the answer into 500, and leaves neither entry nor payment. */
  lemma FailuresRecordNothing(b: Books, req: Pay.PaymentRequest, sameClient: bool, rates: RatesRead, down: set<RepoOp>)
    ensures var (c, result), without := Pay.Record(b, req, sameClient, rates, down), Pay.Record(b, req, sameClient, rates, {});
      && (without == (c, result) || (c == b && result.Fail? && (without.1.Fail? || HasStatus(result.error, 500))))
      && (c != b ==> down !! {FindPayer, CreateTransaction, RepoOp.CreatePayment})
      && (c != b && !IsForeign(req.recipient) ==> FindRecipient !in down)
  {
  }

  // ----- processing on the bank's own books -----

  /** The bank cannot pay out an exchange: one of its accounts is missing, or has too little. */
  predicate BankIsShort(accounts: map<string, Account>, t: Transaction) {
    || BankAccountFor(t.startCurrency) !in accounts || BankAccountFor(t.endCurrency) !in accounts
    || accounts[BankAccountFor(t.endCurrency)].available < t.endAmount
  }

  /** What still has to hold when a payment is processed: both accounts are there and differ, the payer has the
      money and the limits, and the bank can exchange it. */
  predicate CanBePaid(accounts: map<string, Account>, t: Transaction) {
    && t.payer in accounts && t.recipient in accounts && t.payer != t.recipient
    && t.startAmount <= accounts[t.payer].available
    && accounts[t.payer].dailySpending + t.startAmount <= accounts[t.payer].dailyLimit
    && accounts[t.payer].monthlySpending + t.startAmount <= accounts[t.payer].monthlyLimit
    && (t.startCurrency != t.endCurrency ==> !BankIsShort(accounts, t))
  }

  /** A local payment goes through exactly if it is open and can be paid; it is then completed, and otherwise
      nothing has changed: with 400, unless an account is missing, which is no application error for the payer's.
      Nothing depends on another bank's reply. */
  lemma LocalPaymentAnswers(b: Books, id: nat, reply: Pay.Reply)
    requires 1 <= id <= |b.journal| && !IsForeign(b.journal[id - 1].recipient)
    ensures var (c, error), t := Pay.Process(b, id, reply, {}), b.journal[id - 1];
      && (error.None? <==> t.status.Processing? && CanBePaid(b.accounts, t))
      && (error.None? ==> c == b.(accounts := c.accounts, journal := b.journal[id - 1 := t.(status := Completed)]))
      && (error.Some? ==> c == b)
      && (error.Some? && t.payer in b.accounts && t.recipient in b.accounts &&
          BankAccountFor(t.startCurrency) in b.accounts && BankAccountFor(t.endCurrency) in b.accounts ==>
            HasStatus(error.value, 400))
      && (t.status.Processing? && t.payer !in b.accounts ==> error.Some? && error.value.Plain?)
  {
  }

  /** An id without an entry is answered with 500. */
  lemma UnknownEntry(b: Books, id: nat, reply: Pay.Reply, success: bool)
    requires !(1 <= id <= |b.journal|)
    ensures var (c, error) := Pay.Process(b, id, reply, {}); c == b && error.Some? && HasStatus(error.value, 500)
    ensures var (c, error) := Pay.Finalize(b, id, success, {}); c == b && error.Some? && HasStatus(error.value, 500)
  {
  }

  /** A repository call that fails leaves a local payment open, and everything else as it was. No money moves
      without the lookups, the updates of the accounts that move, and the update of the entry. */
  lemma FailuresPayNothing(b: Books, id: nat, reply: Pay.Reply, down: set<RepoOp>)
    requires 1 <= id <= |b.journal| && !IsForeign(b.journal[id - 1].recipient)
    ensures var (c, error), without := Pay.Process(b, id, reply, down), Pay.Process(b, id, reply, {});
      && (without == (c, error) || (c == b && error.Some?))
      && (c != b ==> down !! {GetTransaction, FindPayer, FindRecipient, UpdateTransaction})
      && (c != b && b.journal[id - 1].startCurrency == b.journal[id - 1].endCurrency ==> down !! {UpdatePayer, UpdateRecipient})
      && (c != b && b.journal[id - 1].startCurrency != b.journal[id - 1].endCurrency ==>
            down !! {FindBankTo, FindBankFrom, FindAccount, UpdateAccount})
  {
  }

  // ----- payments to another bank -----

  /** The replies that leave open whether the other bank has carried out the payment. */
  predicate LeavesItOpen(reply: Pay.Reply) {
    || reply.Accepted?
    || reply.code == Some(Unavailable) || reply.code == Some(DeadlineExceeded) || reply.code == Some(Canceled)
  }

  /** Handing an open payment over to another bank changes nothing if the bank accepts it or its answer is lost on
      the way, and rejects the payment on any other answer, also one without a code. No account ever moves. */
  lemma HandingOverAnswers(b: Books, id: nat, reply: Pay.Reply)
    requires 1 <= id <= |b.journal| && b.journal[id - 1].status.Processing? && IsForeign(b.journal[id - 1].recipient)
    ensures var (c, error) := Pay.Process(b, id, reply, {});
      && (c == b <==> LeavesItOpen(reply))
      && (c != b ==> c == b.(journal := b.journal[id - 1 := b.journal[id - 1].(status := Rejected)]))
      && (error.None? <==> reply.Accepted?)
  {
  }

  /** What the payer is told: 400 for a payment that the interbank service finds wrong, 404 for one that it cannot
      place, 503 when it is away, and 500 for any other answer. */
  lemma HandingOverErrors(b: Books, id: nat, reply: Pay.Reply)
    requires 1 <= id <= |b.journal| && b.journal[id - 1].status.Processing? && IsForeign(b.journal[id - 1].recipient)
    requires reply.Refused?
    ensures var error := Pay.Process(b, id, reply, {}).1;
      && error.Some?
      && (HasStatus(error.value, 400) <==> reply.code == Some(FailedPrecondition) || reply.code == Some(InvalidArgument))
      && (HasStatus(error.value, 404) <==> reply.code == Some(NotFound))
      && (HasStatus(error.value, 503) <==> reply.code == Some(Unavailable))
      && (HasStatus(error.value, 500) <==>
          reply.code.None? || reply.code.value !in {FailedPrecondition, InvalidArgument, NotFound, Unavailable})
      && (HasStatus(error.value, 400) || HasStatus(error.value, 404) ==> error.value.message == reply.message)
  {
  }

  /** A closed payment is not handed over again: 400, and nothing changes. */
  lemma ClosedIsNotHandedOver(b: Books, id: nat, reply: Pay.Reply)
    requires 1 <= id <= |b.journal| && !b.journal[id - 1].status.Processing?
    ensures var (c, error) := Pay.Process(b, id, reply, {}); c == b && error.Some? && HasStatus(error.value, 400)
  {
  }

  /** The reported outcome closes an open entry as it says, and a closed one is left alone without an error. */
  lemma OutcomeAnswers(b: Books, id: nat, success: bool)
    requires 1 <= id <= |b.journal|
    ensures var (c, error), t := Pay.Finalize(b, id, success, {}), b.journal[id - 1];
      && error.None?
      && c == if !t.status.Processing? then b
              else b.(journal := b.journal[id - 1 := t.(status := if success then Completed else Rejected)])
  {
  }

  /** A repository call that fails leaves a payment to another bank as it was, with an error. */
  lemma FailuresCloseNothing(b: Books, id: nat, reply: Pay.Reply, success: bool, down: set<RepoOp>)
    requires 1 <= id <= |b.journal| && IsForeign(b.journal[id - 1].recipient)
    ensures var (c, error) := Pay.Process(b, id, reply, down);
      (c, error) == Pay.Process(b, id, reply, {}) || (c == b && error.Some? && HasStatus(error.value, 500))
    ensures Pay.Process(b, id, reply, down).0 != b ==> down !! {GetTransaction, UpdateTransaction}
    ensures var (c, error) := Pay.Finalize(b, id, success, down);
      (c, error) == Pay.Finalize(b, id, success, {}) || (c == b && error.Some?)
    ensures Pay.Finalize(b, id, success, down).0 != b ==> down !! {GetTransaction, UpdateTransaction}
  {
  }
}
