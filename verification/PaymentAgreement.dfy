/** A payment to another bank is kept twice: as an entry of the journal, and as the cash posting that names it. */
module PaymentAgreement {
  import opened Prelude
  import opened Sequences
  import opened ExchangeRates
  import opened Books
  import opened BankRuns
  import opened BankPromises
  import opened PaymentLaws
  import Text
  import Otc = OtcFunds
  import Cash = InterbankCash
  import Pay = Payments

  /** Entry `id` is a payment to another bank, and posting `i`, found by `key`, names it. */
  predicate Paired(b: Books, id: nat, key: string, i: nat) {
    && 1 <= id <= |b.journal| && IsOutgoing(b.journal[id - 1])
    && IndexOf(b.postings, Cash.HasID(key)) == Some(i) && b.postings[i].bankingTxID == id
  }

  /** A closed entry says what became of the posting: completed if it was committed, rejected if rolled back. */
  predicate Agree(b: Books, id: nat, i: nat)
    requires 1 <= id <= |b.journal| && i < |b.postings|
  {
    match b.journal[id - 1].status
    case Processing => true
    case Completed => b.postings[i].status.CashCommitted?
    case Rejected => b.postings[i].status.RolledBack?
  }

  /** A step closes the entry while the posting is not decided in the same way, or holds the rolled back posting
      of a rejected entry again. */
  predicate Divides(b: Books, s: Step, id: nat, key: string, i: nat)
    requires 1 <= id <= |b.journal| && i < |b.postings|
  {
    var posting := b.postings[i].status;
    Apply(b, s) != b &&
    match s
    case ProcessPayment(n, _, _) => n == id && !posting.RolledBack?
    case FinalizePayment(n, success, _) => n == id && if success then !posting.CashCommitted? else !posting.RolledBack?
    case Prepare(req, _, _) => Text.Trim(req.postingID) == key && b.journal[id - 1].status.Rejected?
    case _ => false
  }

  lemma StaysPaired(b: Books, c: Books, id: nat, key: string, i: nat)
    requires Paired(b, id, key, i) && Evolves(b, c)
    ensures Paired(c, id, key, i)
  {
    HandlesAreStable(b, c, key);
  }

  lemma OutcomeDivides(b: Books, s: Step, id: nat, key: string, i: nat)
    requires Linked(b) && Paired(b, id, key, i) && Agree(b, id, i) && s.FinalizePayment?
    ensures var c := Apply(b, s);
      && 1 <= id <= |c.journal| && i < |c.postings|
      && (Agree(c, id, i) <==> !Divides(b, s, id, key, i))
  {
    Pay.FinalizeShape(b, s.id, s.success, s.down);
  }

  lemma HandingOverDivides(b: Books, s: Step, id: nat, key: string, i: nat)
    requires Linked(b) && Paired(b, id, key, i) && Agree(b, id, i) && s.ProcessPayment?
    ensures var c := Apply(b, s);
      && 1 <= id <= |c.journal| && i < |c.postings|
      && (Agree(c, id, i) <==> !Divides(b, s, id, key, i))
  {
    Pay.ProcessShape(b, s.id, s.reply, s.down);
  }

  lemma PreparingDivides(b: Books, s: Step, id: nat, key: string, i: nat)
    requires Linked(b) && Paired(b, id, key, i) && Agree(b, id, i) && s.Prepare?
    ensures var c := Apply(b, s);
      && 1 <= id <= |c.journal| && i < |c.postings|
      && (Agree(c, id, i) <==> !Divides(b, s, id, key, i))
  {
    Cash.PrepareShape(b, Cash.Trimmed(s.prepare), s.rates, s.down);
  }

  lemma DecidingAgrees(b: Books, s: Step, id: nat, key: string, i: nat)
    requires Linked(b) && Paired(b, id, key, i) && Agree(b, id, i) && s.Decide?
    ensures var c := Apply(b, s);
      1 <= id <= |c.journal| && i < |c.postings| && Agree(c, id, i)
  {
    Cash.DecideShape(b, s.verdict, Text.Trim(s.postingID), s.down);
  }

  lemma OthersAgree(b: Books, s: Step, id: nat, key: string, i: nat)
    requires Linked(b) && Routed(b, s) && Paired(b, id, key, i) && Agree(b, id, i)
    requires s.RecordTrade? || s.ProcessTrade? || s.Reserve? || s.Act? || s.RecordPayment?
    ensures var c := Apply(b, s);
      1 <= id <= |c.journal| && i < |c.postings| && Agree(c, id, i)
  {
    match s
    case RecordTrade(_, _, _) =>
    case ProcessTrade(_, _) =>
    case Reserve(req, rates, down) => Otc.ReserveShape(b, req, rates, down);
    case Act(action, executionID, down) => Otc.ActShape(b, action, executionID, down);
    case RecordPayment(_, _, _, _) =>
  }

  /** Exactly the dividing steps make the entry and its posting disagree. */
  lemma AgreementExactly(b: Books, s: Step, id: nat, key: string, i: nat)
    requires Linked(b) && Routed(b, s) && Paired(b, id, key, i) && Agree(b, id, i)
    ensures var c := Apply(b, s);
      && 1 <= id <= |c.journal| && i < |c.postings|
      && (Agree(c, id, i) <==> !Divides(b, s, id, key, i))
  {
    if s.ProcessPayment? {
      HandingOverDivides(b, s, id, key, i);
    } else if s.FinalizePayment? {
      OutcomeDivides(b, s, id, key, i);
    } else if s.Prepare? {
      PreparingDivides(b, s, id, key, i);
    } else if s.Decide? {
      DecidingAgrees(b, s, id, key, i);
    } else {
      OthersAgree(b, s, id, key, i);
    }
  }

  /** No step of the run divides the two. */
  predicate NeverDivided(b: Books, steps: seq<Step>, id: nat, key: string, i: nat) {
    steps == [] ||
    var init := steps[..|steps| - 1];
    var c := Run(b, init);
    && NeverDivided(b, init, id, key, i)
    && (1 <= id <= |c.journal| && i < |c.postings| ==> !Divides(c, steps[|steps| - 1], id, key, i))
  }

  /** The two agree after every step of the run. */
  predicate AlwaysAgree(b: Books, steps: seq<Step>, id: nat, i: nat) {
    var c := Run(b, steps);
    && 1 <= id <= |c.journal| && i < |c.postings| && Agree(c, id, i)
    && (steps == [] || AlwaysAgree(b, steps[..|steps| - 1], id, i))
  }

  /** Over any run: the entry and the posting agree all the time exactly if no step divides them. */
  lemma {:induction false} AgreementThroughoutExactly(b: Books, steps: seq<Step>, id: nat, key: string, i: nat)
    requires Linked(b) && AlwaysRouted(b, steps) && Paired(b, id, key, i) && Agree(b, id, i)
    ensures AlwaysAgree(b, steps, id, i) <==> NeverDivided(b, steps, id, key, i)
  {
    if steps != [] {
      var init, s := steps[..|steps| - 1], steps[|steps| - 1];
      AgreementThroughoutExactly(b, init, id, key, i);
      RunFrame(b, init);
      if AlwaysAgree(b, init, id, i) {
        StaysPaired(b, Run(b, init), id, key, i);
        AgreementExactly(Run(b, init), s, id, key, i);
      }
    }
  }

  /** A run in which they part: a payment is handed over twice, its posting is prepared the first time, and the
      second time it is refused for good. The entry is rejected, and yet the money can leave, and the success
      that is reported then changes nothing. */
  lemma SecondHandingOverDivides(b: Books, id: nat, key: string, i: nat, reply: Pay.Reply)
    requires Paired(b, id, key, i) && b.journal[id - 1].status.Processing? && b.postings[i].status.Prepared?
    requires Definitive(reply) && Cash.DecideOn(b, Cash.Commit, key, {}).1.Ok?
    ensures var refused := Pay.Process(b, id, reply, {}).0;
      var committed := Cash.DecideOn(refused, Cash.Commit, key, {}).0;
      var reported := Pay.Finalize(committed, id, true, {}).0;
      && id <= |reported.journal| && i < |reported.postings|
      && reported.journal[id - 1].status.Rejected? && reported.postings[i].status.CashCommitted?
      && !Agree(reported, id, i)
  {
  }

  // ----- with the payment's own terms -----

  /** The posting that the interbank service prepares for the payer of entry `t`. */
  predicate OwnTerms(req: Cash.PrepareRequest, t: Transaction, id: nat) {
    && Text.Trim(req.accountNumber) == t.payer && t.payer != "" && req.currency == t.startCurrency
    && req.amount == -t.startAmount && req.bankingTxID == id
  }

  lemma PreparedOnOwnTerms(b: Books, request: Cash.PrepareRequest, rates: RatesRead, id: nat)
    requires Linked(b) && 1 <= id <= |b.journal| && b.journal[id - 1].origin.Payment?
    requires OwnTerms(request, b.journal[id - 1], id)
    requires Cash.Prepare(b, request, rates, {}).0 != b
    requires IndexOf(b.postings, Cash.HasID(Text.Trim(request.postingID))).None?
    ensures var (c, t, key) := (Cash.Prepare(b, request, rates, {}).0, b.journal[id - 1], Text.Trim(request.postingID));
      && c.journal == b.journal && |c.postings| == |b.postings| + 1
      && IndexOf(c.postings, Cash.HasID(key)) == Some(|b.postings|)
      && var p := c.postings[|b.postings|];
      && p.account == t.payer && p.amount == -t.startAmount && p.bankingTxID == id
  {
    var req, c, key := Cash.Trimmed(request), Cash.Prepare(b, request, rates, {}).0, Text.Trim(request.postingID);
    assert b.journal[id - 1] in b.journal;
    Cash.PrepareShape(b, req, rates, {});
    Cash.PostingTerms(b, req, rates, {});
    assert forall n :: 0 <= n < |b.postings| ==> c.postings[n] == b.postings[n] && !Cash.HasID(key)(c.postings[n]);
    assert Cash.HasID(key)(c.postings[|b.postings|]);
  }

  /** The payer's side from preparation to the end: prepared with the payment's own terms, and whatever runs
      then, the posting commits, and takes exactly the payment's amount from the payer. */
  lemma OutgoingPaymentTakesItsAmount(opening: map<string, real>, b: Books, request: Cash.PrepareRequest, rates: RatesRead,
                                      id: nat, steps: seq<Step>)
    requires Sound(opening, b) && 1 <= id <= |b.journal| && b.journal[id - 1].origin.Payment?
    requires OwnTerms(request, b.journal[id - 1], id)
    requires Cash.Prepare(b, request, rates, {}).0 != b
    requires IndexOf(b.postings, Cash.HasID(Text.Trim(request.postingID))).None?
    requires ProperRun(Cash.Prepare(b, request, rates, {}).0, steps)
    ensures var c, i, t := Run(Cash.Prepare(b, request, rates, {}).0, steps), |b.postings|, b.journal[id - 1];
      && i < |c.postings| && t.payer in c.accounts
      && (c.postings[i].status.Prepared? ==>
            var (settled, result) := Cash.DecideOn(c, Cash.Commit, Text.Trim(request.postingID), {});
            && result.Ok? && t.payer in settled.accounts
            && settled.accounts[t.payer].balance == c.accounts[t.payer].balance - t.startAmount)
  {
    var prepared, key, i := Cash.Prepare(b, request, rates, {}).0, Text.Trim(request.postingID), |b.postings|;
    PreparedOnOwnTerms(b, request, rates, id);
    StepKeepsBooks(opening, b, Prepare(request, rates, {}));
    StepKeepsSolvent(b, Prepare(request, rates, {}));
    OutgoingPaymentGoesThrough(opening, prepared, steps, key, i);
  }
}
