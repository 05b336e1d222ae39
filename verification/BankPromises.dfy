/** What clients of the two-phase protocols may rely on after any run of the bank, in which one database
    transaction follows the other. */
module BankPromises {
  import opened Prelude
  import opened Sequences
  import opened ExchangeRates
  import opened Books
  import opened BankRuns
  import Text
  import Trade = TradeSettlement
  import Otc = OtcFunds
  import Cash = InterbankCash
  import Pay = Payments

  /** Rates are positive, and so are the amounts of payments, which requests are checked for on arrival. */
  predicate Proper(s: Step) {
    match s
    case RecordTrade(_, rates, _) => Positive(rates)
    case Reserve(_, rates, _) => Positive(rates)
    case RecordPayment(req, _, rates, _) => Positive(rates) && req.amount > 0.0
    case _ => true
  }

  /** A run of proper steps, each with an id that was handed out for it. */
  predicate ProperRun(b: Books, steps: seq<Step>) {
    AlwaysRouted(b, steps) && forall s :: s in steps ==> Proper(s)
  }

  ghost predicate Sound(opening: map<string, real>, b: Books) {
    Reconciled(opening, b) && Linked(b) && Solvent(b)
  }

  // ----- nobody is overdrawn -----

  lemma RecordKeepsSolvent(b: Books, req: Trade.TradeRequest, rates: RatesRead, down: set<RepoOp>)
    requires Solvent(b) && Positive(rates)
    ensures Solvent(Trade.RecordTrade(b, req, rates, down))
  {
    var currencies := Trade.Currencies(b.accounts);
    if Trade.Obstacle(currencies, req, rates, down).None? {
      ConvertKeepsSign(req.amount, currencies[BANK_ACCOUNTS[Trade.CurrencyOf(req)]], currencies[Trade.CustomerOf(req)], rates);
    }
  }

  lemma ProcessKeepsSolvent(b: Books, id: nat, down: set<RepoOp>)
    requires Solvent(b) && Linked(b) && Routed(b, ProcessTrade(id, down))
    ensures Solvent(Trade.Processed(b, id, down))
  {
    if Trade.ProcessTrade(b, id, down).Ok? {
      assert b.journal[id - 1] in b.journal;
    }
  }

  lemma ActKeepsSolvent(b: Books, action: Otc.Action, i: nat, down: set<RepoOp>)
    requires Solvent(b) && Linked(b) && i < |b.reservations|
    requires Otc.Settle(action, b.accounts, b.reservations[i], down).Ok?
    ensures Solvent(Otc.Acted(b, action, i, down))
  {
    assert b.reservations[i] in b.reservations;
  }

  lemma ReserveKeepsSolvent(b: Books, req: Otc.ReserveRequest, rates: RatesRead, down: set<RepoOp>)
    requires Solvent(b) && Positive(rates)
    ensures Solvent(Otc.Reserve(b, req, rates, down).0)
  {
    Otc.ReserveShape(b, req, rates, down);
  }

  lemma CashKeepsSolvent(b: Books, s: Step)
    requires Solvent(b) && Linked(b) && (s.Prepare? || s.Decide?)
    ensures Solvent(Apply(b, s))
  {
    match s
    case Prepare(req, rates, down) => Cash.PrepareShape(b, Cash.Trimmed(req), rates, down);
    case Decide(verdict, id, down) => Cash.DecideShape(b, verdict, Text.Trim(id), down);
  }

  lemma RecordPaymentKeepsSolvent(b: Books, req: Pay.PaymentRequest, sameClient: bool, rates: RatesRead, down: set<RepoOp>)
    requires Solvent(b) && Positive(rates) && req.amount > 0.0
    ensures Solvent(Pay.Record(b, req, sameClient, rates, down).0)
  {
    Pay.RecordShape(b.accounts, req, sameClient, rates, down);
  }

  lemma ClosingKeepsSolvent(b: Books, id: nat, status: TransactionStatus)
    requires Solvent(b) && 1 <= id <= |b.journal|
    ensures Solvent(b.(journal := Pay.WithStatus(b.journal, id, status)))
  {
    assert b.journal[id - 1] in b.journal;
  }

  /** A payment never takes more from an account than is available there: the payer's account and the
      bank's account that pays out are in different currencies, so they are not the same. */
  lemma PaymentIsCovered(accounts: map<string, Account>, t: Transaction, n: string)
    requires Seeded(accounts) && PaymentLinked(accounts, t) && !IsForeign(t.recipient)
    requires Pay.PaymentObstacle(accounts, t, {}).None? && t.startAmount > 0.0 && t.endAmount > 0.0
    requires n in accounts && accounts[n].available >= 0.0
    ensures accounts[n].available + PaymentLeg(t, n) >= 0.0
  {
    if t.startCurrency != t.endCurrency {
      assert t.startCurrency in BANK_ACCOUNTS && t.endCurrency in BANK_ACCOUNTS;
      assert BANK_ACCOUNTS[t.startCurrency] != BANK_ACCOUNTS[t.endCurrency];
      assert t.payer != BANK_ACCOUNTS[t.endCurrency];
    }
  }

  lemma ProcessPaymentKeepsSolvent(b: Books, id: nat, reply: Pay.Reply, down: set<RepoOp>)
    requires Solvent(b) && Linked(b) && Routed(b, ProcessPayment(id, reply, down))
    ensures Solvent(Pay.Process(b, id, reply, down).0)
  {
    Pay.ProcessShape(b, id, reply, down);
    var c := Pay.Process(b, id, reply, down).0;
    if c != b {
      var t := b.journal[id - 1];
      assert t in b.journal;
      ClosingKeepsSolvent(b, id, c.journal[id - 1].status);
      if !IsForeign(t.recipient) {
        forall n | n in b.accounts
          ensures Pay.Paid(b.accounts, t)[n].available >= 0.0
        {
          PaymentIsCovered(b.accounts, t, n);
        }
      }
    }
  }

  lemma FinalizeKeepsSolvent(b: Books, id: nat, success: bool, down: set<RepoOp>)
    requires Solvent(b)
    ensures Solvent(Pay.Finalize(b, id, success, down).0)
  {
    Pay.FinalizeShape(b, id, success, down);
    if Pay.Finalize(b, id, success, down).0 != b {
      ClosingKeepsSolvent(b, id, if success then Completed else Rejected);
    }
  }

  lemma StepKeepsSolvent(b: Books, s: Step)
    requires Solvent(b) && Linked(b) && Routed(b, s) && Proper(s)
    ensures Solvent(Apply(b, s))
  {
    match s
    case RecordTrade(req, rates, down) => RecordKeepsSolvent(b, req, rates, down);
    case ProcessTrade(id, down) => ProcessKeepsSolvent(b, id, down);
    case Reserve(req, rates, down) => ReserveKeepsSolvent(b, req, rates, down);
    case Act(action, id, down) =>
      Otc.ActShape(b, action, id, down);
      if Apply(b, s) != b {
        ActKeepsSolvent(b, action, IndexOf(b.reservations, Otc.HasID(Text.Trim(id))).value, down);
      }
    case Prepare(_, _, _) => CashKeepsSolvent(b, s);
    case Decide(_, _, _) => CashKeepsSolvent(b, s);
    case RecordPayment(req, sameClient, rates, down) => RecordPaymentKeepsSolvent(b, req, sameClient, rates, down);
    case ProcessPayment(id, reply, down) => ProcessPaymentKeepsSolvent(b, id, reply, down);
    case FinalizePayment(id, success, down) => FinalizeKeepsSolvent(b, id, success, down);
  }

  /** With positive exchange rates no available balance ever becomes negative. */
  lemma {:induction false} NobodyIsOverdrawn(opening: map<string, real>, b: Books, steps: seq<Step>)
    requires Sound(opening, b) && ProperRun(b, steps)
    ensures Sound(opening, Run(b, steps))
  {
    BooksAlwaysBalance(opening, b, steps);
    if steps != [] {
      var init := steps[..|steps| - 1];
      NobodyIsOverdrawn(opening, b, init);
      StepKeepsSolvent(Run(b, init), steps[|steps| - 1]);
    }
  }

  // ----- promises kept after any run -----

  /** A row found by its id stays the row found by that id. */
  lemma HandlesAreStable(b: Books, c: Books, id: string)
    requires Evolves(b, c)
    ensures IndexOf(b.reservations, Otc.HasID(id)).Some? ==>
              IndexOf(c.reservations, Otc.HasID(id)) == IndexOf(b.reservations, Otc.HasID(id))
    ensures IndexOf(b.postings, Cash.HasID(id)).Some? ==>
              IndexOf(c.postings, Cash.HasID(id)) == IndexOf(b.postings, Cash.HasID(id))
  {
    var i, j := IndexOf(b.reservations, Otc.HasID(id)), IndexOf(c.reservations, Otc.HasID(id));
    if i.Some? {
      assert Otc.HasID(id)(c.reservations[i.value]);
      assert forall n :: 0 <= n < i.value ==> !Otc.HasID(id)(c.reservations[n]);
    }
    var k, l := IndexOf(b.postings, Cash.HasID(id)), IndexOf(c.postings, Cash.HasID(id));
    if k.Some? {
      assert Cash.HasID(id)(c.postings[k.value]);
      assert forall n :: 0 <= n < k.value ==> !Cash.HasID(id)(c.postings[n]);
    }
  }

  lemma DecisionGoesThrough(opening: map<string, real>, c: Books, id: string, i: nat, verdict: Cash.Verdict)
    requires Sound(opening, c) && IndexOf(c.postings, Cash.HasID(id)) == Some(i)
    requires c.postings[i].status.Prepared?
    ensures Cash.DecideOn(c, verdict, id, {}).1.Ok? <==> verdict.Rollback? || c.postings[i].bankingTxID <= |c.journal|
  {
    var p := c.postings[i];
    assert p in c.postings;
    if p.amount < 0.0 {
      PostingIsCovered(opening, c, i);
    }
    DecidesExactly(c, id, i, verdict);
  }

  lemma DecidesExactly(c: Books, id: string, i: nat, verdict: Cash.Verdict)
    requires IndexOf(c.postings, Cash.HasID(id)) == Some(i) && c.postings[i].status.Prepared?
    requires var p := c.postings[i];
      p.account in c.accounts && (p.amount < 0.0 ==> -p.amount <= c.accounts[p.account].balance)
    ensures Cash.DecideOn(c, verdict, id, {}).1.Ok? <==> verdict.Rollback? || c.postings[i].bankingTxID <= |c.journal|
  {
  }

  /** The participant's promise of two-phase commit: whatever else happened since it was prepared, and
      with its amount frozen, a prepared posting can always be rolled back, and always be committed if the
      entry it names, if any, was there when it was prepared. Otherwise it can be committed exactly once that
      entry is there. Besides transactions that overlap, only a failing repository call can get in the way. */
  lemma PreparedPostingsCanAlwaysBeDecided(
      opening: map<string, real>, b: Books, steps: seq<Step>, id: string, i: nat, verdict: Cash.Verdict)
    requires Sound(opening, b) && ProperRun(b, steps)
    requires IndexOf(b.postings, Cash.HasID(id)) == Some(i)
    ensures var c := Run(b, steps);
      && i < |c.postings|
      && var p := c.postings[i];
      && p == b.postings[i].(status := p.status)
      && (p.status.Prepared? ==>
            && (Cash.DecideOn(c, verdict, id, {}).1.Ok? <==> verdict.Rollback? || p.bankingTxID <= |c.journal|)
            && (p.bankingTxID <= |b.journal| ==> Cash.DecideOn(c, verdict, id, {}).1.Ok?))
  {
    var c := Run(b, steps);
    BooksAlwaysBalance(opening, b, steps);
    NobodyIsOverdrawn(opening, b, steps);
    HandlesAreStable(b, c, id);
    if c.postings[i].status.Prepared? {
      DecisionGoesThrough(opening, c, id, i, verdict);
    }
  }

  /** Committing a posting that names an entry moves exactly its amount and writes no second entry, and the
      other bank's outcome then completes the named entry if it is still open. */
  predicate GoesThrough(c: Books, key: string, p: Posting)
    requires p.account in c.accounts && 1 <= p.bankingTxID <= |c.journal|
  {
    var (settled, decided) := Cash.DecideOn(c, Cash.Commit, key, {});
    var (closed, error) := Pay.Finalize(settled, p.bankingTxID, true, {});
    && decided.Ok? && settled.journal == c.journal
    && settled.accounts == c.accounts[p.account := settled.accounts[p.account]]
    && settled.accounts[p.account].balance == c.accounts[p.account].balance + p.amount
    && error.None? && closed.accounts == settled.accounts
    && closed.journal == if c.journal[p.bankingTxID - 1].status.Processing?
                         then Pay.WithStatus(c.journal, p.bankingTxID, Completed) else c.journal
  }

  lemma CommitGoesThrough(c: Books, key: string, i: nat)
    requires IndexOf(c.postings, Cash.HasID(key)) == Some(i) && c.postings[i].status.Prepared?
    requires c.postings[i].account in c.accounts && 1 <= c.postings[i].bankingTxID <= |c.journal|
    requires Cash.DecideOn(c, Cash.Commit, key, {}).1.Ok?
    ensures GoesThrough(c, key, c.postings[i])
  {
    Cash.DecideShape(c, Cash.Commit, key, {});
  }

  /** The payer's side of a payment to another bank: once its posting is prepared, then after any run it
      goes through. */
  lemma OutgoingPaymentGoesThrough(opening: map<string, real>, b: Books, steps: seq<Step>, key: string, i: nat)
    requires Sound(opening, b) && ProperRun(b, steps)
    requires IndexOf(b.postings, Cash.HasID(key)) == Some(i) && 1 <= b.postings[i].bankingTxID <= |b.journal|
    ensures var c := Run(b, steps);
      && i < |c.postings| && c.postings[i] == b.postings[i].(status := c.postings[i].status)
      && c.postings[i].account in c.accounts && |b.journal| <= |c.journal|
      && (c.postings[i].status.Prepared? ==> GoesThrough(c, key, c.postings[i]))
  {
    var c := Run(b, steps);
    PreparedPostingsCanAlwaysBeDecided(opening, b, steps, key, i, Cash.Commit);
    BooksAlwaysBalance(opening, b, steps);
    HandlesAreStable(b, c, key);
    assert b.postings[i] in b.postings;
    if c.postings[i].status.Prepared? {
      CommitGoesThrough(c, key, i);
    }
  }

  lemma ActionGoesThrough(opening: map<string, real>, c: Books, id: string, i: nat, action: Otc.Action)
    requires Sound(opening, c) && IndexOf(c.reservations, Otc.HasID(id)) == Some(i)
    requires c.reservations[i].status == Otc.Origin(action)
    requires c.reservations[i].seller in c.accounts
    ensures Otc.ActOn(c, action, id, {}).1.Ok? <==>
            !action.Refund? || c.reservations[i].destinationAmount <= c.accounts[c.reservations[i].seller].available
  {
    var r := c.reservations[i];
    assert r in c.reservations;
    if r.status.Reserved? {
      ReservationIsCovered(opening, c, i);
    }
    HeldIsNonNegative(c, r.seller);
    SettlesExactly(c.accounts, r, action);
    ActsExactly(c, id, i, action);
  }

  lemma SettlesExactly(accounts: map<string, Account>, r: Reservation, action: Otc.Action)
    requires r.buyer in accounts && r.seller in accounts && accounts[r.seller].available <= accounts[r.seller].balance
    requires var buyer := accounts[r.buyer];
      action.Commit? ==> r.sourceAmount <= buyer.balance - buyer.available && r.sourceAmount <= buyer.balance
    ensures Otc.Settle(action, accounts, r, {}).Ok? <==>
            !action.Refund? || r.destinationAmount <= accounts[r.seller].available
  {
  }

  lemma ActsExactly(c: Books, id: string, i: nat, action: Otc.Action)
    requires IndexOf(c.reservations, Otc.HasID(id)) == Some(i) && c.reservations[i].status == Otc.Origin(action)
    ensures Otc.ActOn(c, action, id, {}).1.Ok? <==> Otc.Settle(action, c.accounts, c.reservations[i], {}).Ok?
  {
  }

  /** Reserved funds can always be released and always be committed: where no transactions overlap, the
      consistency checks of a commit never fire. A committed trade can be refunded exactly as long as the
      seller still has the money. */
  lemma ReservedFundsCanAlwaysBeSettled(
      opening: map<string, real>, b: Books, steps: seq<Step>, id: string, i: nat, action: Otc.Action)
    requires Sound(opening, b) && ProperRun(b, steps)
    requires IndexOf(b.reservations, Otc.HasID(id)) == Some(i)
    ensures var c := Run(b, steps);
      && i < |c.reservations|
      && var r := c.reservations[i];
      && r == b.reservations[i].(status := r.status)
      && r.seller in c.accounts
      && (r.status == Otc.Origin(action) ==>
            (Otc.ActOn(c, action, id, {}).1.Ok? <==>
             !action.Refund? || r.destinationAmount <= c.accounts[r.seller].available))
  {
    var c := Run(b, steps);
    BooksAlwaysBalance(opening, b, steps);
    NobodyIsOverdrawn(opening, b, steps);
    HandlesAreStable(b, c, id);
    assert c.reservations[i] in c.reservations;
    if c.reservations[i].status == Otc.Origin(action) {
      ActionGoesThrough(opening, c, id, i, action);
    }
  }

  lemma HeldIsNonNegative(b: Books, a: string)
    requires Solvent(b)
    ensures Held(b, a) >= 0.0
  {
    SumNonNegative(b.reservations, ReservedBy(a));
    SumNonNegative(b.postings, PreparedBy(a));
  }

  // ----- undoing -----

  lemma AddedRowIsFound(rows: seq<Reservation>, r: Reservation)
    requires IndexOf(rows, Otc.HasID(r.executionID)).None?
    ensures IndexOf(rows + [r], Otc.HasID(r.executionID)) == Some(|rows|)
  {
    var all, found := rows + [r], IndexOf(rows + [r], Otc.HasID(r.executionID));
    assert Otc.HasID(r.executionID)(all[|rows|]);
    assert forall i :: 0 <= i < |rows| ==> all[i] == rows[i];
  }

  /** Releasing a fresh reservation, or committing and refunding it, puts every account back exactly. */
  lemma ReservationsAreUndone(opening: map<string, real>, b: Books, request: Otc.ReserveRequest, rates: RatesRead)
    requires Sound(opening, b) && Positive(rates)
    ensures var (reserved, result) := Otc.Reserve(b, request, rates, {});
      result.Ok? && reserved != b ==>
        var id := result.value.executionID;
        && Otc.ActOn(reserved, Otc.Release, id, {}).0.accounts == b.accounts
        && Otc.ActOn(Otc.ActOn(reserved, Otc.Commit, id, {}).0, Otc.Refund, id, {}).0.accounts == b.accounts
  {
    Otc.ReserveShape(b, request, rates, {});
    var reserved, result := Otc.Reserve(b, request, rates, {}).0, Otc.Reserve(b, request, rates, {}).1;
    if result.Ok? && reserved != b {
      var r := result.value;
      AddedRowIsFound(b.reservations, r);
      HeldIsNonNegative(b, r.buyer);
      HeldIsNonNegative(b, r.seller);
      ReleaseUndoes(b, r);
      RefundUndoes(b, r);
    }
  }

  lemma ReleaseUndoes(b: Books, r: Reservation)
    requires r.status.Reserved? && r.buyer in b.accounts
    requires IndexOf(b.reservations, Otc.HasID(r.executionID)).None?
    ensures Otc.ActOn(Otc.WithReservation(b, r), Otc.Release, r.executionID, {}).0.accounts == b.accounts
  {
    AddedRowIsFound(b.reservations, r);
  }

  lemma RefundUndoes(b: Books, r: Reservation)
    requires r.status.Reserved? && r.buyer in b.accounts && r.seller in b.accounts && r.buyer != r.seller
    requires IndexOf(b.reservations, Otc.HasID(r.executionID)).None?
    requires r.sourceAmount > 0.0 && r.destinationAmount > 0.0
    requires r.sourceAmount <= b.accounts[r.buyer].available <= b.accounts[r.buyer].balance
    requires 0.0 <= b.accounts[r.seller].available <= b.accounts[r.seller].balance
    ensures var reserved := Otc.WithReservation(b, r);
      var committed := Otc.ActOn(reserved, Otc.Commit, r.executionID, {}).0;
      Otc.ActOn(committed, Otc.Refund, r.executionID, {}).0.accounts == b.accounts
  {
    AddedRowIsFound(b.reservations, r);
    var reserved := Otc.WithReservation(b, r);
    var committed := Otc.ActOn(reserved, Otc.Commit, r.executionID, {}).0;
    assert committed == Otc.Acted(reserved, Otc.Commit, |b.reservations|, {});
    var done := r.(status := Committed);
    assert committed.reservations == b.reservations + [done];
    AddedRowIsFound(b.reservations, done);
  }

  /** A repeated action changes nothing, and answers with the same row. */
  lemma RepeatedActionIsHarmless(b: Books, id: string, action: Otc.Action, down: set<RepoOp>)
    ensures var (once, result) := Otc.ActOn(b, action, id, down);
      result.Ok? ==> Otc.ActOn(once, action, id, down) == (once, result)
  {
    var i := IndexOf(b.reservations, Otc.HasID(id));
    if i.Some? {
      RowRewritten(b.reservations, i.value, Otc.HasID(id), b.reservations[i.value].(status := Otc.Target(action)));
    }
  }

  /** A retransmitted decision changes nothing, and answers with the same row. */
  lemma RepeatedDecisionIsHarmless(b: Books, id: string, verdict: Cash.Verdict, down: set<RepoOp>)
    ensures var (once, result) := Cash.DecideOn(b, verdict, id, down);
      result.Ok? ==> Cash.DecideOn(once, verdict, id, down) == (once, result)
  {
    Cash.DecideShape(b, verdict, id, down);
    var i := IndexOf(b.postings, Cash.HasID(id));
    if i.Some? {
      RowRewritten(b.postings, i.value, Cash.HasID(id), b.postings[i.value].(status := Cash.Decided(verdict)));
    }
  }

  lemma RowRewritten<T>(rows: seq<T>, i: nat, p: T -> bool, row: T)
    requires IndexOf(rows, p) == Some(i) && p(row)
    ensures IndexOf(rows[i := row], p) == Some(i)
  {
    var again := rows[i := row];
    assert p(again[i]);
    assert forall k :: 0 <= k < i ==> again[k] == rows[k];
  }
}
