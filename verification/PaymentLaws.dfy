/** What payments promise over a whole run: delivery, and what the reported outcome does. */
module PaymentLaws {
  import opened Prelude
  import opened ExchangeRates
  import opened Books
  import opened BankRuns
  import opened SmallBooks
  import Pay = Payments

  // ----- delivery -----

  /** What the parties of a payment get and give. */
  function Delivered(t: Transaction, n: string): real {
    if n == t.payer then -t.startAmount else if n == t.recipient then t.endAmount else 0.0
  }

  /** What the bank's own accounts take in and pay out when a payment is exchanged. */
  function Exchanged(t: Transaction, n: string): real {
    if t.startCurrency == t.endCurrency then 0.0
    else
      var takenIn := if n == BankAccountFor(t.startCurrency) then t.startAmount else 0.0;
      var paidOut := if n == BankAccountFor(t.endCurrency) then t.endAmount else 0.0;
      takenIn - paidOut
  }

  lemma LegsAreParts(t: Transaction, n: string)
    requires t.payer != t.recipient
    ensures PaymentLeg(t, n) == Delivered(t, n) + Exchanged(t, n)
  {
  }

  /** If processing entry `id` succeeds, it is completed, and account `n` has moved by its parts in it. */
  predicate MovesByItsParts(c: Books, id: nat, reply: Pay.Reply, n: string)
    requires 1 <= id <= |c.journal| && n in c.accounts
  {
    var t, (d, error) := c.journal[id - 1], Pay.Process(c, id, reply, {});
    error.None? ==>
      && d.journal == Pay.WithStatus(c.journal, id, Completed) && n in d.accounts
      && d.accounts[n] == Moved(c.accounts, n, Delivered(t, n) + Exchanged(t, n), Delivered(t, n) + Exchanged(t, n))
  }

  lemma SettledMoves(c: Books, id: nat, reply: Pay.Reply, n: string)
    requires 1 <= id <= |c.journal| && !IsForeign(c.journal[id - 1].recipient) && n in c.accounts
    ensures MovesByItsParts(c, id, reply, n)
  {
    if Pay.Process(c, id, reply, {}).1.None? {
      LegsAreParts(c.journal[id - 1], n);
    }
  }

  /** The recipient is due the requested amount converted, and the payer owes the amount and the fee. */
  predicate HasTerms(t: Transaction, req: Pay.PaymentRequest, rates: RatesRead) {
    && t.origin.Payment? && t.payer == req.payer && t.recipient == req.recipient
    && t.startAmount == req.amount + t.commission
    && Convert(req.amount, t.startCurrency, t.endCurrency, rates) == Ok(t.endAmount)
  }

  lemma TermsAreKept(b: Books, req: Pay.PaymentRequest, sameClient: bool, rates: RatesRead, steps: seq<Step>)
    requires Linked(b)
    ensures var (recorded, made) := Pay.Record(b, req, sameClient, rates, {});
      made.Ok? ==>
        var c := Run(recorded, steps);
        1 <= made.value <= |c.journal| && c.accounts.Keys == b.accounts.Keys && HasTerms(c.journal[made.value - 1], req, rates)
  {
    Pay.RecordShape(b.accounts, req, sameClient, rates, {});
    StepFrame(b, RecordPayment(req, sameClient, rates, {}));
    RunFrame(Pay.Record(b, req, sameClient, rates, {}).0, steps);
  }

  /** A local payment, once it is recorded and then, after any run, processed, takes the amount and the fee
      from the payer, gives the recipient the amount converted at the rates of the request, lets an exchange
      pass through the bank's two accounts, and touches nobody else; a party may be the bank itself. */
  lemma PaymentDelivers(b: Books, req: Pay.PaymentRequest, sameClient: bool, rates: RatesRead, steps: seq<Step>,
                        reply: Pay.Reply, n: string)
    requires Linked(b) && !IsForeign(req.recipient) && n in b.accounts
    ensures var (recorded, made) := Pay.Record(b, req, sameClient, rates, {});
      made.Ok? ==>
        var c := Run(recorded, steps);
        && 1 <= made.value <= |c.journal| && n in c.accounts && HasTerms(c.journal[made.value - 1], req, rates)
        && MovesByItsParts(c, made.value, reply, n)
  {
    TermsAreKept(b, req, sameClient, rates, steps);
    var (recorded, made) := Pay.Record(b, req, sameClient, rates, {});
    if made.Ok? {
      SettledMoves(Run(recorded, steps), made.value, reply, n);
    }
  }

  // ----- handing over and outcome -----

  predicate Definitive(reply: Pay.Reply) { reply.Refused? && !Pay.Ambiguous(reply) }

  /** Handing an open payment over to the other bank: a definitive refusal rejects it for good, whatever runs
      and whatever outcome is reported later. Any other reply, also a lost one, changes nothing, and the first
      outcome that is reported while the payment is open decides. */
  lemma HandingOver(b: Books, id: nat, reply: Pay.Reply, steps: seq<Step>, success: bool)
    requires Linked(b) && 1 <= id <= |b.journal|
    requires b.journal[id - 1].status.Processing? && IsForeign(b.journal[id - 1].recipient)
    ensures var c := Pay.Process(b, id, reply, {}).0;
      var d := Run(c, steps);
      && |b.journal| <= |d.journal|
      && (Definitive(reply) ==> d.journal[id - 1].status.Rejected? && Pay.Finalize(d, id, success, {}).0 == d)
      && (!Definitive(reply) ==> c == b)
      && (d.journal[id - 1].status.Processing? ==>
            Pay.Finalize(d, id, success, {}).0.journal[id - 1].status == if success then Completed else Rejected)
  {
    var c := Pay.Process(b, id, reply, {}).0;
    StepFrame(b, ProcessPayment(id, reply, {}));
    RunFrame(c, steps);
  }

  /** The first outcome counts: once a payment is closed, no later outcome, processing or anything else that
      runs after it reopens it or changes how it was closed. */
  lemma OutcomeIsFinal(b: Books, id: nat, success: bool, steps: seq<Step>)
    requires Linked(b) && 1 <= id <= |b.journal| && b.journal[id - 1].status.Processing?
    ensures var c := Pay.Finalize(b, id, success, {}).0;
      && |Run(c, steps).journal| >= |b.journal|
      && Run(c, steps).journal[id - 1] == b.journal[id - 1].(status := if success then Completed else Rejected)
  {
    var c := Pay.Finalize(b, id, success, {}).0;
    StepFrame(b, FinalizePayment(id, success, {}));
    RunFrame(c, steps);
  }

  /** The entry is for nothing: on no account would it move anything. */
  predicate ForNothing(accounts: map<string, Account>, t: Transaction) {
    forall a :: a in accounts ==> OwnLeg(t, a) == 0.0
  }

  function OwnLeg(t: Transaction, a: string): real { if t.origin.Payment? then PaymentLeg(t, a) else Leg(t, a) }

  predicate IsOutgoing(t: Transaction) { t.origin.Payment? && IsForeign(t.recipient) }

  lemma ReportedLeg(t: Transaction, a: string, success: bool)
    requires !t.origin.CashRecord?
    ensures SettledBy(a)(t.(status := if success then Completed else Rejected)) ==
            if success && !IsOutgoing(t) then OwnLeg(t, a) else 0.0
  {
  }

  /** A success that is reported marks an entry completed and moves no money. So the books stay balanced
      exactly if a failure is reported, or the entry is a payment to another bank, or it is for nothing. */
  lemma OutcomeKeepsBooksExactly(opening: map<string, real>, b: Books, id: nat, success: bool)
    requires Reconciled(opening, b) && Linked(b) && 1 <= id <= |b.journal| && b.journal[id - 1].status.Processing?
    ensures var t := b.journal[id - 1];
      Reconciled(opening, Pay.Finalize(b, id, success, {}).0) <==>
      !success || IsOutgoing(t) || ForNothing(b.accounts, t)
  {
    var t, c := b.journal[id - 1], Pay.Finalize(b, id, success, {}).0;
    assert t in b.journal;
    forall a
      ensures Turnover(c, a) - Turnover(b, a) == if success && !IsOutgoing(t) then OwnLeg(t, a) else 0.0
      ensures Held(c, a) == Held(b, a)
    {
      JournalChanges(b, c, id - 1, c.journal[id - 1], a);
      ReportedLeg(t, a, success);
    }
    NothingMoved(opening, b, c);
  }

  lemma NothingMoved(opening: map<string, real>, b: Books, c: Books)
    requires Reconciled(opening, b) && c.accounts == b.accounts
    requires forall a :: a in b.accounts ==> Held(c, a) == Held(b, a)
    ensures Reconciled(opening, c) <==> forall a :: a in b.accounts ==> Turnover(c, a) - Turnover(b, a) == 0.0
  {
    if Reconciled(opening, c) {
      forall a | a in b.accounts
        ensures Turnover(c, a) - Turnover(b, a) == 0.0
      {
        assert c.accounts[a] == b.accounts[a];
      }
    }
  }

  /** Where it fails: a success reported for an open settlement or an open local payment of 60. */
  lemma SixtyThatNeverMoved(opening: map<string, real>, b: Books, origin: Origin)
    requires JustOpened(opening, b, 100.0) && !origin.CashRecord?
    ensures var open := b.(journal := [OpenSixty("S", origin)]);
      Reconciled(opening, open) && !Reconciled(opening, Pay.Finalize(open, 1, true, {}).0)
  {
    var open := b.(journal := [OpenSixty("S", origin)]);
    OpenSixtyBalances(opening, b, origin);
    SixtyIsSomething(open.accounts, origin);
    OutcomeKeepsBooksExactly(opening, open, 1, true);
  }

  lemma OpenSixtyBalances(opening: map<string, real>, b: Books, origin: Origin)
    requires JustOpened(opening, b, 100.0) && !origin.CashRecord?
    ensures var open := b.(journal := [OpenSixty("S", origin)]); Reconciled(opening, open) && Linked(open)
  {
    var t := OpenSixty("S", origin);
    JustOpenedBalances(opening, b, 100.0);
    assert b.journal + [t] == [t] && EntryLinked(b.accounts, t);
    OpenEntryBalances(opening, b, t);
  }

  lemma SixtyIsSomething(accounts: map<string, Account>, origin: Origin)
    requires "S" in accounts
    ensures !ForNothing(accounts, OpenSixty("S", origin)) && !IsOutgoing(OpenSixty("S", origin))
  {
    assert OwnLeg(OpenSixty("S", origin), "S") == 60.0;
  }
}
