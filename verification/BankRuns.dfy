/** Every run of the bank: any interleaving of its database transactions, each of which may fail, and each of
    which takes effect at once. `Overlaps` says what becomes of transactions that overlap. */
module BankRuns {
  import opened Sequences
  import Text
  import opened ExchangeRates
  import opened Books
  import Trade = TradeSettlement
  import Otc = OtcFunds
  import Cash = InterbankCash
  import Pay = Payments

  datatype Step =
    | RecordTrade(req: Trade.TradeRequest, rates: RatesRead, down: set<RepoOp>)
    | ProcessTrade(id: nat, down: set<RepoOp>)
    | Reserve(reserve: Otc.ReserveRequest, rates: RatesRead, down: set<RepoOp>)
    | Act(action: Otc.Action, executionID: string, down: set<RepoOp>)
    | Prepare(prepare: Cash.PrepareRequest, rates: RatesRead, down: set<RepoOp>)
    | Decide(verdict: Cash.Verdict, postingID: string, down: set<RepoOp>)
    | RecordPayment(payment: Pay.PaymentRequest, sameClient: bool, rates: RatesRead, down: set<RepoOp>)
    | ProcessPayment(id: nat, reply: Pay.Reply, down: set<RepoOp>)
    | FinalizePayment(id: nat, success: bool, down: set<RepoOp>)

  function Apply(b: Books, s: Step): Books {
    match s
    case RecordTrade(req, rates, down) => Trade.RecordTrade(b, req, rates, down)
    case ProcessTrade(id, down) => Trade.Processed(b, id, down)
    case Reserve(req, rates, down) => Otc.Reserve(b, req, rates, down).0
    case Act(action, id, down) => Otc.Act(b, action, id, down).0
    case Prepare(req, rates, down) => Cash.Prepare(b, req, rates, down).0
    case Decide(verdict, id, down) => Cash.Decide(b, verdict, id, down).0
    case RecordPayment(req, sameClient, rates, down) => Pay.Record(b, req, sameClient, rates, down).0
    case ProcessPayment(id, reply, down) => Pay.Process(b, id, reply, down).0
    case FinalizePayment(id, success, down) => Pay.Finalize(b, id, success, down).0
  }

  /** Whoever processes or finalises an entry passes an id that was handed out for that: settlement calls
      pass the entry they recorded, payment calls a payment, and another bank's outcome comes for a payment
      that was handed over to it. */
  predicate Routed(b: Books, s: Step) {
    match s
    case ProcessTrade(id, _) => 1 <= id <= |b.journal| ==> b.journal[id - 1].origin.Settlement?
    case ProcessPayment(id, _, _) => 1 <= id <= |b.journal| ==> b.journal[id - 1].origin.Payment?
    case FinalizePayment(id, _, _) =>
      1 <= id <= |b.journal| ==> b.journal[id - 1].origin.Payment? && IsForeign(b.journal[id - 1].recipient)
    case _ => true
  }

  predicate AlwaysRouted(b: Books, steps: seq<Step>) {
    steps == [] ||
    var init := steps[..|steps| - 1];
    AlwaysRouted(b, init) && Routed(Run(b, init), steps[|steps| - 1])
  }

  function Run(b: Books, steps: seq<Step>): Books {
    if steps == [] then b else Apply(Run(b, steps[..|steps| - 1]), steps[|steps| - 1])
  }

  // ----- the books balance -----

  lemma RecordKeepsBooks(b: Books, req: Trade.TradeRequest, rates: RatesRead, down: set<RepoOp>, a: string)
    requires a in b.accounts
    ensures Accounted(b, Trade.RecordTrade(b, req, rates, down), a)
  {
    var currencies, after := Trade.Currencies(b.accounts), Trade.RecordTrade(b, req, rates, down);
    if after != b {
      JournalGrows(b, after, Trade.Entry(currencies, req, rates, down), a);
    }
  }

  lemma ProcessKeepsBooks(b: Books, id: nat, down: set<RepoOp>, a: string)
    requires a in b.accounts && Routed(b, ProcessTrade(id, down))
    ensures Trade.Processed(b, id, down).accounts.Keys == b.accounts.Keys
    ensures Accounted(b, Trade.Processed(b, id, down), a)
  {
    var after := Trade.Processed(b, id, down);
    if Trade.ProcessTrade(b, id, down).Ok? {
      JournalChanges(b, after, id - 1, b.journal[id - 1].(status := Completed), a);
    }
  }

  lemma ReserveKeepsBooks(b: Books, request: Otc.ReserveRequest, rates: RatesRead, down: set<RepoOp>, a: string)
    requires a in b.accounts
    ensures var after := Otc.Reserve(b, request, rates, down).0;
      after.accounts.Keys == b.accounts.Keys && Accounted(b, after, a)
  {
    Otc.ReserveShape(b, request, rates, down);
    var after, result := Otc.Reserve(b, request, rates, down).0, Otc.Reserve(b, request, rates, down).1;
    if after != b {
      ReservationsGrow(b, after, result.value, a);
    }
  }

  lemma ActKeepsBooks(b: Books, action: Otc.Action, i: nat, down: set<RepoOp>, a: string)
    requires a in b.accounts && i < |b.reservations|
    requires var r := b.reservations[i];
      r.buyer != r.seller && r.status == Otc.Origin(action) && Otc.Settle(action, b.accounts, r, down).Ok?
    ensures var after := Otc.Acted(b, action, i, down);
      after.accounts.Keys == b.accounts.Keys && Accounted(b, after, a)
  {
    var after := Otc.Acted(b, action, i, down);
    ReservationsChange(b, after, i, after.reservations[i], a);
  }

  lemma PrepareKeepsBooks(b: Books, req: Cash.PrepareRequest, rates: RatesRead, down: set<RepoOp>, a: string)
    requires a in b.accounts && Keyed(b.accounts)
    ensures var after := Cash.PrepareOn(b, req, rates, down).0;
      after.accounts.Keys == b.accounts.Keys && Accounted(b, after, a)
  {
    Cash.PrepareShape(b, req, rates, down);
    var after, result := Cash.PrepareOn(b, req, rates, down).0, Cash.PrepareOn(b, req, rates, down).1;
    if after != b {
      var found := IndexOf(b.postings, Cash.HasID(req.postingID));
      if found.None? {
        PostingsGrow(b, after, result.value, a);
      } else {
        PostingsChange(b, after, found.value, result.value, a);
      }
    }
  }

  lemma DecideKeepsBooks(b: Books, verdict: Cash.Verdict, id: string, down: set<RepoOp>, a: string)
    requires a in b.accounts
    ensures var after := Cash.DecideOn(b, verdict, id, down).0;
      after.accounts.Keys == b.accounts.Keys && Accounted(b, after, a)
  {
    Cash.DecideShape(b, verdict, id, down);
    var after := Cash.DecideOn(b, verdict, id, down).0;
    if after != b {
      var i := IndexOf(b.postings, Cash.HasID(id)).value;
      PostingsChange(b, after, i, after.postings[i], a);
    }
  }

  lemma RecordPaymentKeepsBooks(b: Books, req: Pay.PaymentRequest, sameClient: bool, rates: RatesRead, down: set<RepoOp>, a: string)
    requires a in b.accounts
    ensures Accounted(b, Pay.Record(b, req, sameClient, rates, down).0, a)
  {
    var made := Pay.NewPayment(b.accounts, req, sameClient, rates, down);
    if made.Ok? {
      JournalGrows(b, Pay.Record(b, req, sameClient, rates, down).0, made.value, a);
    }
  }

  lemma ProcessPaymentKeepsBooks(b: Books, id: nat, reply: Pay.Reply, down: set<RepoOp>, a: string)
    requires a in b.accounts && Routed(b, ProcessPayment(id, reply, down))
    ensures var after := Pay.Process(b, id, reply, down).0;
      after.accounts.Keys == b.accounts.Keys && Accounted(b, after, a)
  {
    Pay.ProcessShape(b, id, reply, down);
    var after := Pay.Process(b, id, reply, down).0;
    if after != b {
      JournalChanges(b, after, id - 1, after.journal[id - 1], a);
      ClosingSettles(b.journal[id - 1], after.journal[id - 1].status, a);
    }
  }

  lemma ClosingSettles(t: Transaction, status: TransactionStatus, a: string)
    requires t.origin.Payment? && t.status.Processing?
    ensures SettledBy(a)(t) == 0.0
    ensures SettledBy(a)(t.(status := status)) ==
            if status.Completed? && !IsForeign(t.recipient) then PaymentLeg(t, a) else 0.0
  {
  }

  lemma FinalizeKeepsBooks(b: Books, id: nat, success: bool, down: set<RepoOp>, a: string)
    requires a in b.accounts && Routed(b, FinalizePayment(id, success, down))
    ensures Accounted(b, Pay.Finalize(b, id, success, down).0, a)
  {
    Pay.FinalizeShape(b, id, success, down);
    var after := Pay.Finalize(b, id, success, down).0;
    if after != b {
      JournalChanges(b, after, id - 1, after.journal[id - 1], a);
    }
  }

  // ----- what a step leaves alone -----

  predicate Follows(s: ReservationStatus, t: ReservationStatus) {
    s == t || s.Reserved? || (s.Committed? && t.Refunded?)
  }

  /** From `b` to `c` only balances of accounts change, rows are never removed, a row never changes
      anything but its status, and a status only moves forward: completed and rejected entries, released or
      refunded reservations and committed postings are final. */
  ghost predicate Evolves(b: Books, c: Books) {
    && AccountsEvolve(b.accounts, c.accounts)
    && JournalEvolves(b.journal, c.journal)
    && ReservationsEvolve(b.reservations, c.reservations)
    && PostingsEvolve(b.postings, c.postings)
  }

  ghost predicate AccountsEvolve(s: map<string, Account>, t: map<string, Account>) {
    && t.Keys == s.Keys
    && forall n :: n in s ==> t[n] == s[n].(balance := t[n].balance, available := t[n].available)
  }

  ghost predicate JournalEvolves(s: seq<Transaction>, t: seq<Transaction>) {
    && |s| <= |t|
    && forall i :: 0 <= i < |s| ==>
         t[i] == s[i].(status := t[i].status) && (s[i].status.Processing? || t[i].status == s[i].status)
  }

  ghost predicate ReservationsEvolve(s: seq<Reservation>, t: seq<Reservation>) {
    && |s| <= |t|
    && forall i :: 0 <= i < |s| ==> t[i] == s[i].(status := t[i].status) && Follows(s[i].status, t[i].status)
  }

  ghost predicate PostingsEvolve(s: seq<Posting>, t: seq<Posting>) {
    && |s| <= |t|
    && forall i :: 0 <= i < |s| ==>
         t[i] == s[i].(status := t[i].status) && (s[i].status.CashCommitted? ==> t[i].status.CashCommitted?)
  }

  /** Rows that are new in `c` refer to accounts that exist. */
  ghost predicate NewRowsLinked(b: Books, c: Books) {
    && (forall i :: |b.journal| <= i < |c.journal| ==> EntryLinked(c.accounts, c.journal[i]))
    && (forall i :: |b.reservations| <= i < |c.reservations| ==>
          var r := c.reservations[i]; r.buyer in c.accounts && r.seller in c.accounts && r.buyer != r.seller)
    && (forall i :: |b.postings| <= i < |c.postings| ==> c.postings[i].account in c.accounts)
  }

  lemma EvolvedIsLinked(b: Books, c: Books)
    requires Linked(b) && Evolves(b, c) && NewRowsLinked(b, c)
    ensures Linked(c)
  {
    forall i | 0 <= i < |c.journal|
      ensures EntryLinked(c.accounts, c.journal[i])
    {
      assert i < |b.journal| ==> b.journal[i] in b.journal;
    }
    forall i | 0 <= i < |c.reservations|
      ensures var r := c.reservations[i]; r.buyer in c.accounts && r.seller in c.accounts && r.buyer != r.seller
    {
      assert i < |b.reservations| ==> b.reservations[i] in b.reservations;
    }
    forall i | 0 <= i < |c.postings|
      ensures c.postings[i].account in c.accounts
    {
      assert i < |b.postings| ==> b.postings[i] in b.postings;
    }
  }

  lemma RecordFrame(b: Books, req: Trade.TradeRequest, rates: RatesRead, down: set<RepoOp>)
    requires Linked(b)
    ensures var c := Trade.RecordTrade(b, req, rates, down); Evolves(b, c) && NewRowsLinked(b, c)
  {
  }

  lemma ProcessFrame(b: Books, id: nat, down: set<RepoOp>)
    requires Linked(b)
    ensures var c := Trade.Processed(b, id, down); Evolves(b, c) && NewRowsLinked(b, c)
  {
  }

  lemma ReserveFrame(b: Books, request: Otc.ReserveRequest, rates: RatesRead, down: set<RepoOp>)
    requires Linked(b)
    ensures var c := Otc.Reserve(b, request, rates, down).0; Evolves(b, c) && NewRowsLinked(b, c)
  {
    Otc.ReserveShape(b, request, rates, down);
  }

  lemma ActFrame(b: Books, action: Otc.Action, executionID: string, down: set<RepoOp>)
    requires Linked(b)
    ensures var c := Otc.Act(b, action, executionID, down).0; Evolves(b, c) && NewRowsLinked(b, c)
  {
    Otc.ActShape(b, action, executionID, down);
    if Otc.Act(b, action, executionID, down).0 != b {
      ActedFrame(b, action, IndexOf(b.reservations, Otc.HasID(Text.Trim(executionID))).value, down);
    }
  }

  lemma ActedFrame(b: Books, action: Otc.Action, i: nat, down: set<RepoOp>)
    requires Linked(b) && i < |b.reservations|
    requires b.reservations[i].status == Otc.Origin(action)
    requires Otc.Settle(action, b.accounts, b.reservations[i], down).Ok?
    ensures var c := Otc.Acted(b, action, i, down); Evolves(b, c) && NewRowsLinked(b, c)
  {
  }

  lemma PrepareFrame(b: Books, req: Cash.PrepareRequest, rates: RatesRead, down: set<RepoOp>)
    requires Linked(b)
    ensures var c := Cash.PrepareOn(b, req, rates, down).0; Evolves(b, c) && NewRowsLinked(b, c)
  {
    Cash.PrepareShape(b, req, rates, down);
  }

  lemma DecideFrame(b: Books, verdict: Cash.Verdict, id: string, down: set<RepoOp>)
    requires Linked(b)
    ensures var c := Cash.DecideOn(b, verdict, id, down).0; Evolves(b, c) && NewRowsLinked(b, c)
  {
    Cash.DecideShape(b, verdict, id, down);
    var c := Cash.DecideOn(b, verdict, id, down).0;
    if c != b {
      DecidedFrame(b, c, verdict, IndexOf(b.postings, Cash.HasID(id)).value);
    }
  }

  lemma DecidedFrame(b: Books, c: Books, verdict: Cash.Verdict, i: nat)
    requires Linked(b) && i < |b.postings| && b.postings[i].status.Prepared? && b.postings[i].account in b.accounts
    requires c.accounts == Cash.Deciding(b.accounts, verdict, b.postings[i])
    requires c.journal == b.journal || c.journal == b.journal + [Cash.HistoryEntry(b.postings[i])]
    requires c.reservations == b.reservations
    requires c.postings == b.postings[i := b.postings[i].(status := Cash.Decided(verdict))]
    ensures Evolves(b, c) && NewRowsLinked(b, c)
  {
  }

  lemma RecordPaymentFrame(b: Books, req: Pay.PaymentRequest, sameClient: bool, rates: RatesRead, down: set<RepoOp>)
    requires Linked(b)
    ensures var c := Pay.Record(b, req, sameClient, rates, down).0; Evolves(b, c) && NewRowsLinked(b, c)
  {
    Pay.RecordShape(b.accounts, req, sameClient, rates, down);
  }

  lemma ProcessPaymentFrame(b: Books, id: nat, reply: Pay.Reply, down: set<RepoOp>)
    requires Linked(b)
    ensures var c := Pay.Process(b, id, reply, down).0; Evolves(b, c) && NewRowsLinked(b, c)
  {
    Pay.ProcessShape(b, id, reply, down);
  }

  lemma FinalizeFrame(b: Books, id: nat, success: bool, down: set<RepoOp>)
    requires Linked(b)
    ensures var c := Pay.Finalize(b, id, success, down).0; Evolves(b, c) && NewRowsLinked(b, c)
  {
    Pay.FinalizeShape(b, id, success, down);
  }

  lemma EntryStepExtends(b: Books, s: Step)
    requires Linked(b) && (s.RecordTrade? || s.ProcessTrade? || s.RecordPayment? || s.ProcessPayment? || s.FinalizePayment?)
    ensures Evolves(b, Apply(b, s)) && NewRowsLinked(b, Apply(b, s))
  {
    match s
    case RecordTrade(req, rates, down) => RecordFrame(b, req, rates, down);
    case ProcessTrade(id, down) => ProcessFrame(b, id, down);
    case RecordPayment(req, sameClient, rates, down) => RecordPaymentFrame(b, req, sameClient, rates, down);
    case ProcessPayment(id, reply, down) => ProcessPaymentFrame(b, id, reply, down);
    case FinalizePayment(id, success, down) => FinalizeFrame(b, id, success, down);
  }

  lemma StepExtends(b: Books, s: Step)
    requires Linked(b)
    ensures Evolves(b, Apply(b, s)) && NewRowsLinked(b, Apply(b, s))
  {
    match s
    case Reserve(req, rates, down) => ReserveFrame(b, req, rates, down);
    case Act(action, id, down) => ActFrame(b, action, id, down);
    case Prepare(req, rates, down) => PrepareFrame(b, Cash.Trimmed(req), rates, down);
    case Decide(verdict, id, down) => DecideFrame(b, verdict, Text.Trim(id), down);
    case _ => EntryStepExtends(b, s);
  }

  /** Every database transaction, whether it succeeds or fails, keeps its rows linked and their terms fixed. */
  lemma StepFrame(b: Books, s: Step)
    requires Linked(b)
    ensures Evolves(b, Apply(b, s)) && Linked(Apply(b, s))
  {
    StepExtends(b, s);
    EvolvedIsLinked(b, Apply(b, s));
  }

  /** Every database transaction keeps the books balanced, whether it succeeds or fails. */
  lemma StepAccounted(b: Books, s: Step, a: string)
    requires Linked(b) && Routed(b, s) && a in b.accounts && a in Apply(b, s).accounts
    ensures Accounted(b, Apply(b, s), a)
  {
    match s
    case RecordTrade(req, rates, down) => RecordKeepsBooks(b, req, rates, down, a);
    case ProcessTrade(id, down) => ProcessKeepsBooks(b, id, down, a);
    case Reserve(req, rates, down) => ReserveKeepsBooks(b, req, rates, down, a);
    case Act(action, id, down) =>
      Otc.ActShape(b, action, id, down);
      if Apply(b, s) != b {
        ActKeepsBooks(b, action, IndexOf(b.reservations, Otc.HasID(Text.Trim(id))).value, down, a);
      }
    case Prepare(req, rates, down) => PrepareKeepsBooks(b, Cash.Trimmed(req), rates, down, a);
    case Decide(verdict, id, down) => DecideKeepsBooks(b, verdict, Text.Trim(id), down, a);
    case RecordPayment(req, sameClient, rates, down) => RecordPaymentKeepsBooks(b, req, sameClient, rates, down, a);
    case ProcessPayment(id, reply, down) => ProcessPaymentKeepsBooks(b, id, reply, down, a);
    case FinalizePayment(id, success, down) => FinalizeKeepsBooks(b, id, success, down, a);
  }

  lemma StepKeepsBooks(opening: map<string, real>, b: Books, s: Step)
    requires Reconciled(opening, b) && Linked(b) && Routed(b, s)
    ensures Reconciled(opening, Apply(b, s)) && Linked(Apply(b, s)) && Evolves(b, Apply(b, s))
  {
    StepFrame(b, s);
    forall a | a in b.accounts
      ensures Accounted(b, Apply(b, s), a)
    {
      StepAccounted(b, s, a);
    }
    AccountedKeepsReconciled(opening, b, Apply(b, s));
  }

  lemma EvolvesTransitive(b: Books, c: Books, d: Books)
    requires Evolves(b, c) && Evolves(c, d)
    ensures Evolves(b, d)
  {
  }

  lemma {:induction false} RunFrame(b: Books, steps: seq<Step>)
    requires Linked(b)
    ensures Linked(Run(b, steps)) && Evolves(b, Run(b, steps))
  {
    if steps != [] {
      var before := Run(b, steps[..|steps| - 1]);
      RunFrame(b, steps[..|steps| - 1]);
      StepFrame(before, steps[|steps| - 1]);
      EvolvesTransitive(b, before, Run(b, steps));
    }
  }

  /** The reconciliation theorem: after any interleaving of any number of database transactions, every
      balance is its opening balance plus what completed settlements and payments, committed trades and
      committed postings say, and what is unavailable is exactly what open reservations and prepared postings hold. */
  lemma {:induction false} BooksAlwaysBalance(opening: map<string, real>, b: Books, steps: seq<Step>)
    requires Reconciled(opening, b) && Linked(b) && AlwaysRouted(b, steps)
    ensures Reconciled(opening, Run(b, steps)) && Linked(Run(b, steps)) && Evolves(b, Run(b, steps))
  {
    RunFrame(b, steps);
    if steps != [] {
      BooksAlwaysBalance(opening, b, steps[..|steps| - 1]);
      StepKeepsBooks(opening, Run(b, steps[..|steps| - 1]), steps[|steps| - 1]);
    }
  }
}
