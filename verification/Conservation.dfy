/** Where money comes from and goes to: the total balance of each currency over any run. */
module Conservation {
  import opened Sequences
  import opened ExchangeRates
  import opened Books
  import opened BankRuns
  import opened JournalLaws
  import Text
  import Trade = TradeSettlement
  import Otc = OtcFunds
  import Cash = InterbankCash
  import Pay = Payments

  type Accounts = map<string, Account>

  function BalanceIn(accounts: Accounts): string -> real {
    (n: string) => if n in accounts then accounts[n].balance else 0.0
  }

  /** `ns` lists the accounts in one currency, each once. */
  ghost predicate Lists(ns: seq<string>, accounts: Accounts, currency: string) {
    && (forall i, j :: 0 <= i < j < |ns| ==> ns[i] != ns[j])
    && forall n :: n in ns <==> n in accounts && accounts[n].currency == currency
  }

  /** The total balance of the listed accounts. */
  ghost function Wealth(accounts: Accounts, ns: seq<string>): real { Sum(ns, BalanceIn(accounts)) }

  lemma {:induction false} OneBalanceMoves(accounts: Accounts, ns: seq<string>, n: string, row: Account)
    requires n in accounts && forall i, j :: 0 <= i < j < |ns| ==> ns[i] != ns[j]
    ensures Wealth(accounts[n := row], ns) ==
            Wealth(accounts, ns) + if n in ns then row.balance - accounts[n].balance else 0.0
  {
    if ns != [] {
      var init, last := ns[..|ns| - 1], ns[|ns| - 1];
      OneBalanceMoves(accounts, init, n, row);
      assert n in ns <==> n in init || n == last;
    }
  }

  /** What an amount on account `n` adds to the listed accounts. */
  function PartIn(ns: seq<string>, n: string, amount: real): real { if n in ns then amount else 0.0 }

  predicate In(b: Books, n: string, currency: string) { n in b.accounts && b.accounts[n].currency == currency }

  /** What a trade that moves `paid` out of `from` and `received` into `to` brings into a currency. */
  function Exchange(b: Books, from: string, paid: real, to: string, received: real, currency: string): real {
    (if In(b, to, currency) then received else 0.0) - (if In(b, from, currency) then paid else 0.0)
  }

  /** What one database transaction brings into a currency. */
  function Flow(b: Books, s: Step, currency: string): real {
    match s
    case ProcessTrade(id, down) => ProcessingFlow(b, id, down, currency)
    case Act(action, id, _) =>
      var i := IndexOf(b.reservations, Otc.HasID(Text.Trim(id)));
      if i.None? || Apply(b, s) == b then 0.0 else ActionFlow(b, action, b.reservations[i.value], currency)
    case Decide(verdict, id, _) =>
      var i := IndexOf(b.postings, Cash.HasID(Text.Trim(id)));
      if i.None? || Apply(b, s) == b then 0.0 else DecisionFlow(b, verdict, b.postings[i.value], currency)
    case _ => 0.0
  }

  function ProcessingFlow(b: Books, id: nat, down: set<RepoOp>, currency: string): real {
    if Trade.ProcessTrade(b, id, down).Ok? then SettlementFlow(b, b.journal[id - 1], currency) else 0.0
  }

  function SettlementFlow(b: Books, t: Transaction, currency: string): real {
    Exchange(b, t.payer, t.startAmount, t.recipient, t.endAmount, currency)
  }

  function ActionFlow(b: Books, action: Otc.Action, r: Reservation, currency: string): real {
    var traded := Exchange(b, r.buyer, r.sourceAmount, r.seller, r.destinationAmount, currency);
    match action case Release => 0.0 case Commit => traded case Refund => -traded
  }

  function DecisionFlow(b: Books, verdict: Cash.Verdict, p: Posting, currency: string): real {
    if verdict.Commit? && In(b, p.account, currency) then p.amount else 0.0
  }

  lemma ProcessFlow(b: Books, id: nat, down: set<RepoOp>, ns: seq<string>, currency: string)
    requires Lists(ns, b.accounts, currency) && Trade.ProcessTrade(b, id, down).Ok?
    ensures Wealth(Trade.Processed(b, id, down).accounts, ns) ==
            Wealth(b.accounts, ns) + SettlementFlow(b, b.journal[id - 1], currency)
  {
    var t := b.journal[id - 1];
    var payer := Moved(b.accounts, t.payer, -t.startAmount, -t.startAmount);
    var recipient := Moved(b.accounts, t.recipient, t.endAmount, t.endAmount);
    OneBalanceMoves(b.accounts, ns, t.payer, payer);
    OneBalanceMoves(b.accounts[t.payer := payer], ns, t.recipient, recipient);
  }

  lemma ReserveFlow(b: Books, req: Otc.ReserveRequest, rates: RatesRead, down: set<RepoOp>, ns: seq<string>, currency: string)
    requires Lists(ns, b.accounts, currency)
    ensures Wealth(Otc.Reserve(b, req, rates, down).0.accounts, ns) == Wealth(b.accounts, ns)
  {
    Otc.ReserveShape(b, req, rates, down);
    var (after, result) := Otc.Reserve(b, req, rates, down);
    if after != b {
      HoldFlow(b, result.value, ns, currency);
    }
  }

  lemma HoldFlow(b: Books, r: Reservation, ns: seq<string>, currency: string)
    requires Lists(ns, b.accounts, currency) && r.buyer in b.accounts
    ensures Wealth(Otc.WithReservation(b, r).accounts, ns) == Wealth(b.accounts, ns)
  {
    OneBalanceMoves(b.accounts, ns, r.buyer, Moved(b.accounts, r.buyer, 0.0, -r.sourceAmount));
  }

  lemma TwoRowsMove(action: Otc.Action, accounts: Accounts, r: Reservation, down: set<RepoOp>)
    requires Otc.Settle(action, accounts, r, down).Ok? && r.buyer in accounts && r.seller in accounts && r.buyer != r.seller
    ensures var after := Otc.Settle(action, accounts, r, down).value;
      && r.buyer in after && r.seller in after
      && after == accounts[r.buyer := after[r.buyer]][r.seller := after[r.seller]]
      && after[r.buyer].balance - accounts[r.buyer].balance ==
         (match action case Release => 0.0 case Commit => -r.sourceAmount case Refund => r.sourceAmount)
      && after[r.seller].balance - accounts[r.seller].balance ==
         (match action case Release => 0.0 case Commit => r.destinationAmount case Refund => -r.destinationAmount)
  {
  }

  lemma ActFlow(b: Books, action: Otc.Action, i: nat, down: set<RepoOp>, ns: seq<string>, currency: string)
    requires Linked(b) && Lists(ns, b.accounts, currency) && i < |b.reservations|
    requires Otc.Settle(action, b.accounts, b.reservations[i], down).Ok?
    ensures Wealth(Otc.Acted(b, action, i, down).accounts, ns) ==
            Wealth(b.accounts, ns) + ActionFlow(b, action, b.reservations[i], currency)
  {
    var r := b.reservations[i];
    assert r in b.reservations;
    TwoRowsMove(action, b.accounts, r, down);
    TwoBalancesMove(b.accounts, ns, r.buyer, r.seller, Otc.Settle(action, b.accounts, r, down).value);
  }

  lemma TwoBalancesMove(accounts: Accounts, ns: seq<string>, m: string, n: string, after: Accounts)
    requires m in accounts && n in accounts && m != n && forall i, j :: 0 <= i < j < |ns| ==> ns[i] != ns[j]
    requires m in after && n in after && after == accounts[m := after[m]][n := after[n]]
    ensures Wealth(after, ns) == Wealth(accounts, ns)
      + PartIn(ns, m, after[m].balance - accounts[m].balance) + PartIn(ns, n, after[n].balance - accounts[n].balance)
  {
    OneBalanceMoves(accounts, ns, m, after[m]);
    OneBalanceMoves(accounts[m := after[m]], ns, n, after[n]);
  }

  lemma PrepareFlow(b: Books, req: Cash.PrepareRequest, rates: RatesRead, down: set<RepoOp>, ns: seq<string>, currency: string)
    requires Linked(b) && Lists(ns, b.accounts, currency)
    ensures Wealth(Cash.PrepareOn(b, req, rates, down).0.accounts, ns) == Wealth(b.accounts, ns)
  {
    Cash.PrepareShape(b, req, rates, down);
    var (after, result) := Cash.PrepareOn(b, req, rates, down);
    if after != b {
      var p := result.value;
      OneBalanceMoves(b.accounts, ns, p.account, Moved(b.accounts, p.account, 0.0, p.amount));
    }
  }

  lemma DecideFlow(b: Books, verdict: Cash.Verdict, p: Posting, ns: seq<string>, currency: string)
    requires Lists(ns, b.accounts, currency) && p.account in b.accounts
    ensures Wealth(Cash.Deciding(b.accounts, verdict, p), ns) ==
            Wealth(b.accounts, ns) + DecisionFlow(b, verdict, p, currency)
  {
    var after := Cash.Deciding(b.accounts, verdict, p);
    OneBalanceMoves(b.accounts, ns, p.account, after[p.account]);
    assert after == b.accounts[p.account := after[p.account]];
  }

  lemma ActStepFlow(b: Books, s: Step, ns: seq<string>, currency: string)
    requires Linked(b) && Lists(ns, b.accounts, currency) && s.Act?
    ensures Wealth(Apply(b, s).accounts, ns) == Wealth(b.accounts, ns) + Flow(b, s, currency)
  {
    Otc.ActShape(b, s.action, s.executionID, s.down);
    if Apply(b, s) != b {
      ActFlow(b, s.action, IndexOf(b.reservations, Otc.HasID(Text.Trim(s.executionID))).value, s.down, ns, currency);
    }
  }

  lemma DecideStepFlow(b: Books, s: Step, ns: seq<string>, currency: string)
    requires Linked(b) && Lists(ns, b.accounts, currency) && s.Decide?
    ensures Wealth(Apply(b, s).accounts, ns) == Wealth(b.accounts, ns) + Flow(b, s, currency)
  {
    Cash.DecideShape(b, s.verdict, Text.Trim(s.postingID), s.down);
    if Apply(b, s) != b {
      DecideFlow(b, s.verdict, b.postings[IndexOf(b.postings, Cash.HasID(Text.Trim(s.postingID))).value], ns, currency);
    }
  }

  lemma ProcessStepFlow(b: Books, id: nat, down: set<RepoOp>, ns: seq<string>, currency: string)
    requires Lists(ns, b.accounts, currency)
    ensures Wealth(Trade.Processed(b, id, down).accounts, ns) ==
            Wealth(b.accounts, ns) + ProcessingFlow(b, id, down, currency)
  {
    var outcome := Trade.ProcessTrade(b, id, down);
    if outcome.Ok? {
      ProcessFlow(b, id, down, ns, currency);
      assert Trade.Processed(b, id, down) == outcome.value;
    } else {
      assert Trade.Processed(b, id, down) == b;
    }
  }

  /** What a payment moves on all listed accounts together, whoever plays its parts. */
  function PartsIn(ns: seq<string>, t: Transaction): real {
    var parties := PartIn(ns, t.recipient, t.endAmount) - PartIn(ns, t.payer, t.startAmount);
    if t.startCurrency == t.endCurrency then parties
    else parties + PartIn(ns, BankAccountFor(t.startCurrency), t.startAmount)
                 - PartIn(ns, BankAccountFor(t.endCurrency), t.endAmount)
  }

  lemma {:induction false} PaidIsParts(accounts: Accounts, ns: seq<string>, t: Transaction)
    requires forall n :: n in ns ==> n in accounts
    requires forall i, j :: 0 <= i < j < |ns| ==> ns[i] != ns[j]
    ensures Wealth(Pay.Paid(accounts, t), ns) == Wealth(accounts, ns) + PartsIn(ns, t)
  {
    if ns != [] {
      var init, last := ns[..|ns| - 1], ns[|ns| - 1];
      PaidIsParts(accounts, init, t);
      OneMoreListed(init, last, t);
      assert ns == init + [last];
    }
  }

  lemma OneMoreListed(ns: seq<string>, n: string, t: Transaction)
    requires n !in ns
    ensures PartsIn(ns + [n], t) == PartsIn(ns, t) + PaymentLeg(t, n)
  {
  }

  /** A payment conserves the total of every currency, also when it is exchanged: what leaves the payer
      reaches the bank in the payer's currency, and what the recipient gets leaves the bank in its own. */
  lemma PaymentConserves(accounts: Accounts, t: Transaction, ns: seq<string>, currency: string)
    requires Lists(ns, accounts, currency) && Seeded(accounts) && PaymentLinked(accounts, t)
    requires !IsForeign(t.recipient) && Pay.PaymentObstacle(accounts, t, {}).None?
    ensures Wealth(Pay.Paid(accounts, t), ns) == Wealth(accounts, ns)
  {
    PaidIsParts(accounts, ns, t);
    AllPartsExist(accounts, t);
    if t.startCurrency != t.endCurrency {
      BankStandsBetween(accounts, t, ns, currency);
    } else {
      assert t.payer in ns <==> t.recipient in ns;
    }
    PartsCancel(ns, t);
  }

  lemma AllPartsExist(accounts: Accounts, t: Transaction)
    requires Pay.PaymentObstacle(accounts, t, {}).None?
    ensures t.payer in accounts && t.recipient in accounts
    ensures t.startCurrency != t.endCurrency ==>
      BankAccountFor(t.startCurrency) in accounts && BankAccountFor(t.endCurrency) in accounts
  {
  }

  lemma PartsCancel(ns: seq<string>, t: Transaction)
    requires t.startCurrency == t.endCurrency ==> t.startAmount == t.endAmount && (t.payer in ns <==> t.recipient in ns)
    requires t.startCurrency != t.endCurrency ==>
      (t.payer in ns <==> BankAccountFor(t.startCurrency) in ns) && (t.recipient in ns <==> BankAccountFor(t.endCurrency) in ns)
    ensures PartsIn(ns, t) == 0.0
  {
  }

  lemma BankStandsBetween(accounts: Accounts, t: Transaction, ns: seq<string>, currency: string)
    requires Lists(ns, accounts, currency) && Seeded(accounts) && PaymentLinked(accounts, t)
    requires !IsForeign(t.recipient)
    requires BankAccountFor(t.startCurrency) in accounts && BankAccountFor(t.endCurrency) in accounts
    ensures t.payer in ns <==> BankAccountFor(t.startCurrency) in ns
    ensures t.recipient in ns <==> BankAccountFor(t.endCurrency) in ns
  {
  }

  lemma PaymentStepFlow(b: Books, s: Step, ns: seq<string>, currency: string)
    requires Linked(b) && Routed(b, s) && Lists(ns, b.accounts, currency) && IsPaymentStep(s)
    ensures Wealth(Apply(b, s).accounts, ns) == Wealth(b.accounts, ns)
  {
    match s
    case RecordPayment(_, _, _, _) =>
    case FinalizePayment(id, success, down) => Pay.FinalizeShape(b, id, success, down);
    case ProcessPayment(id, reply, down) =>
      Pay.ProcessShape(b, id, reply, down);
      if Apply(b, s).accounts != b.accounts {
        assert b.journal[id - 1] in b.journal;
        PaymentConserves(b.accounts, b.journal[id - 1], ns, currency);
      }
  }

  lemma StepFlow(b: Books, s: Step, ns: seq<string>, currency: string)
    requires Linked(b) && Routed(b, s) && Lists(ns, b.accounts, currency)
    ensures Wealth(Apply(b, s).accounts, ns) == Wealth(b.accounts, ns) + Flow(b, s, currency)
  {
    match s
    case RecordTrade(_, _, _) =>
    case ProcessTrade(id, down) => ProcessStepFlow(b, id, down, ns, currency);
    case Reserve(req, rates, down) => ReserveFlow(b, req, rates, down, ns, currency);
    case Act(_, _, _) => ActStepFlow(b, s, ns, currency);
    case Prepare(req, rates, down) => PrepareStepFlow(b, s, ns, currency);
    case Decide(_, _, _) => DecideStepFlow(b, s, ns, currency);
    case _ => PaymentStepFlow(b, s, ns, currency);
  }

  lemma PrepareStepFlow(b: Books, s: Step, ns: seq<string>, currency: string)
    requires Linked(b) && Lists(ns, b.accounts, currency) && s.Prepare?
    ensures Wealth(Apply(b, s).accounts, ns) == Wealth(b.accounts, ns)
  {
    PrepareFlow(b, Cash.Trimmed(s.prepare), s.rates, s.down, ns, currency);
  }

  /** The flows of a run, each taken in the state in which its step runs. */
  function Flows(b: Books, steps: seq<Step>, currency: string): real {
    if steps == [] then 0.0
    else
      var init := steps[..|steps| - 1];
      Flows(b, init, currency) + Flow(Run(b, init), steps[|steps| - 1], currency)
  }

  /** The total balance of a currency changes by the flows of settlements, commits and refunds into it and
      by nothing else: recording, reserving, releasing, preparing and rolling back move no money, and neither
      does any payment, exchanged or not. */
  lemma {:induction false} WealthChangesByFlows(b: Books, steps: seq<Step>, ns: seq<string>, currency: string)
    requires Linked(b) && AlwaysRouted(b, steps) && Lists(ns, b.accounts, currency)
    ensures Wealth(Run(b, steps).accounts, ns) == Wealth(b.accounts, ns) + Flows(b, steps, currency)
  {
    if steps != [] {
      var before := Run(b, steps[..|steps| - 1]);
      WealthChangesByFlows(b, steps[..|steps| - 1], ns, currency);
      RunFrame(b, steps[..|steps| - 1]);
      StepFlow(before, steps[|steps| - 1], ns, currency);
    }
  }

  // ----- within one currency -----

  /** Reservations between accounts of one currency are for one amount. */
  ghost predicate Fair(b: Books) {
    forall r :: r in b.reservations && SameCurrency(b, r.buyer, r.seller) ==> r.sourceAmount == r.destinationAmount
  }

  predicate SameCurrency(b: Books, m: string, n: string) {
    m in b.accounts && n in b.accounts && b.accounts[m].currency == b.accounts[n].currency
  }

  lemma StepKeepsFair(b: Books, s: Step)
    requires Linked(b) && Fair(b)
    ensures Fair(Apply(b, s))
  {
    var c := Apply(b, s);
    StepFrame(b, s);
    forall i | 0 <= i < |c.reservations| && SameCurrency(c, c.reservations[i].buyer, c.reservations[i].seller)
      ensures c.reservations[i].sourceAmount == c.reservations[i].destinationAmount
    {
      if i < |b.reservations| {
        assert b.reservations[i] in b.reservations;
      } else if s.Reserve? {
        ReservesFairly(b, s.reserve, s.rates, s.down);
      } else {
        OnlyReserveAddsReservations(b, s);
      }
    }
  }

  lemma ReservesFairly(b: Books, req: Otc.ReserveRequest, rates: RatesRead, down: set<RepoOp>)
    requires Otc.Reserve(b, req, rates, down).0 != b
    ensures var (after, result) := Otc.Reserve(b, req, rates, down);
      && result.Ok? && after.reservations == b.reservations + [result.value]
      && (SameCurrency(b, result.value.buyer, result.value.seller) ==>
            result.value.sourceAmount == result.value.destinationAmount)
  {
    Otc.ReserveShape(b, req, rates, down);
  }

  lemma OnlyReserveAddsReservations(b: Books, s: Step)
    requires Linked(b) && !s.Reserve?
    ensures |Apply(b, s).reservations| == |b.reservations|
  {
    match s
    case RecordTrade(req, rates, down) =>
    case ProcessTrade(id, down) =>
    case Act(action, id, down) => Otc.ActShape(b, action, id, down);
    case Prepare(req, rates, down) => Cash.PrepareShape(b, Cash.Trimmed(req), rates, down);
    case Decide(verdict, id, down) => Cash.DecideShape(b, verdict, Text.Trim(id), down);
    case _ => PaymentStepShape(b, s);
  }

  /** Steps that settle, commit or refund between accounts of different currencies, or commit cash. */
  predicate Crosses(b: Books, s: Step) {
    match s
    case ProcessTrade(id, _) =>
      1 <= id <= |b.journal| && !SameCurrency(b, b.journal[id - 1].payer, b.journal[id - 1].recipient)
    case Act(_, id, _) =>
      var i := IndexOf(b.reservations, Otc.HasID(Text.Trim(id)));
      i.Some? && !SameCurrency(b, b.reservations[i.value].buyer, b.reservations[i.value].seller)
    case Decide(verdict, _, _) => verdict.Commit?
    case _ => false
  }

  ghost predicate NeverCrosses(b: Books, steps: seq<Step>) {
    forall i :: 0 <= i < |steps| ==> !Crosses(Run(b, steps[..i]), steps[i])
  }

  lemma NoFlowWithinACurrency(b: Books, s: Step, currency: string)
    requires Linked(b) && Fair(b) && JournalWellFormed(b) && Routed(b, s) && !Crosses(b, s)
    ensures Flow(b, s, currency) == 0.0
  {
    match s
    case ProcessTrade(id, down) =>
      if Trade.ProcessTrade(b, id, down).Ok? {
        assert b.journal[id - 1] in b.journal && WellFormed(b.accounts, b.journal[id - 1]);
      }
    case Act(action, id, down) =>
      var i := IndexOf(b.reservations, Otc.HasID(Text.Trim(id)));
      if i.Some? {
        assert b.reservations[i.value] in b.reservations;
      }
    case _ =>
  }

  /** A run that settles no trade between two currencies and commits no cash conserves the total of every
      currency exactly, whatever it records, reserves, pays, settles, refunds, rolls back or fails to do. */
  lemma {:induction false} MoneyIsConserved(b: Books, steps: seq<Step>, ns: seq<string>, currency: string)
    requires Linked(b) && Fair(b) && JournalWellFormed(b) && Lists(ns, b.accounts, currency)
    requires AlwaysRouted(b, steps) && NeverCrosses(b, steps)
    ensures Wealth(Run(b, steps).accounts, ns) == Wealth(b.accounts, ns) && Fair(Run(b, steps))
  {
    if steps != [] {
      var init, last := steps[..|steps| - 1], steps[|steps| - 1];
      var before := Run(b, init);
      forall i | 0 <= i < |init|
        ensures !Crosses(Run(b, init[..i]), init[i])
      {
        assert init[..i] == steps[..i];
      }
      MoneyIsConserved(b, init, ns, currency);
      RunFrame(b, init);
      JournalStaysWellFormed(b, init);
      NoFlowWithinACurrency(before, last, currency);
      StepFlow(before, last, ns, currency);
      StepKeepsFair(before, last);
    }
  }
}
