/** What the daily and monthly limits of an account do and do not bound. */
module PaymentLimits {
  import opened Prelude
  import opened Sequences
  import opened Books
  import opened BankRuns
  import opened BankPromises
  import opened SmallBooks
  import Pay = Payments
  import Trade = TradeSettlement
  import Otc = OtcFunds
  import Cash = InterbankCash
  import Text

  /** What the limits of an account leave to be spent. */
  function Room(a: Account): real {
    var day, month := a.dailyLimit - a.dailySpending, a.monthlyLimit - a.monthlySpending;
    if day <= month then day else month
  }

  /** No run uses up a limit: an account refuses a payment for its limits exactly if it exceeds the room that
      there was at first. */
  lemma LimitsNeverFill(b: Books, steps: seq<Step>, n: string, amount: real)
    requires Linked(b) && n in b.accounts
    ensures n in Run(b, steps).accounts && Room(Run(b, steps).accounts[n]) == Room(b.accounts[n])
    ensures Pay.LimitObstacle(Run(b, steps).accounts[n], amount).None? <==> amount <= Room(b.accounts[n])
  {
    RunFrame(b, steps);
  }

  /** What completed payments on the bank's own books took from account `n`. */
  function SpentBy(n: string): Transaction -> real {
    (t: Transaction) =>
      if t.origin.Payment? && t.status.Completed? && !IsForeign(t.recipient) && t.payer == n then t.startAmount else 0.0
  }

  ghost function Spent(b: Books, n: string): real { Sum(b.journal, SpentBy(n)) }

  // ----- spending takes money -----

  predicate IsBanks(n: string) { n in BANK_ACCOUNTS.Values || n == "" }

  /** The step puts no money at the disposal of `n`. */
  predicate NotCredited(b: Books, s: Step, n: string) {
    n in b.accounts && n in Apply(b, s).accounts ==> Apply(b, s).accounts[n].available <= b.accounts[n].available
  }

  predicate NeverCredited(b: Books, steps: seq<Step>, n: string) {
    steps == [] ||
    var init := steps[..|steps| - 1];
    NeverCredited(b, init, n) && NotCredited(Run(b, init), steps[|steps| - 1], n)
  }

  lemma TradesSpendNothing(b: Books, s: Step, n: string)
    requires Routed(b, s) && (s.RecordTrade? || s.ProcessTrade?)
    ensures Spent(Apply(b, s), n) == Spent(b, n)
  {
    match s
    case RecordTrade(req, rates, down) =>
      var currencies := Trade.Currencies(b.accounts);
      if Trade.Obstacle(currencies, req, rates, down).None? {
        SumAppend(b.journal, Trade.Entry(currencies, req, rates, down), SpentBy(n));
      }
    case ProcessTrade(id, down) =>
      if Trade.ProcessTrade(b, id, down).Ok? {
        SumUpdate(b.journal, id - 1, b.journal[id - 1].(status := Completed), SpentBy(n));
      }
  }

  lemma HoldsSpendNothing(b: Books, s: Step, n: string)
    requires Linked(b) && (s.Reserve? || s.Act? || s.Prepare? || s.Decide?)
    ensures Spent(Apply(b, s), n) == Spent(b, n)
  {
    match s
    case Reserve(req, rates, down) => Otc.ReserveShape(b, req, rates, down);
    case Act(action, id, down) => Otc.ActShape(b, action, id, down);
    case Prepare(req, rates, down) => Cash.PrepareShape(b, Cash.Trimmed(req), rates, down);
    case Decide(verdict, id, down) =>
      Cash.DecideShape(b, verdict, Text.Trim(id), down);
      if Apply(b, s).journal != b.journal {
        SumAppend(b.journal, Cash.HistoryEntry(b.postings[IndexOf(b.postings, Cash.HasID(Text.Trim(id))).value]), SpentBy(n));
      }
  }

  lemma RecordingSpendsNothing(b: Books, s: Step, n: string)
    requires s.RecordPayment?
    ensures Spent(Apply(b, s), n) == Spent(b, n)
  {
    var made := Pay.NewPayment(b.accounts, s.payment, s.sameClient, s.rates, s.down);
    if made.Ok? {
      SumAppend(b.journal, made.value, SpentBy(n));
    }
  }

  lemma OutcomesSpendNothing(b: Books, s: Step, n: string)
    requires s.FinalizePayment? && Routed(b, s)
    ensures Spent(Apply(b, s), n) == Spent(b, n)
  {
    Pay.FinalizeShape(b, s.id, s.success, s.down);
    var c := Apply(b, s);
    if c != b {
      SpentByClosing(b, c, s.id, if s.success then Completed else Rejected, n);
    }
  }

  /** The payment that a step completes on the bank's own books, if it does. */
  function Settles(b: Books, s: Step): Option<Transaction> {
    if s.ProcessPayment? && 1 <= s.id <= |b.journal| && !IsForeign(b.journal[s.id - 1].recipient) && Apply(b, s) != b
    then Some(b.journal[s.id - 1]) else None
  }

  lemma ProcessingSpends(b: Books, s: Step, n: string)
    requires s.ProcessPayment? && Routed(b, s)
    ensures var t := Settles(b, s);
      Spent(Apply(b, s), n) == Spent(b, n) + if t.Some? && t.value.payer == n then t.value.startAmount else 0.0
  {
    Pay.ProcessShape(b, s.id, s.reply, s.down);
    var c := Apply(b, s);
    if c != b {
      var t := b.journal[s.id - 1];
      var status := if IsForeign(t.recipient) then Rejected else Completed;
      assert c.journal == Pay.WithStatus(b.journal, s.id, status);
      SpentByClosing(b, c, s.id, status, n);
    }
  }

  lemma SpentByClosing(b: Books, c: Books, id: nat, status: TransactionStatus, n: string)
    requires 1 <= id <= |b.journal| && b.journal[id - 1].origin.Payment? && b.journal[id - 1].status.Processing?
    requires c.journal == Pay.WithStatus(b.journal, id, status)
    ensures var t := b.journal[id - 1];
      Spent(c, n) == Spent(b, n) + if status.Completed? && !IsForeign(t.recipient) && t.payer == n then t.startAmount else 0.0
  {
    SumUpdate(b.journal, id - 1, c.journal[id - 1], SpentBy(n));
    ClosingSpends(b.journal[id - 1], status, n);
  }

  lemma ClosingSpends(t: Transaction, status: TransactionStatus, n: string)
    requires t.origin.Payment? && t.status.Processing?
    ensures SpentBy(n)(t) == 0.0
    ensures SpentBy(n)(t.(status := status)) ==
            if status.Completed? && !IsForeign(t.recipient) && t.payer == n then t.startAmount else 0.0
  {
  }

  /** Only the completion of an own payment spends anything. */
  lemma StepSpends(b: Books, s: Step, n: string)
    requires Linked(b) && Routed(b, s)
    ensures var t := Settles(b, s);
      Spent(Apply(b, s), n) == Spent(b, n) + if t.Some? && t.value.payer == n then t.value.startAmount else 0.0
  {
    if s.ProcessPayment? {
      ProcessingSpends(b, s, n);
    } else if s.RecordTrade? || s.ProcessTrade? {
      TradesSpendNothing(b, s, n);
    } else if s.RecordPayment? {
      RecordingSpendsNothing(b, s, n);
    } else if s.FinalizePayment? {
      OutcomesSpendNothing(b, s, n);
    } else {
      HoldsSpendNothing(b, s, n);
    }
  }

  /** What a customer's completed payment spends is no longer available. */
  lemma SettlingTakes(b: Books, s: Step, n: string)
    requires n in b.accounts && !IsBanks(n) && Settles(b, s).Some? && Settles(b, s).value.payer == n
    ensures var t := Settles(b, s).value;
      && n in Apply(b, s).accounts && t.startAmount <= Room(b.accounts[n])
      && Apply(b, s).accounts[n].available == b.accounts[n].available - t.startAmount
  {
    var t := Settles(b, s).value;
    Pay.ProcessShape(b, s.id, s.reply, s.down);
    OwnLegIsTheAmount(t, n);
  }

  lemma OwnLegIsTheAmount(t: Transaction, n: string)
    requires t.payer == n && t.recipient != n && !IsBanks(n)
    ensures PaymentLeg(t, n) == -t.startAmount
  {
    assert t.startCurrency in BANK_ACCOUNTS ==> BANK_ACCOUNTS[t.startCurrency] in BANK_ACCOUNTS.Values;
    assert t.endCurrency in BANK_ACCOUNTS ==> BANK_ACCOUNTS[t.endCurrency] in BANK_ACCOUNTS.Values;
  }

  /** A customer who gets nothing spends at most what becomes unavailable. */
  lemma {:induction false} SpendingTakesMoney(b: Books, steps: seq<Step>, n: string)
    requires Linked(b) && AlwaysRouted(b, steps) && NeverCredited(b, steps, n) && n in b.accounts && !IsBanks(n)
    ensures n in Run(b, steps).accounts
    ensures Spent(Run(b, steps), n) - Spent(b, n) <= b.accounts[n].available - Run(b, steps).accounts[n].available
  {
    RunFrame(b, steps);
    if steps != [] {
      var init, s := steps[..|steps| - 1], steps[|steps| - 1];
      var c := Run(b, init);
      SpendingTakesMoney(b, init, n);
      RunFrame(b, init);
      StepTakes(c, s, n);
    }
  }

  lemma StepTakes(c: Books, s: Step, n: string)
    requires Linked(c) && Routed(c, s) && NotCredited(c, s, n) && n in c.accounts && n in Apply(c, s).accounts && !IsBanks(n)
    ensures Spent(Apply(c, s), n) - Spent(c, n) <= c.accounts[n].available - Apply(c, s).accounts[n].available
  {
    StepSpends(c, s, n);
    if Settles(c, s).Some? && Settles(c, s).value.payer == n {
      SettlingTakes(c, s, n);
    }
  }

  /** Without room nothing is spent at all. */
  lemma {:induction false} NoRoomNoSpending(opening: map<string, real>, b: Books, steps: seq<Step>, n: string)
    requires Sound(opening, b) && ProperRun(b, steps) && n in b.accounts && !IsBanks(n) && Room(b.accounts[n]) <= 0.0
    ensures Spent(Run(b, steps), n) == Spent(b, n)
  {
    if steps != [] {
      var init, s := steps[..|steps| - 1], steps[|steps| - 1];
      var c := Run(b, init);
      NoRoomNoSpending(opening, b, init, n);
      NobodyIsOverdrawn(opening, b, init);
      LimitsNeverFill(b, init, n, 0.0);
      NoRoomNoStep(c, s, n);
    }
  }

  lemma NoRoomNoStep(c: Books, s: Step, n: string)
    requires Linked(c) && Solvent(c) && Routed(c, s) && n in c.accounts && !IsBanks(n) && Room(c.accounts[n]) <= 0.0
    ensures Spent(Apply(c, s), n) == Spent(c, n)
  {
    StepSpends(c, s, n);
    if Settles(c, s).Some? && Settles(c, s).value.payer == n {
      assert Settles(c, s).value in c.journal;
      SettlingTakes(c, s, n);
    }
  }

  /** The room bounds the sum of what a customer spends where there is none, or no more is available than
      the room and nothing is added. */
  lemma SpendingWithinRoom(opening: map<string, real>, b: Books, steps: seq<Step>, n: string)
    requires Sound(opening, b) && ProperRun(b, steps) && NeverCredited(b, steps, n) && n in b.accounts && !IsBanks(n)
    requires Room(b.accounts[n]) <= 0.0 || b.accounts[n].available <= Room(b.accounts[n])
    ensures WithinRoom(b, steps, n)
  {
    if Room(b.accounts[n]) <= 0.0 {
      NoRoomNoSpending(opening, b, steps, n);
    } else {
      SpendingTakesMoney(b, steps, n);
      NobodyIsOverdrawn(opening, b, steps);
    }
  }

  /** The run spends no more than the room that there was at first. */
  ghost predicate WithinRoom(b: Books, steps: seq<Step>, n: string)
    requires n in b.accounts
  {
    Spent(Run(b, steps), n) - Spent(b, n) <= if Room(b.accounts[n]) <= 0.0 then 0.0 else Room(b.accounts[n])
  }

  // ----- and otherwise it can be exceeded -----

  /** `x`, `k` times. */
  function Times(k: nat, x: real): real { if k == 0 then 0.0 else Times(k - 1, x) + x }

  lemma {:induction false} TimesMultiplies(k: nat, x: real)
    ensures Times(k, x) == k as real * x
  {
    if k > 0 {
      TimesMultiplies(k - 1, x);
      assert k as real * x == (k - 1) as real * x + x;
    }
  }

  /** A payment within one currency that the payer's limits let through, of which `k` can be paid for. */
  predicate Affordable(accounts: map<string, Account>, req: Pay.PaymentRequest, k: nat) {
    && req.payer in accounts && req.recipient in accounts && req.payer != req.recipient && !IsForeign(req.recipient)
    && accounts[req.payer].currency == accounts[req.recipient].currency
    && Pay.LimitObstacle(accounts[req.payer], req.amount).None?
    && req.amount > 0.0 && Times(k, req.amount) <= accounts[req.payer].available
  }

  /** One payment from request to completion. */
  function PayNow(b: Books, req: Pay.PaymentRequest): Books {
    Pay.Process(Pay.Record(b, req, true, None, {}).0, |b.journal| + 1, Pay.Accepted, {}).0
  }

  /** The same payment `k` times over. */
  function PayAgain(b: Books, req: Pay.PaymentRequest, k: nat): Books {
    if k == 0 then b else PayNow(PayAgain(b, req, k - 1), req)
  }

  /** From `b` to `c` `k` payments of `req` have moved `total`. */
  ghost predicate PaidOver(b: Books, c: Books, req: Pay.PaymentRequest, k: nat, total: real)
    requires req.payer in b.accounts && req.recipient in b.accounts
  {
    && |c.journal| == |b.journal| + k && Spent(c, req.payer) == Spent(b, req.payer) + total
    && req.payer in c.accounts && c.accounts[req.payer] == Moved(b.accounts, req.payer, -total, -total)
    && req.recipient in c.accounts && c.accounts[req.recipient] == Moved(b.accounts, req.recipient, total, total)
  }

  lemma PaysOnce(b: Books, req: Pay.PaymentRequest)
    requires Affordable(b.accounts, req, 1)
    ensures PaidOver(b, PayNow(b, req), req, 1, req.amount)
  {
    var c := PayNow(b, req);
    assert Times(1, req.amount) == Times(0, req.amount) + req.amount;
    assert |c.journal| == |b.journal| + 1;
    var t := c.journal[|b.journal|];
    assert c.journal == b.journal + [t];
    SumAppend(b.journal, t, SpentBy(req.payer));
  }

  lemma PaysOnceMore(b: Books, c: Books, d: Books, req: Pay.PaymentRequest, k: nat, total: real)
    requires req.payer in b.accounts && req.recipient in b.accounts && req.payer in c.accounts && req.recipient in c.accounts
    requires PaidOver(b, c, req, k, total) && PaidOver(c, d, req, 1, req.amount)
    ensures PaidOver(b, d, req, k + 1, total + req.amount)
  {
  }

  lemma StillAffordable(b: Books, c: Books, req: Pay.PaymentRequest, k: nat)
    requires Affordable(b.accounts, req, k + 1) && PaidOver(b, c, req, k, Times(k, req.amount))
    ensures Affordable(c.accounts, req, 1)
  {
    assert Times(1, req.amount) == req.amount;
  }

  lemma OncePaidMore(b: Books, c: Books, req: Pay.PaymentRequest, k: nat)
    requires Affordable(b.accounts, req, k + 1) && PaidOver(b, c, req, k, Times(k, req.amount))
    ensures PaidOver(b, PayNow(c, req), req, k + 1, Times(k + 1, req.amount))
  {
    StillAffordable(b, c, req, k);
    PaysOnce(c, req);
    PaysOnceMore(b, c, PayNow(c, req), req, k, Times(k, req.amount));
  }

  /** The limits bound each payment and not their sum: whatever the daily limit, as long as the money is there
      a payment within it can be made over and over, and spends any multiple of it. */
  lemma {:induction false} LimitsDoNotAddUp(b: Books, req: Pay.PaymentRequest, k: nat)
    requires Affordable(b.accounts, req, k)
    ensures PaidOver(b, PayAgain(b, req, k), req, k, Times(k, req.amount))
  {
    if k > 0 {
      LimitsDoNotAddUp(b, req, k - 1);
      OncePaidMore(b, PayAgain(b, req, k - 1), req, k - 1);
    }
  }

  /** A payment from request to completion, as two steps. */
  function PaySteps(req: Pay.PaymentRequest, id: nat): seq<Step> {
    [RecordPayment(req, true, None, {}), ProcessPayment(id, Pay.Accepted, {})]
  }

  lemma StepsPayNow(b: Books, req: Pay.PaymentRequest)
    requires Affordable(b.accounts, req, 1)
    ensures var steps := PaySteps(req, |b.journal| + 1);
      && Apply(Apply(b, steps[0]), steps[1]) == PayNow(b, req)
      && Routed(b, steps[0]) && Routed(Apply(b, steps[0]), steps[1])
      && NotCredited(b, steps[0], req.payer) && NotCredited(Apply(b, steps[0]), steps[1], req.payer)
      && Proper(steps[0]) && Proper(steps[1])
  {
    PaysOnce(b, req);
  }

  lemma RunTwoMore(b: Books, steps: seq<Step>, s: Step, t: Step, n: string)
    ensures var c, d, longer := Run(b, steps), Apply(Run(b, steps), s), steps + [s, t];
      && Run(b, longer) == Apply(d, t)
      && (AlwaysRouted(b, longer) <==> AlwaysRouted(b, steps) && Routed(c, s) && Routed(d, t))
      && (NeverCredited(b, longer, n) <==> NeverCredited(b, steps, n) && NotCredited(c, s, n) && NotCredited(d, t, n))
  {
    var all := steps + [s, t];
    assert all[..|all| - 1] == steps + [s];
    assert (steps + [s])[..|steps|] == steps;
  }

  /** One more payment prolongs a run. */
  lemma PayOnceMore(b: Books, steps: seq<Step>, c: Books, req: Pay.PaymentRequest)
    requires c == Run(b, steps) && Affordable(c.accounts, req, 1)
    requires ProperRun(b, steps) && NeverCredited(b, steps, req.payer)
    ensures var longer := steps + PaySteps(req, |c.journal| + 1);
      Run(b, longer) == PayNow(c, req) && ProperRun(b, longer) && NeverCredited(b, longer, req.payer)
  {
    var more := PaySteps(req, |c.journal| + 1);
    StepsPayNow(c, req);
    RunTwoMore(b, steps, more[0], more[1], req.payer);
    assert more == [more[0], more[1]];
  }

  lemma PayTwice(b: Books, req: Pay.PaymentRequest) returns (steps: seq<Step>)
    requires Affordable(b.accounts, req, 2)
    ensures Run(b, steps) == PayAgain(b, req, 2) && ProperRun(b, steps) && NeverCredited(b, steps, req.payer)
  {
    LessIsAffordable(b.accounts, req);
    PayOnceMore(b, [], b, req);
    var first, c := [] + PaySteps(req, |b.journal| + 1), PayNow(b, req);
    LimitsDoNotAddUp(b, req, 1);
    assert PayAgain(b, req, 1) == PayNow(PayAgain(b, req, 0), req);
    StillAffordable(b, c, req, 1);
    PayOnceMore(b, first, c, req);
    steps := first + PaySteps(req, |c.journal| + 1);
  }

  lemma LessIsAffordable(accounts: map<string, Account>, req: Pay.PaymentRequest)
    requires Affordable(accounts, req, 2)
    ensures Affordable(accounts, req, 1)
  {
    assert Times(2, req.amount) == Times(1, req.amount) + req.amount;
  }

  /** `m` is another local account in the currency of `n`. */
  predicate CanPay(accounts: map<string, Account>, n: string, m: string) {
    n in accounts && m in accounts && n != m && !IsForeign(m) && accounts[n].currency == accounts[m].currency
  }

  /** Two payments of the room, or of half of what is available if that is less, exceed the room. */
  lemma TwoPaymentsExceedTheRoom(b: Books, n: string, m: string) returns (steps: seq<Step>)
    requires CanPay(b.accounts, n, m) && 0.0 < Room(b.accounts[n]) < b.accounts[n].available
    ensures ProperRun(b, steps) && NeverCredited(b, steps, n) && !WithinRoom(b, steps, n)
  {
    var room, half := Room(b.accounts[n]), b.accounts[n].available / 2.0;
    var req := Pay.PaymentRequest(n, m, if room <= half then room else half, false);
    assert Times(2, req.amount) == Times(1, req.amount) + req.amount && Times(1, req.amount) == req.amount;
    assert Affordable(b.accounts, req, 2);
    steps := PayTwice(b, req);
    LimitsDoNotAddUp(b, req, 2);
  }

  /** The exact condition under which the limits of a customer's account bound what is spent in total, when
      nothing is added to it and there is another account that it could pay to: there is no room to begin
      with, or no more money than room. */
  lemma LimitsBoundTheSumExactly(opening: map<string, real>, b: Books, n: string, m: string)
    requires Sound(opening, b) && CanPay(b.accounts, n, m) && !IsBanks(n)
    ensures (forall steps :: ProperRun(b, steps) && NeverCredited(b, steps, n) ==> WithinRoom(b, steps, n)) <==>
            Room(b.accounts[n]) <= 0.0 || b.accounts[n].available <= Room(b.accounts[n])
  {
    if Room(b.accounts[n]) <= 0.0 || b.accounts[n].available <= Room(b.accounts[n]) {
      forall steps | ProperRun(b, steps) && NeverCredited(b, steps, n)
        ensures WithinRoom(b, steps, n)
      {
        SpendingWithinRoom(opening, b, steps, n);
      }
    } else {
      var steps := TwoPaymentsExceedTheRoom(b, n, m);
    }
  }

  /** A limit of 100 a day and a month, and three payments of 100 within it. */
  lemma ThreeHundredWithinOneHundred(opening: map<string, real>, b: Books)
    requires JustOpened(opening, b, 300.0)
    ensures b.accounts["B"].dailyLimit == b.accounts["B"].monthlyLimit == 100.0
    ensures var c := PayAgain(b, Pay.PaymentRequest("B", "S", 100.0, false), 3);
      && Spent(c, "B") == 300.0 && "B" in c.accounts && c.accounts["B"].available == 0.0
  {
    var req := Pay.PaymentRequest("B", "S", 100.0, false);
    assert Times(1, 100.0) == 100.0 && Times(2, 100.0) == 200.0 && Times(3, 100.0) == 300.0;
    LimitsDoNotAddUp(b, req, 3);
  }
}
