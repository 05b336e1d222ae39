/** What the transaction journal says after any run of the bank. */
module JournalLaws {
  import opened Prelude
  import opened Sequences
  import opened ExchangeRates
  import opened Books
  import opened BankRuns
  import Text
  import Trade = TradeSettlement
  import Otc = OtcFunds
  import Cash = InterbankCash
  import Pay = Payments

  datatype TradeCall = TradeCall(req: Trade.TradeRequest, rates: RatesRead, down: set<RepoOp>)

  /** The settlement calls of a run. */
  function TradeCalls(steps: seq<Step>): seq<TradeCall> {
    if steps == [] then []
    else
      var last := steps[|steps| - 1];
      TradeCalls(steps[..|steps| - 1])
      + (if last.RecordTrade? then [TradeCall(last.req, last.rates, last.down)] else [])
  }

  /** Is the call recorded when the accounts have these currencies? */
  predicate IsRecorded(currencies: map<string, string>, call: TradeCall) {
    Trade.Obstacle(currencies, call.req, call.rates, call.down).None?
  }

  /** When an amount can be converted: never needed, or rates are there for both currencies but RSD. */
  predicate Convertible(from: string, to: string, rates: RatesRead) {
    || from == to
    || (&& rates.Some? && rates.value.Keys != {}
        && (from == RSD || from in rates.value) && (to == RSD || to in rates.value))
  }

  /** A call grows the journal exactly when it names a customer account, a currency that has a settlement
      account, a direction and a positive amount, both accounts exist, their currencies are convertible
      at the time, and no repository call fails. */
  lemma RecordedExactly(b: Books, call: TradeCall)
    ensures var customer, code := Trade.CustomerOf(call.req), Trade.CurrencyOf(call.req);
      && (IsRecorded(Trade.Currencies(b.accounts), call) <==>
          && customer != "" && customer in b.accounts
          && code in BANK_ACCOUNTS && BANK_ACCOUNTS[code] in b.accounts
          && call.req.direction in {Trade.BUY, Trade.SELL} && call.req.amount > 0.0
          && Convertible(b.accounts[BANK_ACCOUNTS[code]].currency, b.accounts[customer].currency, call.rates)
          && FindCustomer !in call.down && FindBank !in call.down && CreateTransaction !in call.down)
      && |Trade.RecordTrade(b, call.req, call.rates, call.down).journal| ==
         |b.journal| + if IsRecorded(Trade.Currencies(b.accounts), call) then 1 else 0
  {
    assert "" !in BANK_ACCOUNTS;
    assert call.rates.Some? ==> (call.rates.value == map[] <==> call.rates.value.Keys == {});
  }

  /** What a call records on account `a`. */
  function CallLeg(currencies: map<string, string>, a: string): TradeCall -> real {
    (call: TradeCall) =>
      if IsRecorded(currencies, call) then Leg(Trade.Entry(currencies, call.req, call.rates, call.down), a) else 0.0
  }

  /** The net position that the settlement entries of the journal record on `a`, processed or not. */
  ghost function NetRecorded(b: Books, a: string): real { Sum(b.journal, RecordedBy(a)) }

  lemma RecordNet(b: Books, call: TradeCall, a: string)
    ensures NetRecorded(Trade.RecordTrade(b, call.req, call.rates, call.down), a) ==
            NetRecorded(b, a) + CallLeg(Trade.Currencies(b.accounts), a)(call)
  {
    if IsRecorded(Trade.Currencies(b.accounts), call) {
      SumAppend(b.journal, Trade.Entry(Trade.Currencies(b.accounts), call.req, call.rates, call.down), RecordedBy(a));
    }
  }

  lemma ProcessNet(b: Books, id: nat, down: set<RepoOp>, a: string)
    ensures NetRecorded(Trade.Processed(b, id, down), a) == NetRecorded(b, a)
  {
    if Trade.ProcessTrade(b, id, down).Ok? {
      SumUpdate(b.journal, id - 1, b.journal[id - 1].(status := Completed), RecordedBy(a));
    }
  }

  lemma OtherStepNet(b: Books, s: Step, a: string)
    requires Linked(b) && !s.RecordTrade? && !s.ProcessTrade?
    ensures NetRecorded(Apply(b, s), a) == NetRecorded(b, a)
  {
    match s
    case Reserve(req, rates, down) => Otc.ReserveShape(b, req, rates, down);
    case Act(action, id, down) => Otc.ActShape(b, action, id, down);
    case Prepare(req, rates, down) => Cash.PrepareShape(b, Cash.Trimmed(req), rates, down);
    case Decide(verdict, id, down) =>
      Cash.DecideShape(b, verdict, Text.Trim(id), down);
      if Apply(b, s) != b {
        var i := IndexOf(b.postings, Cash.HasID(Text.Trim(id))).value;
        SumAppend(b.journal, Cash.HistoryEntry(b.postings[i]), RecordedBy(a));
      }
    case RecordPayment(_, _, _, _) => PaymentNet(b, s, a);
    case ProcessPayment(_, _, _) => PaymentNet(b, s, a);
    case FinalizePayment(_, _, _) => PaymentNet(b, s, a);
  }

  predicate IsPaymentStep(s: Step) { s.RecordPayment? || s.ProcessPayment? || s.FinalizePayment? }

  /** A payment step appends one open payment, closes one entry, or leaves the journal alone. */
  lemma PaymentStepShape(b: Books, s: Step)
    requires IsPaymentStep(s)
    ensures var before, after := b.journal, Apply(b, s).journal;
      || after == before
      || (|after| == |before| + 1 && after == before + [after[|before|]] && after[|before|].origin.Payment?)
      || exists id, status :: 1 <= id <= |before| && after == Pay.WithStatus(before, id, status)
    ensures Apply(b, s).reservations == b.reservations && Apply(b, s).postings == b.postings
  {
    match s
    case RecordPayment(req, sameClient, rates, down) => Pay.RecordShape(b.accounts, req, sameClient, rates, down);
    case ProcessPayment(id, reply, down) => Pay.ProcessShape(b, id, reply, down);
    case FinalizePayment(id, success, down) => Pay.FinalizeShape(b, id, success, down);
  }

  /** Payment steps leave every total alone that ignores payments and does not look at statuses. */
  lemma PaymentStepSum(b: Books, s: Step, f: Transaction -> real)
    requires IsPaymentStep(s) && Ignores(f)
    ensures Sum(Apply(b, s).journal, f) == Sum(b.journal, f)
  {
    PaymentStepShape(b, s);
    var before, after := b.journal, Apply(b, s).journal;
    if after == before {
    } else if |after| == |before| + 1 {
      SumAppend(before, after[|before|], f);
    } else {
      var id, status :| 1 <= id <= |before| && after == Pay.WithStatus(before, id, status);
      SumUpdate(before, id - 1, after[id - 1], f);
    }
  }

  ghost predicate Ignores(f: Transaction -> real) {
    && (forall t: Transaction :: t.origin.Payment? ==> f(t) == 0.0)
    && (forall t: Transaction, status :: f(t.(status := status)) == f(t))
  }

  lemma PaymentNet(b: Books, s: Step, a: string)
    requires IsPaymentStep(s)
    ensures NetRecorded(Apply(b, s), a) == NetRecorded(b, a)
  {
    PaymentStepSum(b, s, RecordedBy(a));
  }

  function StepLeg(currencies: map<string, string>, a: string, s: Step): real {
    if s.RecordTrade? then CallLeg(currencies, a)(TradeCall(s.req, s.rates, s.down)) else 0.0
  }

  lemma LastCall(currencies: map<string, string>, a: string, steps: seq<Step>)
    requires steps != []
    ensures Sum(TradeCalls(steps), CallLeg(currencies, a)) ==
            Sum(TradeCalls(steps[..|steps| - 1]), CallLeg(currencies, a)) + StepLeg(currencies, a, steps[|steps| - 1])
  {
    var init, last := steps[..|steps| - 1], steps[|steps| - 1];
    if last.RecordTrade? {
      SumAppend(TradeCalls(init), TradeCall(last.req, last.rates, last.down), CallLeg(currencies, a));
    } else {
      assert TradeCalls(steps) == TradeCalls(init);
    }
  }

  lemma SameCurrencies(b: Books, c: Books)
    requires Evolves(b, c)
    ensures Trade.Currencies(b.accounts) == Trade.Currencies(c.accounts)
  {
  }

  /** Over any run, whatever else happens and however the rates move, the net recorded position of every
      account grows by the legs of the recorded calls, each taken at the rates of its own time. */
  lemma {:induction false} NetIsTheSumOfCalls(b: Books, steps: seq<Step>, a: string)
    requires Linked(b)
    ensures NetRecorded(Run(b, steps), a) ==
            NetRecorded(b, a) + Sum(TradeCalls(steps), CallLeg(Trade.Currencies(b.accounts), a))
  {
    if steps != [] {
      var init, last := steps[..|steps| - 1], steps[|steps| - 1];
      var before := Run(b, init);
      NetIsTheSumOfCalls(b, init, a);
      RunFrame(b, init);
      SameCurrencies(b, before);
      LastCall(Trade.Currencies(b.accounts), a, steps);
      match last {
        case RecordTrade(req, rates, down) => RecordNet(before, TradeCall(req, rates, down), a);
        case ProcessTrade(id, down) => ProcessNet(before, id, down, a);
        case _ => OtherStepNet(before, last, a);
      }
    }
  }

  // ----- the bank's side -----

  predicate IsBankAccount(n: string) { n in BANK_ACCOUNTS.Values }

  /** The signed amount of a recorded call in trade currency `code`: bought counts for the bank, sold against. */
  function Booked(currencies: map<string, string>, code: string): TradeCall -> real {
    (call: TradeCall) =>
      if !IsRecorded(currencies, call) || Trade.CurrencyOf(call.req) != code then 0.0
      else if call.req.direction == Trade.BUY then call.req.amount
      else -call.req.amount
  }

  lemma BankAccountsAreDistinct(c: string, d: string)
    requires c in BANK_ACCOUNTS && d in BANK_ACCOUNTS && c != d
    ensures BANK_ACCOUNTS[c] != BANK_ACCOUNTS[d]
  {
    assert forall x :: x in BANK_ACCOUNTS ==>
      |BANK_ACCOUNTS[x]| == 18 && BANK_ACCOUNTS[x][17] == LastDigit(x);
  }

  function LastDigit(code: string): char {
    if code == "RSD" then '0' else if code == "EUR" then '1' else if code == "USD" then '2' else if code == "CHF" then '3'
    else if code == "GBP" then '4' else if code == "JPY" then '5' else if code == "CAD" then '6' else '7'
  }

  lemma BankLegIsTheRequestedAmount(currencies: map<string, string>, call: TradeCall, code: string)
    requires code in BANK_ACCOUNTS && !IsBankAccount(Trade.CustomerOf(call.req))
    ensures CallLeg(currencies, BANK_ACCOUNTS[code])(call) == Booked(currencies, code)(call)
  {
    if IsRecorded(currencies, call) {
      var own := Trade.CurrencyOf(call.req);
      assert BANK_ACCOUNTS[code] in BANK_ACCOUNTS.Values;
      if own != code {
        BankAccountsAreDistinct(own, code);
      }
    }
  }

  /** A call's leg on a customer's account is its amount converted from the settlement account's currency,
      paid by a customer who buys and received by one who sells. */
  lemma CustomerLegIsTheConvertedAmount(b: Books, call: TradeCall)
    requires IsRecorded(Trade.Currencies(b.accounts), call) && !IsBankAccount(Trade.CustomerOf(call.req))
    ensures var customer := Trade.CustomerOf(call.req);
      var bank := BANK_ACCOUNTS[Trade.CurrencyOf(call.req)];
      var leg := CallLeg(Trade.Currencies(b.accounts), customer)(call);
      Convert(call.req.amount, b.accounts[bank].currency, b.accounts[customer].currency, call.rates) ==
        Ok(if call.req.direction == Trade.BUY then -leg else leg)
  {
    assert BANK_ACCOUNTS[Trade.CurrencyOf(call.req)] in BANK_ACCOUNTS.Values;
  }

  /** A settlement account's net recorded position is what customers bought minus what they sold in its
      currency: exchange rates, processing and everything else the bank does have no part in it. */
  lemma BankPositionIsIndependentOfRates(b: Books, steps: seq<Step>, code: string)
    requires Linked(b) && code in BANK_ACCOUNTS
    requires forall call :: call in TradeCalls(steps) ==> !IsBankAccount(Trade.CustomerOf(call.req))
    ensures NetRecorded(Run(b, steps), BANK_ACCOUNTS[code]) ==
            NetRecorded(b, BANK_ACCOUNTS[code]) + Sum(TradeCalls(steps), Booked(Trade.Currencies(b.accounts), code))
  {
    var currencies, calls := Trade.Currencies(b.accounts), TradeCalls(steps);
    NetIsTheSumOfCalls(b, steps, BANK_ACCOUNTS[code]);
    forall call | call in calls
      ensures CallLeg(currencies, BANK_ACCOUNTS[code])(call) == Booked(currencies, code)(call)
    {
      BankLegIsTheRequestedAmount(currencies, call, code);
    }
    SumAgree(calls, CallLeg(currencies, BANK_ACCOUNTS[code]), Booked(currencies, code));
  }

  // ----- opposite calls -----

  function Opposite(call: TradeCall): TradeCall {
    var d := call.req.direction;
    call.(req := call.req.(direction := if d == Trade.BUY then Trade.SELL else if d == Trade.SELL then Trade.BUY else d))
  }

  function Opposites(calls: seq<TradeCall>): seq<TradeCall> {
    if calls == [] then [] else Opposites(calls[..|calls| - 1]) + [Opposite(calls[|calls| - 1])]
  }

  /** A purchase and a sale of the same amount at the same rates cancel, on both parties' accounts: both
      directions convert from the bank's currency into the customer's. */
  lemma OppositesCancel(currencies: map<string, string>, call: TradeCall, a: string)
    ensures CallLeg(currencies, a)(call) + CallLeg(currencies, a)(Opposite(call)) == 0.0
  {
    assert IsRecorded(currencies, Opposite(call)) <==> IsRecorded(currencies, call);
  }

  lemma {:induction false} OppositesCancelAll(currencies: map<string, string>, calls: seq<TradeCall>, a: string)
    ensures Sum(calls, CallLeg(currencies, a)) + Sum(Opposites(calls), CallLeg(currencies, a)) == 0.0
  {
    if calls != [] {
      var init, last := calls[..|calls| - 1], calls[|calls| - 1];
      OppositesCancelAll(currencies, init, a);
      OppositesCancel(currencies, last, a);
      SumAppend(Opposites(init), Opposite(last), CallLeg(currencies, a));
    }
  }

  /** A run whose settlement calls pair off, in any order and with anything in between, leaves every net
      recorded position as it was. */
  lemma PairedRunsCancel(b: Books, steps: seq<Step>, calls: seq<TradeCall>, a: string)
    requires Linked(b)
    requires multiset(TradeCalls(steps)) == multiset(calls + Opposites(calls))
    ensures NetRecorded(Run(b, steps), a) == NetRecorded(b, a)
  {
    var leg := CallLeg(Trade.Currencies(b.accounts), a);
    NetIsTheSumOfCalls(b, steps, a);
    SumPermutation(TradeCalls(steps), calls + Opposites(calls), leg);
    SumConcat(calls, Opposites(calls), leg);
    OppositesCancelAll(Trade.Currencies(b.accounts), calls, a);
  }

  // ----- the shape of the entries -----

  ghost predicate WellFormed(accounts: map<string, Account>, t: Transaction) {
    && t.payer in accounts && t.recipient in accounts
    && t.startCurrency == accounts[t.payer].currency
    && t.endCurrency == accounts[t.recipient].currency
    && (t.startCurrency == t.endCurrency ==> t.startAmount == t.endAmount)
    && exists code :: code in BANK_ACCOUNTS &&
         ((t.recipient == BANK_ACCOUNTS[code] && t.endAmount > 0.0) ||
          (t.payer == BANK_ACCOUNTS[code] && t.startAmount > 0.0))
  }

  ghost predicate JournalWellFormed(b: Books) {
    forall t :: t in b.journal && t.origin.Settlement? ==> WellFormed(b.accounts, t)
  }

  lemma EntryIsWellFormed(accounts: map<string, Account>, call: TradeCall)
    requires IsRecorded(Trade.Currencies(accounts), call)
    ensures WellFormed(accounts, Trade.Entry(Trade.Currencies(accounts), call.req, call.rates, call.down))
  {
    var code := Trade.CurrencyOf(call.req);
    assert code in BANK_ACCOUNTS;
  }

  lemma StepKeepsJournal(b: Books, s: Step)
    requires Linked(b) && JournalWellFormed(b)
    ensures JournalWellFormed(Apply(b, s))
  {
    var c := Apply(b, s);
    StepFrame(b, s);
    forall i | 0 <= i < |c.journal| && c.journal[i].origin.Settlement?
      ensures WellFormed(c.accounts, c.journal[i])
    {
      if i < |b.journal| {
        assert b.journal[i] in b.journal;
        assert WellFormed(b.accounts, b.journal[i]);
      } else if s.RecordTrade? {
        EntryIsWellFormed(b.accounts, TradeCall(s.req, s.rates, s.down));
      } else {
        OnlyTradesAddSettlements(b, s, i);
      }
    }
  }

  /** Only recording a trade adds settlement entries. */
  lemma OnlyTradesAddSettlements(b: Books, s: Step, i: nat)
    requires Linked(b) && !s.RecordTrade? && |b.journal| <= i < |Apply(b, s).journal|
    ensures !Apply(b, s).journal[i].origin.Settlement?
  {
    match s
    case ProcessTrade(id, down) =>
    case Reserve(req, rates, down) => Otc.ReserveShape(b, req, rates, down);
    case Act(action, id, down) => Otc.ActShape(b, action, id, down);
    case Prepare(req, rates, down) => Cash.PrepareShape(b, Cash.Trimmed(req), rates, down);
    case Decide(verdict, id, down) => Cash.DecideShape(b, verdict, Text.Trim(id), down);
    case _ => PaymentStepShape(b, s);
  }

  /** In every reachable state each settlement entry names existing accounts and their currencies, needs
      no two amounts without conversion, and has a positive leg on a bank settlement account. */
  lemma {:induction false} JournalStaysWellFormed(b: Books, steps: seq<Step>)
    requires Linked(b) && JournalWellFormed(b)
    ensures JournalWellFormed(Run(b, steps))
  {
    if steps != [] {
      JournalStaysWellFormed(b, steps[..|steps| - 1]);
      RunFrame(b, steps[..|steps| - 1]);
      StepKeepsJournal(Run(b, steps[..|steps| - 1]), steps[|steps| - 1]);
    }
  }

  /** Every settlement entry that a run adds is the entry of one of its recorded calls, as it was at that
      call's own rates; only the status may have moved on. */
  lemma {:induction false} EveryEntryIsACall(b: Books, steps: seq<Step>, i: nat) returns (call: TradeCall)
    requires Linked(b) && |b.journal| <= i < |Run(b, steps).journal| && Run(b, steps).journal[i].origin.Settlement?
    ensures var currencies, t := Trade.Currencies(b.accounts), Run(b, steps).journal[i];
      && call in TradeCalls(steps) && IsRecorded(currencies, call)
      && t == Trade.Entry(currencies, call.req, call.rates, call.down).(status := t.status)
  {
    var init, last := steps[..|steps| - 1], steps[|steps| - 1];
    var before := Run(b, init);
    RunFrame(b, init);
    StepFrame(before, last);
    if i < |before.journal| {
      call := EveryEntryIsACall(b, init, i);
    } else {
      call := NewEntryIsTheCall(before, last, i);
      SameCurrencies(b, before);
    }
  }

  lemma NewEntryIsTheCall(b: Books, s: Step, i: nat) returns (call: TradeCall)
    requires Linked(b) && |b.journal| <= i < |Apply(b, s).journal| && Apply(b, s).journal[i].origin.Settlement?
    ensures s.RecordTrade? && call == TradeCall(s.req, s.rates, s.down) && IsRecorded(Trade.Currencies(b.accounts), call)
    ensures Apply(b, s).journal[i] == Trade.Entry(Trade.Currencies(b.accounts), call.req, call.rates, call.down)
  {
    if !s.RecordTrade? {
      OnlyTradesAddSettlements(b, s, i);
    }
    call := TradeCall(s.req, s.rates, s.down);
  }

  /** So each entry shows its request: the bank's leg is the requested amount, which is positive, on the bank's
      account for the trade currency as the request spells it but for case and surrounding space; the other
      leg is on the requested account, paid on BUY and received on SELL, and converted from the bank's. */
  lemma EntriesShowTheirRequests(b: Books, steps: seq<Step>, i: nat) returns (call: TradeCall)
    requires Linked(b) && |b.journal| <= i < |Run(b, steps).journal| && Run(b, steps).journal[i].origin.Settlement?
    ensures call in TradeCalls(steps) && Trade.CurrencyOf(call.req) in BANK_ACCOUNTS && call.req.amount > 0.0
    ensures call.req.direction in {Trade.BUY, Trade.SELL}
    ensures var t := Run(b, steps).journal[i];
      var bank, customer := BANK_ACCOUNTS[Trade.CurrencyOf(call.req)], Trade.CustomerOf(call.req);
      if call.req.direction == Trade.BUY then
        && t.recipient == bank && t.endAmount == call.req.amount && t.payer == customer
        && Convert(t.endAmount, t.endCurrency, t.startCurrency, call.rates) == Ok(t.startAmount)
      else
        && t.payer == bank && t.startAmount == call.req.amount && t.recipient == customer
        && Convert(t.startAmount, t.startCurrency, t.endCurrency, call.rates) == Ok(t.endAmount)
  {
    call := EveryEntryIsACall(b, steps, i);
    EntryShowsItsRequest(Trade.Currencies(b.accounts), call);
  }

  lemma EntryShowsItsRequest(currencies: map<string, string>, call: TradeCall)
    requires IsRecorded(currencies, call)
    ensures Trade.CurrencyOf(call.req) in BANK_ACCOUNTS && call.req.amount > 0.0
    ensures call.req.direction in {Trade.BUY, Trade.SELL}
    ensures var t := Trade.Entry(currencies, call.req, call.rates, call.down);
      var bank, customer := BANK_ACCOUNTS[Trade.CurrencyOf(call.req)], Trade.CustomerOf(call.req);
      if call.req.direction == Trade.BUY then
        && t.recipient == bank && t.endAmount == call.req.amount && t.payer == customer
        && Convert(t.endAmount, t.endCurrency, t.startCurrency, call.rates) == Ok(t.startAmount)
      else
        && t.payer == bank && t.startAmount == call.req.amount && t.recipient == customer
        && Convert(t.startAmount, t.startCurrency, t.endCurrency, call.rates) == Ok(t.endAmount)
  {
  }

  // ----- payment history of interbank postings -----

  function HistoryOf(id: string): Transaction -> real {
    (t: Transaction) => if t.origin == CashRecord(id) then 1.0 else 0.0
  }

  function OwesHistory(id: string): Posting -> real {
    (p: Posting) => if p.postingID == id && p.status.CashCommitted? && p.bankingTxID == 0 then 1.0 else 0.0
  }

  /** Posting ids are unique, and every committed posting that no local payment started has its history. */
  ghost predicate HistoryExact(b: Books) {
    && (forall i, j :: 0 <= i < j < |b.postings| ==> b.postings[i].postingID != b.postings[j].postingID)
    && forall id :: Sum(b.journal, HistoryOf(id)) == Sum(b.postings, OwesHistory(id))
  }

  lemma PrepareKeepsHistory(b: Books, req: Cash.PrepareRequest, rates: RatesRead, down: set<RepoOp>)
    requires Linked(b) && HistoryExact(b)
    ensures HistoryExact(Cash.PrepareOn(b, req, rates, down).0)
  {
    Cash.PrepareShape(b, req, rates, down);
    var c, result := Cash.PrepareOn(b, req, rates, down).0, Cash.PrepareOn(b, req, rates, down).1;
    if c != b {
      var found := IndexOf(b.postings, Cash.HasID(req.postingID));
      forall id
        ensures Sum(c.postings, OwesHistory(id)) == Sum(b.postings, OwesHistory(id))
      {
        if found.None? {
          SumAppend(b.postings, result.value, OwesHistory(id));
        } else {
          SumUpdate(b.postings, found.value, result.value, OwesHistory(id));
        }
      }
      if found.None? {
        assert forall i :: 0 <= i < |b.postings| ==> !Cash.HasID(req.postingID)(b.postings[i]);
      }
    }
  }

  lemma DecideKeepsHistory(b: Books, verdict: Cash.Verdict, key: string, down: set<RepoOp>)
    requires Linked(b) && HistoryExact(b)
    ensures HistoryExact(Cash.DecideOn(b, verdict, key, down).0)
  {
    Cash.DecideShape(b, verdict, key, down);
    var c := Cash.DecideOn(b, verdict, key, down).0;
    if c != b {
      var i := IndexOf(b.postings, Cash.HasID(key)).value;
      var p := b.postings[i];
      forall id
        ensures Sum(c.journal, HistoryOf(id)) == Sum(c.postings, OwesHistory(id))
      {
        SumUpdate(b.postings, i, c.postings[i], OwesHistory(id));
        SumAppend(b.journal, Cash.HistoryEntry(p), HistoryOf(id));
      }
    }
  }

  lemma TradeKeepsHistory(b: Books, s: Step)
    requires s.RecordTrade? || s.ProcessTrade?
    requires HistoryExact(b)
    ensures HistoryExact(Apply(b, s))
  {
    var c := Apply(b, s);
    forall id
      ensures Sum(c.journal, HistoryOf(id)) == Sum(b.journal, HistoryOf(id))
    {
      TradeWritesNoHistory(b, s, id);
    }
    assert c.postings == b.postings;
  }

  lemma TradeWritesNoHistory(b: Books, s: Step, id: string)
    requires s.RecordTrade? || s.ProcessTrade?
    ensures Sum(Apply(b, s).journal, HistoryOf(id)) == Sum(b.journal, HistoryOf(id))
  {
    match s
    case RecordTrade(req, rates, down) =>
      var currencies := Trade.Currencies(b.accounts);
      if Trade.Obstacle(currencies, req, rates, down).None? {
        SumAppend(b.journal, Trade.Entry(currencies, req, rates, down), HistoryOf(id));
      }
    case ProcessTrade(n, down) =>
      if Trade.ProcessTrade(b, n, down).Ok? {
        SumUpdate(b.journal, n - 1, b.journal[n - 1].(status := Completed), HistoryOf(id));
      }
  }

  lemma PaymentKeepsHistory(b: Books, s: Step)
    requires IsPaymentStep(s) && HistoryExact(b)
    ensures HistoryExact(Apply(b, s))
  {
    PaymentStepShape(b, s);
    forall id
      ensures Sum(Apply(b, s).journal, HistoryOf(id)) == Sum(b.journal, HistoryOf(id))
    {
      PaymentStepSum(b, s, HistoryOf(id));
    }
  }

  lemma StepKeepsHistory(b: Books, s: Step)
    requires Linked(b) && HistoryExact(b)
    ensures HistoryExact(Apply(b, s))
  {
    match s
    case RecordTrade(_, _, _) => TradeKeepsHistory(b, s);
    case ProcessTrade(_, _) => TradeKeepsHistory(b, s);
    case Reserve(req, rates, down) => Otc.ReserveShape(b, req, rates, down);
    case Act(action, id, down) => Otc.ActShape(b, action, id, down);
    case Prepare(req, rates, down) => PrepareKeepsHistory(b, Cash.Trimmed(req), rates, down);
    case Decide(verdict, id, down) => DecideKeepsHistory(b, verdict, Text.Trim(id), down);
    case _ => PaymentKeepsHistory(b, s);
  }

  lemma {:induction false} OneRowOwes(postings: seq<Posting>, i: nat)
    requires i < |postings|
    requires forall j, k :: 0 <= j < k < |postings| ==> postings[j].postingID != postings[k].postingID
    ensures Sum(postings, OwesHistory(postings[i].postingID)) == OwesHistory(postings[i].postingID)(postings[i])
  {
    var f := OwesHistory(postings[i].postingID);
    var init, last := postings[..|postings| - 1], postings[|postings| - 1];
    if i < |init| {
      OneRowOwes(init, i);
    } else {
      NobodyOwes(init, postings[i].postingID);
    }
  }

  lemma {:induction false} NobodyOwes(postings: seq<Posting>, id: string)
    requires forall j :: 0 <= j < |postings| ==> postings[j].postingID != id
    ensures Sum(postings, OwesHistory(id)) == 0.0
  {
    if postings != [] {
      NobodyOwes(postings[..|postings| - 1], id);
    }
  }

  /** However often a commit is retransmitted, and whatever fails in between, a posting has exactly one
      history entry once it is committed and none before; a posting that a local payment started has none. */
  lemma HistoryIsWrittenOnce(b: Books, steps: seq<Step>, i: nat)
    requires Linked(b) && HistoryExact(b) && i < |Run(b, steps).postings|
    ensures var c, p := Run(b, steps), Run(b, steps).postings[i];
      Sum(c.journal, HistoryOf(p.postingID)) == if p.status.CashCommitted? && p.bankingTxID == 0 then 1.0 else 0.0
  {
    RunKeepsHistory(b, steps);
    OneRowOwes(Run(b, steps).postings, i);
  }

  lemma {:induction false} RunKeepsHistory(b: Books, steps: seq<Step>)
    requires Linked(b) && HistoryExact(b)
    ensures HistoryExact(Run(b, steps))
  {
    if steps != [] {
      RunKeepsHistory(b, steps[..|steps| - 1]);
      RunFrame(b, steps[..|steps| - 1]);
      StepKeepsHistory(Run(b, steps[..|steps| - 1]), steps[|steps| - 1]);
    }
  }
}
