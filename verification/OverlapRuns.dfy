/** Runs of overlapping database transactions: when they lose an update, and when they amount to a run of
    one transaction after the other. */
module OverlapRuns {
  import opened Prelude
  import opened Sequences
  import opened ExchangeRates
  import opened Books
  import opened BankRuns
  import opened Overlaps
  import opened SmallBooks
  import JournalLaws
  import BankPromises
  import Text
  import Trade = TradeSettlement
  import Otc = OtcFunds
  import Cash = InterbankCash
  import Pay = Payments

  // ----- a lost update -----

  /** The failing schedule: two reservations for one buyer, both computed from the same tables. The second
      commit overwrites what the first one held, and the books no longer balance. */
  lemma TwoReservationsLoseOne(opening: map<string, real>, b: Books, first: Step, second: Step)
    requires Reconciled(opening, b) && Linked(b) && first.Reserve? && second.Reserve?
    requires |Apply(b, first).reservations| == |Apply(b, second).reservations| == |b.reservations| + 1
    requires var r, q := Apply(b, first).reservations[|b.reservations|], Apply(b, second).reservations[|b.reservations|];
      r.buyer == q.buyer && r.executionID != q.executionID && r.sourceAmount != 0.0
    ensures !Reconciled(opening, WriteBack(b, second, Apply(b, first)))
  {
    var c := Apply(b, first);
    var r := c.reservations[|b.reservations|];
    Otc.ReserveShape(b, first.reserve, first.rates, first.down);
    Otc.ReserveShape(b, second.reserve, second.rates, second.down);
    StepKeepsBooks(opening, b, first);
    NewKeyIsFree(b, r, Apply(b, second).reservations[|b.reservations|].executionID);
    OverlapOnUnchangedRows(opening, b, second, c);
    assert r.buyer in Writes(b, second).accounts;
  }

  function Sixty(id: string): Step { Reserve(Otc.ReserveRequest(id, "B", "S", 60.0, RSD), None, {}) }

  function Held60(id: string): Reservation { Reservation(id, "B", "S", 60.0, RSD, 60.0, RSD, 60.0, RSD, Reserved) }

  /** Such a schedule: of 100 two reservations of 60 are made, and 40 are still available. */
  lemma OneHundredCoversTwiceSixty(opening: map<string, real>, b: Books)
    requires JustOpened(opening, b, 100.0)
    ensures Reconciled(opening, b) && Linked(b)
    ensures var d := WriteBack(b, Sixty("2"), Apply(b, Sixty("1")));
      && d.reservations == [Held60("1"), Held60("2")]
      && d.accounts == b.accounts["B" := Customer("B", 100.0).(available := 40.0)]
      && !Reconciled(opening, d)
  {
    JustOpenedBalances(opening, b, 100.0);
    SixtyIsReserved(opening, b, "1");
    SixtyIsReserved(opening, b, "2");
    SecondSixtyOverwrites(opening, b);
    ReservationWritesItsBuyer(b, Sixty("2"), Held60("2"), Apply(b, Sixty("1")));
    TwoReservationsLoseOne(opening, b, Sixty("1"), Sixty("2"));
  }

  lemma ReservationWritesItsBuyer(b: Books, s: Step, r: Reservation, c: Books)
    requires s.Reserve? && r.buyer in b.accounts && Apply(b, s) == Otc.WithReservation(b, r) && !Clash(b, Apply(b, s), c)
    ensures WriteBack(b, s, c) == Merge(b, Otc.WithReservation(b, r), NO_ROWS.(accounts := {r.buyer}), c)
  {
  }

  lemma SixtyIsReserved(opening: map<string, real>, b: Books, id: string)
    requires JustOpened(opening, b, 100.0) && (id == "1" || id == "2")
    ensures Apply(b, Sixty(id)) == Otc.WithReservation(b, Held60(id))
  {
    assert Text.Trim(id) == id && Text.Trim("B") == "B" && Text.Trim("S") == "S";
  }

  lemma SecondSixtyOverwrites(opening: map<string, real>, b: Books)
    requires JustOpened(opening, b, 100.0)
    ensures var first, second := Otc.WithReservation(b, Held60("1")), Otc.WithReservation(b, Held60("2"));
      && !Clash(b, second, first)
      && var d := Merge(b, second, NO_ROWS.(accounts := {"B"}), first);
      && d.reservations == [Held60("1"), Held60("2")]
      && d.accounts == b.accounts["B" := Customer("B", 100.0).(available := 40.0)]
  {
  }

  lemma NewKeyIsFree(b: Books, r: Reservation, id: string)
    requires IndexOf(b.reservations, Otc.HasID(id)).None? && r.executionID != id
    ensures IndexOf(b.reservations + [r], Otc.HasID(id)).None?
  {
    var all := b.reservations + [r];
    assert forall i :: 0 <= i < |all| ==> !Otc.HasID(id)(all[i]);
  }

  // ----- one transaction -----

  /** The accounts whose balances a transaction depends on. */
  function Reads(b: Books, s: Step): set<string> {
    Writes(b, s).accounts + if s.RecordPayment? then {s.payment.payer} else {}
  }

  /** Since the transaction read `b`, nobody has changed the balances it depends on or the rows it writes. */
  predicate Undisturbed(b: Books, s: Step, c: Books) {
    RowsUnchanged(b, Writes(b, s), c) && SameBalances(b, c, Reads(b, s))
  }

  lemma MergedAppend<T>(before: seq<T>, x: T, current: seq<T>)
    ensures Merged(before, before + [x], current, None) == current + [x]
  {
    assert (before + [x])[|before|..] == [x];
  }

  lemma MergedUpdate<T>(before: seq<T>, i: nat, x: T, current: seq<T>)
    requires i < |before| && i < |current|
    ensures Merged(before, before[i := x], current, Some(i)) == current[i := x]
  {
  }

  lemma MergedSame<T>(before: seq<T>, current: seq<T>, w: Option<nat>)
    requires RowUnchanged(before, current, w)
    ensures Merged(before, before, current, w) == current
  {
  }

  lemma OverwrittenNothing(after: map<string, Account>, current: map<string, Account>)
    ensures Overwritten(after, current, {}) == current
  {
  }

  /** Writing back the rows as they were read changes nothing. */
  lemma MergeSame(b: Books, w: Rows, c: Books)
    requires RowsUnchanged(b, w, c) && w.accounts == {}
    ensures Merge(b, b, w, c) == c
  {
    OverwrittenNothing(b.accounts, c.accounts);
    MergedSame(b.journal, c.journal, w.entry);
    MergedSame(b.reservations, c.reservations, w.reservation);
    MergedSame(b.postings, c.postings, w.posting);
  }

  /** `d` is what remains of a transaction or what it would have done by itself. */
  predicate Serial(c: Books, s: Step, d: Books) { d == c || d == Apply(c, s) }

  lemma RecordTradeIsSerial(b: Books, s: Step, c: Books)
    requires s.RecordTrade? && Evolves(b, c)
    ensures Serial(c, s, WriteBack(b, s, c))
  {
    var currencies := Trade.Currencies(b.accounts);
    JournalLaws.SameCurrencies(b, c);
    if Trade.Obstacle(currencies, s.req, s.rates, s.down).None? {
      MergedAppend(b.journal, Trade.Entry(currencies, s.req, s.rates, s.down), c.journal);
      OverwrittenNothing(b.accounts, c.accounts);
    } else {
      MergeSame(b, NO_ROWS, c);
    }
  }

  lemma SameTrade(b: Books, id: nat, down: set<RepoOp>, c: Books)
    requires Trade.ProcessTrade(b, id, down).Ok? && AccountsEvolve(b.accounts, c.accounts)
    requires id <= |c.journal| && c.journal[id - 1] == b.journal[id - 1]
    requires var t := b.journal[id - 1];
      c.accounts[t.payer] == b.accounts[t.payer] && c.accounts[t.recipient] == b.accounts[t.recipient]
    ensures var t := b.journal[id - 1];
      Trade.ProcessTrade(c, id, down) == Ok(c.(
        accounts := Overwritten(Trade.Processed(b, id, down).accounts, c.accounts, {t.payer, t.recipient}),
        journal := c.journal[id - 1 := t.(status := Completed)]))
  {
    var t, done := b.journal[id - 1], Trade.ProcessTrade(c, id, down);
    assert done.Ok?;
    assert done.value.accounts == Overwritten(Trade.Processed(b, id, down).accounts, c.accounts, {t.payer, t.recipient});
  }

  lemma ProcessTradeIsSerial(b: Books, s: Step, c: Books)
    requires s.ProcessTrade? && Evolves(b, c) && Undisturbed(b, s, c)
    ensures Serial(c, s, WriteBack(b, s, c))
  {
    var after := Apply(b, s);
    if Trade.ProcessTrade(b, s.id, s.down).Ok? {
      var t := b.journal[s.id - 1];
      MergedUpdate(b.journal, s.id - 1, t.(status := Completed), c.journal);
      assert c.accounts[t.payer] == b.accounts[t.payer] && c.accounts[t.recipient] == b.accounts[t.recipient];
      SameTrade(b, s.id, s.down, c);
    } else {
      MergeSame(b, NO_ROWS, c);
    }
  }

  /** Accounts that were not disturbed are the same rows. */
  lemma SameRows(b: Books, c: Books, ns: set<string>)
    requires Evolves(b, c) && SameBalances(b, c, ns)
    ensures forall n :: n in ns && n in b.accounts ==> n in c.accounts && c.accounts[n] == b.accounts[n]
  {
  }

  lemma ReserveIsSerial(b: Books, s: Step, c: Books)
    requires s.Reserve? && Evolves(b, c) && Undisturbed(b, s, c)
    ensures Serial(c, s, WriteBack(b, s, c))
  {
    Otc.ReserveShape(b, s.reserve, s.rates, s.down);
    var after := Apply(b, s);
    if after == b {
      MergeSame(b, NO_ROWS, c);
    } else if !Clash(b, after, c) {
      var r := after.reservations[|b.reservations|];
      SameRows(b, c, {r.buyer});
      SameReservation(b, s.reserve, s.rates, s.down, c);
      MergeReservation(b, r, c);
    }
  }

  lemma SameReservation(b: Books, request: Otc.ReserveRequest, rates: RatesRead, down: set<RepoOp>, c: Books)
    requires AccountsEvolve(b.accounts, c.accounts) && Otc.Reserve(b, request, rates, down).0 != b
    requires var r := Otc.Reserve(b, request, rates, down).1;
      r.Ok? && r.value.buyer in b.accounts && c.accounts[r.value.buyer] == b.accounts[r.value.buyer] &&
      IndexOf(c.reservations, Otc.HasID(r.value.executionID)).None?
    ensures Otc.Reserve(c, request, rates, down) ==
      (var r := Otc.Reserve(b, request, rates, down).1; (Otc.WithReservation(c, r.value), r))
  {
    SameNewReservation(b.accounts, Otc.Trimmed(request), rates, down, c.accounts);
  }

  lemma SameNewReservation(accounts: map<string, Account>, req: Otc.ReserveRequest, rates: RatesRead, down: set<RepoOp>,
                           others: map<string, Account>)
    requires AccountsEvolve(accounts, others) && Otc.NewReservation(accounts, req, rates, down).Ok?
    requires req.buyer in accounts && others[req.buyer] == accounts[req.buyer]
    ensures Otc.NewReservation(others, req, rates, down) == Otc.NewReservation(accounts, req, rates, down)
  {
  }

  lemma MergeReservation(b: Books, r: Reservation, c: Books)
    requires r.buyer in b.accounts && AccountsEvolve(b.accounts, c.accounts) && c.accounts[r.buyer] == b.accounts[r.buyer]
    ensures Merge(b, Otc.WithReservation(b, r), NO_ROWS.(accounts := {r.buyer}), c) == Otc.WithReservation(c, r)
  {
    MergedAppend(b.reservations, r, c.reservations);
    assert Overwritten(Otc.WithReservation(b, r).accounts, c.accounts, {r.buyer}) == Otc.WithReservation(c, r).accounts;
  }

  function Parties(action: Otc.Action, r: Reservation): set<string> {
    if action.Release? then {r.buyer} else {r.buyer, r.seller}
  }

  lemma PartiesMove(action: Otc.Action, accounts: map<string, Account>, r: Reservation, down: set<RepoOp>)
    requires Otc.Settle(action, accounts, r, down).Ok?
    ensures OnlyAccounts(accounts, Otc.Settle(action, accounts, r, down).value, Parties(action, r))
  {
  }

  lemma SameMoves(action: Otc.Action, accounts: map<string, Account>, r: Reservation, down: set<RepoOp>,
                  others: map<string, Account>)
    requires accounts.Keys == others.Keys && Otc.Settle(action, accounts, r, down).Ok?
    requires forall n :: n in Parties(action, r) && n in accounts ==> others[n] == accounts[n]
    ensures var s, t := Otc.Settle(action, accounts, r, down), Otc.Settle(action, others, r, down);
      t.Ok? && forall n :: n in Parties(action, r) ==> n in s.value && n in t.value && t.value[n] == s.value[n]
  {
  }

  lemma SameSettling(action: Otc.Action, accounts: map<string, Account>, r: Reservation, down: set<RepoOp>,
                     others: map<string, Account>)
    requires AccountsEvolve(accounts, others) && Otc.Settle(action, accounts, r, down).Ok?
    requires forall n :: n in Parties(action, r) && n in accounts ==> others[n] == accounts[n]
    ensures Otc.Settle(action, others, r, down) ==
            Ok(Overwritten(Otc.Settle(action, accounts, r, down).value, others, Parties(action, r)))
  {
    PartiesMove(action, accounts, r, down);
    SameMoves(action, accounts, r, down, others);
    PartiesMove(action, others, r, down);
    OnlyBalancesMove(action, accounts, r, down);
    var settled := Otc.Settle(action, others, r, down).value;
    assert settled == Overwritten(Otc.Settle(action, accounts, r, down).value, others, Parties(action, r));
  }

  lemma OnlyBalancesMove(action: Otc.Action, accounts: map<string, Account>, r: Reservation, down: set<RepoOp>)
    requires Otc.Settle(action, accounts, r, down).Ok?
    ensures AccountsEvolve(accounts, Otc.Settle(action, accounts, r, down).value)
  {
  }

  lemma ActIsSerial(b: Books, s: Step, c: Books)
    requires s.Act? && Evolves(b, c) && Undisturbed(b, s, c)
    ensures Serial(c, s, WriteBack(b, s, c))
  {
    Otc.ActShape(b, s.action, s.executionID, s.down);
    var id, after := Text.Trim(s.executionID), Apply(b, s);
    if after == b {
      MergeSame(b, Writes(b, s), c);
    } else {
      var i := IndexOf(b.reservations, Otc.HasID(id)).value;
      BankPromises.HandlesAreStable(b, c, id);
      ActedIsSerial(b, s.action, s.executionID, i, s.down, c);
    }
  }

  lemma ActedIsSerial(b: Books, action: Otc.Action, executionID: string, i: nat, down: set<RepoOp>, c: Books)
    requires AccountsEvolve(b.accounts, c.accounts) && Otc.Act(b, action, executionID, down).0 != b
    requires var id := Text.Trim(executionID);
      IndexOf(b.reservations, Otc.HasID(id)) == Some(i) && IndexOf(c.reservations, Otc.HasID(id)) == Some(i)
    requires c.reservations[i] == b.reservations[i] && SameBalances(b, c, Parties(action, b.reservations[i]))
    ensures var after := Otc.Act(b, action, executionID, down).0;
      Merge(b, after, Rows(Parties(action, b.reservations[i]), None, Some(i), None), c) ==
      Otc.Act(c, action, executionID, down).0
  {
    var r := b.reservations[i];
    SameSettling(action, b.accounts, r, down, c.accounts);
    MergedUpdate(b.reservations, i, r.(status := Otc.Target(action)), c.reservations);
    MergedSame(b.journal, c.journal, None);
    MergedSame(b.postings, c.postings, None);
  }

  // ----- postings -----

  /** The same accounts in the same order, up to their balances. */
  ghost predicate SameUpToBalances(s: seq<Account>, t: seq<Account>) {
    |s| == |t| && forall i :: 0 <= i < |s| ==> t[i] == s[i].(balance := t[i].balance, available := t[i].available)
  }

  lemma {:induction false} SameClientRows(accounts: map<string, Account>, others: map<string, Account>, clientID: nat, rows: seq<string>)
    requires AccountsEvolve(accounts, others)
    ensures SameUpToBalances(Cash.ClientRows(accounts, clientID, rows), Cash.ClientRows(others, clientID, rows))
  {
    if rows != [] {
      SameClientRows(accounts, others, clientID, rows[1..]);
    }
  }

  lemma SameIndex(s: seq<Account>, t: seq<Account>, p: Account -> bool)
    requires |s| == |t| && forall i :: 0 <= i < |s| ==> p(s[i]) == p(t[i])
    ensures IndexOf(s, p) == IndexOf(t, p)
  {
    assert forall i :: 0 <= i < |s| ==> p(s[i]) == p(t[i]);
  }

  lemma SamePreferred(s: seq<Account>, t: seq<Account>, currency: string)
    requires SameUpToBalances(s, t)
    ensures var r, q := Cash.Preferred(s, currency), Cash.Preferred(t, currency);
      r.Some? == q.Some? && (r.Some? ==> q.value == r.value.(balance := q.value.balance, available := q.value.available))
  {
    SameIndex(s, t, Cash.ActiveIn(currency));
    SameIndex(s, t, Cash.ActiveIn(RSD));
    SameIndex(s, t, Cash.Active());
  }

  /** The same account is resolved, whatever the balances are. */
  lemma SameResolved(accounts: map<string, Account>, req: Cash.PrepareRequest, down: set<RepoOp>, others: map<string, Account>)
    requires AccountsEvolve(accounts, others)
    ensures var r, q := Cash.ResolveAccount(accounts, req, down), Cash.ResolveAccount(others, req, down);
      if r.Fail? then q == r
      else q.Ok? && q.value == r.value.(balance := q.value.balance, available := q.value.available)
  {
    var s, t := Cash.ClientRows(accounts, req.clientID, req.rows), Cash.ClientRows(others, req.clientID, req.rows);
    SameClientRows(accounts, others, req.clientID, req.rows);
    SamePreferred(s, t, req.currency);
  }

  lemma SameNewPosting(b: Books, req: Cash.PrepareRequest, rates: RatesRead, down: set<RepoOp>, c: Books)
    requires AccountsEvolve(b.accounts, c.accounts) && Cash.PrepareNew(b, req, rates, down).Ok?
    requires var p := Cash.PrepareNew(b, req, rates, down).value.1;
      p.account in b.accounts && (p.amount < 0.0 ==> c.accounts[p.account] == b.accounts[p.account])
    ensures var (_, p) := Cash.PrepareNew(b, req, rates, down).value;
      Cash.PrepareNew(c, req, rates, down) == Ok((Cash.Holding(c.accounts, p), p))
  {
    SameResolved(b.accounts, req, down, c.accounts);
  }

  lemma MergeHolding(accounts: map<string, Account>, p: Posting, others: map<string, Account>)
    requires p.account in accounts && AccountsEvolve(accounts, others)
    requires p.amount < 0.0 ==> others[p.account] == accounts[p.account]
    ensures Overwritten(Cash.Holding(accounts, p), others, HeldOn(p)) == Cash.Holding(others, p)
  {
    if p.amount >= 0.0 {
      OverwrittenNothing(accounts, others);
    }
  }

  lemma NewPostingIsSerial(b: Books, request: Cash.PrepareRequest, rates: RatesRead, down: set<RepoOp>, c: Books)
    requires Linked(b) && Evolves(b, c)
    requires var (after, id) := (Cash.Prepare(b, request, rates, down).0, Text.Trim(request.postingID));
      && after != b && IndexOf(b.postings, Cash.HasID(id)).None? && IndexOf(c.postings, Cash.HasID(id)).None?
      && SameBalances(b, c, PrepareWrites(b, id, after).accounts)
    ensures var after := Cash.Prepare(b, request, rates, down).0;
      Merge(b, after, PrepareWrites(b, Text.Trim(request.postingID), after), c) == Cash.Prepare(c, request, rates, down).0
  {
    var req, after := Cash.Trimmed(request), Cash.Prepare(b, request, rates, down).0;
    Cash.PrepareShape(b, req, rates, down);
    var p := after.postings[|b.postings|];
    SameRows(b, c, HeldOn(p));
    SameNewPosting(b, req, rates, down, c);
    MergeHolding(b.accounts, p, c.accounts);
    MergedAppend(b.postings, p, c.postings);
    MergedSame(b.journal, c.journal, None);
    MergedSame(b.reservations, c.reservations, None);
  }

  lemma HeldAgain(b: Books, req: Cash.PrepareRequest, i: nat, rates: RatesRead, down: set<RepoOp>, c: Books)
    requires Cash.PrepareOn(b, req, rates, down).0 != b && AccountsEvolve(b.accounts, c.accounts)
    requires IndexOf(b.postings, Cash.HasID(req.postingID)) == Some(i) && IndexOf(c.postings, Cash.HasID(req.postingID)) == Some(i)
    requires c.postings[i] == b.postings[i]
    requires var p := b.postings[i];
      p.account in b.accounts && (p.amount < 0.0 ==> c.accounts[p.account] == b.accounts[p.account])
    ensures var p := b.postings[i].(status := Prepared);
      Cash.PrepareOn(c, req, rates, down).0 ==
      c.(accounts := Cash.Holding(c.accounts, p), postings := c.postings[i := p])
  {
  }

  lemma HeldAgainIsSerial(b: Books, request: Cash.PrepareRequest, rates: RatesRead, down: set<RepoOp>, c: Books)
    requires Linked(b) && Evolves(b, c)
    requires var (after, id) := (Cash.Prepare(b, request, rates, down).0, Text.Trim(request.postingID));
      && after != b && IndexOf(b.postings, Cash.HasID(id)).Some?
      && RowsUnchanged(b, PrepareWrites(b, id, after), c) && SameBalances(b, c, PrepareWrites(b, id, after).accounts)
    ensures var after := Cash.Prepare(b, request, rates, down).0;
      Merge(b, after, PrepareWrites(b, Text.Trim(request.postingID), after), c) == Cash.Prepare(c, request, rates, down).0
  {
    var req, after := Cash.Trimmed(request), Cash.Prepare(b, request, rates, down).0;
    var i := IndexOf(b.postings, Cash.HasID(req.postingID)).value;
    var p := b.postings[i];
    Cash.PrepareShape(b, req, rates, down);
    BankPromises.HandlesAreStable(b, c, req.postingID);
    SameRows(b, c, HeldOn(p));
    HeldAgain(b, req, i, rates, down, c);
    MergeHolding(b.accounts, p.(status := Prepared), c.accounts);
    MergedUpdate(b.postings, i, p.(status := Prepared), c.postings);
    MergedSame(b.journal, c.journal, None);
    MergedSame(b.reservations, c.reservations, None);
  }

  lemma PrepareIsSerial(b: Books, s: Step, c: Books)
    requires s.Prepare? && Linked(b) && Evolves(b, c) && Undisturbed(b, s, c)
    ensures Serial(c, s, WriteBack(b, s, c))
  {
    var after, id := Apply(b, s), Text.Trim(s.prepare.postingID);
    Cash.PrepareShape(b, Cash.Trimmed(s.prepare), s.rates, s.down);
    if after == b {
      MergeSame(b, NO_ROWS, c);
    } else if IndexOf(b.postings, Cash.HasID(id)).Some? {
      HeldAgainIsSerial(b, s.prepare, s.rates, s.down, c);
    } else if !Clash(b, after, c) {
      NewPostingIsSerial(b, s.prepare, s.rates, s.down, c);
    }
  }

  lemma DecidedIsSerial(b: Books, verdict: Cash.Verdict, id: string, i: nat, down: set<RepoOp>, c: Books)
    requires Evolves(b, c) && Cash.DecideOn(b, verdict, id, down).0 != b
    requires IndexOf(b.postings, Cash.HasID(id)) == Some(i) && IndexOf(c.postings, Cash.HasID(id)) == Some(i)
    requires c.postings[i] == b.postings[i] && SameBalances(b, c, DecideWrites(b, verdict, id, true).accounts)
    ensures var after := Cash.DecideOn(b, verdict, id, down).0;
      Merge(b, after, DecideWrites(b, verdict, id, true), c) == Cash.DecideOn(c, verdict, id, down).0
  {
    var p, after := b.postings[i], Cash.DecideOn(b, verdict, id, down).0;
    var w := DecideWrites(b, verdict, id, true);
    Cash.DecideShape(b, verdict, id, down);
    SameRows(b, c, w.accounts);
    SameDecision(b, verdict, id, i, down, c);
    MergeDeciding(b.accounts, verdict, p, c.accounts);
    MergedUpdate(b.postings, i, p.(status := Cash.Decided(verdict)), c.postings);
    if verdict.Commit? && p.bankingTxID == 0 {
      MergedAppend(b.journal, Cash.HistoryEntry(p), c.journal);
    } else {
      MergedSame(b.journal, c.journal, None);
    }
    MergedSame(b.reservations, c.reservations, None);
  }

  lemma SameDecision(b: Books, verdict: Cash.Verdict, id: string, i: nat, down: set<RepoOp>, c: Books)
    requires Evolves(b, c) && Cash.DecideOn(b, verdict, id, down).0 != b
    requires IndexOf(b.postings, Cash.HasID(id)) == Some(i) && IndexOf(c.postings, Cash.HasID(id)) == Some(i)
    requires c.postings[i] == b.postings[i]
    requires var p := b.postings[i];
      p.account in b.accounts && (verdict.Commit? || p.amount < 0.0 ==> c.accounts[p.account] == b.accounts[p.account])
    ensures var p, d := b.postings[i], Cash.DecideOn(c, verdict, id, down).0;
      && d.accounts == Cash.Deciding(c.accounts, verdict, p)
      && d.journal == (if verdict.Commit? && p.bankingTxID == 0 then c.journal + [Cash.HistoryEntry(p)] else c.journal)
      && d.reservations == c.reservations && d.postings == c.postings[i := p.(status := Cash.Decided(verdict))]
  {
  }

  lemma MergeDeciding(accounts: map<string, Account>, verdict: Cash.Verdict, p: Posting, others: map<string, Account>)
    requires p.account in accounts && AccountsEvolve(accounts, others)
    requires verdict.Commit? || p.amount < 0.0 ==> others[p.account] == accounts[p.account]
    ensures Overwritten(Cash.Deciding(accounts, verdict, p), others, if verdict.Commit? then {p.account} else HeldOn(p)) ==
            Cash.Deciding(others, verdict, p)
  {
    if verdict.Rollback? && p.amount >= 0.0 {
      OverwrittenNothing(accounts, others);
    }
  }

  lemma DecideIsSerial(b: Books, s: Step, c: Books)
    requires s.Decide? && Evolves(b, c) && Undisturbed(b, s, c)
    ensures Serial(c, s, WriteBack(b, s, c))
  {
    if Apply(b, s) == b {
      RepeatedDecisionMerges(b, s.verdict, s.postingID, s.down, c);
    } else {
      NewDecisionMerges(b, s.verdict, s.postingID, s.down, c);
    }
  }

  lemma RepeatedDecisionMerges(b: Books, verdict: Cash.Verdict, postingID: string, down: set<RepoOp>, c: Books)
    requires Cash.Decide(b, verdict, postingID, down).0 == b
    requires var w := DecideWrites(b, verdict, Text.Trim(postingID), Cash.Decide(b, verdict, postingID, down).1.Ok?);
      RowsUnchanged(b, w, c)
    ensures var w := DecideWrites(b, verdict, Text.Trim(postingID), Cash.Decide(b, verdict, postingID, down).1.Ok?);
      Merge(b, b, w, c) == c
  {
    MergeSame(b, DecideWrites(b, verdict, Text.Trim(postingID), Cash.Decide(b, verdict, postingID, down).1.Ok?), c);
  }

  lemma NewDecisionMerges(b: Books, verdict: Cash.Verdict, postingID: string, down: set<RepoOp>, c: Books)
    requires Evolves(b, c) && Cash.Decide(b, verdict, postingID, down).0 != b
    requires var w := DecideWrites(b, verdict, Text.Trim(postingID), true);
      RowsUnchanged(b, w, c) && SameBalances(b, c, w.accounts)
    ensures var (after, result) := Cash.Decide(b, verdict, postingID, down);
      && result.Ok? && |after.reservations| == |b.reservations| && |after.postings| == |b.postings|
      && Merge(b, after, DecideWrites(b, verdict, Text.Trim(postingID), true), c) == Cash.Decide(c, verdict, postingID, down).0
  {
    var id := Text.Trim(postingID);
    NewDecision(b, verdict, id, down);
    BankPromises.HandlesAreStable(b, c, id);
    DecidedIsSerial(b, verdict, id, IndexOf(b.postings, Cash.HasID(id)).value, down, c);
  }

  lemma NewDecision(b: Books, verdict: Cash.Verdict, id: string, down: set<RepoOp>)
    requires Cash.DecideOn(b, verdict, id, down).0 != b
    ensures var (after, result) := Cash.DecideOn(b, verdict, id, down);
      && result.Ok? && IndexOf(b.postings, Cash.HasID(id)).Some?
      && |after.reservations| == |b.reservations| && |after.postings| == |b.postings|
  {
    Cash.DecideShape(b, verdict, id, down);
  }

  // ----- payments -----

  lemma SameNewPayment(accounts: map<string, Account>, req: Pay.PaymentRequest, sameClient: bool, rates: RatesRead,
                       down: set<RepoOp>, others: map<string, Account>)
    requires AccountsEvolve(accounts, others) && (req.payer in accounts ==> others[req.payer] == accounts[req.payer])
    ensures Pay.NewPayment(others, req, sameClient, rates, down) == Pay.NewPayment(accounts, req, sameClient, rates, down)
  {
  }

  lemma RecordPaymentIsSerial(b: Books, s: Step, c: Books)
    requires s.RecordPayment? && Evolves(b, c) && Undisturbed(b, s, c)
    ensures Serial(c, s, WriteBack(b, s, c))
  {
    var made := Pay.NewPayment(b.accounts, s.payment, s.sameClient, s.rates, s.down);
    SameRows(b, c, {s.payment.payer});
    SameNewPayment(b.accounts, s.payment, s.sameClient, s.rates, s.down, c.accounts);
    if made.Ok? {
      MergedAppend(b.journal, made.value, c.journal);
      OverwrittenNothing(b.accounts, c.accounts);
    } else {
      MergeSame(b, NO_ROWS, c);
    }
  }

  lemma SameObstacle(accounts: map<string, Account>, t: Transaction, down: set<RepoOp>, others: map<string, Account>)
    requires AccountsEvolve(accounts, others) && !IsForeign(t.recipient) && Pay.PaymentObstacle(accounts, t, down).None?
    requires forall n :: n in MovedBy(t) && n in accounts ==> others[n] == accounts[n]
    ensures Pay.PaymentObstacle(others, t, down).None?
  {
  }

  lemma MergePaid(accounts: map<string, Account>, t: Transaction, others: map<string, Account>)
    requires AccountsEvolve(accounts, others) && !IsForeign(t.recipient)
    requires forall n :: n in MovedBy(t) && n in accounts ==> others[n] == accounts[n]
    ensures Overwritten(Pay.Paid(accounts, t), others, MovedBy(t)) == Pay.Paid(others, t)
  {
    forall n | n in others
      ensures Overwritten(Pay.Paid(accounts, t), others, MovedBy(t))[n] == Pay.Paid(others, t)[n]
    {
      if n !in MovedBy(t) {
        OthersStay(t, n);
      }
    }
  }

  lemma OthersStay(t: Transaction, n: string)
    requires !IsForeign(t.recipient) && n !in MovedBy(t)
    ensures PaymentLeg(t, n) == 0.0
  {
  }

  lemma PaidIsSerial(b: Books, id: nat, reply: Pay.Reply, down: set<RepoOp>, c: Books)
    requires Evolves(b, c) && Pay.Process(b, id, reply, down).0 != b && 1 <= id <= |b.journal|
    requires c.journal[id - 1] == b.journal[id - 1] && SameBalances(b, c, MovedBy(b.journal[id - 1]))
    ensures var after := Pay.Process(b, id, reply, down).0;
      Merge(b, after, Rows(MovedBy(b.journal[id - 1]), Some(id - 1), None, None), c) == Pay.Process(c, id, reply, down).0
  {
    var t, after := b.journal[id - 1], Pay.Process(b, id, reply, down).0;
    SameRows(b, c, MovedBy(t));
    Pay.ProcessShape(b, id, reply, down);
    MergedUpdate(b.journal, id - 1, after.journal[id - 1], c.journal);
    MergedSame(b.reservations, c.reservations, None);
    MergedSame(b.postings, c.postings, None);
    if IsForeign(t.recipient) {
      OverwrittenNothing(b.accounts, c.accounts);
    } else {
      SameObstacle(b.accounts, t, down, c.accounts);
      MergePaid(b.accounts, t, c.accounts);
    }
  }

  lemma ProcessPaymentIsSerial(b: Books, s: Step, c: Books)
    requires s.ProcessPayment? && Evolves(b, c) && Undisturbed(b, s, c)
    ensures Serial(c, s, WriteBack(b, s, c))
  {
    Pay.ProcessShape(b, s.id, s.reply, s.down);
    if Apply(b, s) == b {
      MergeSame(b, NO_ROWS, c);
    } else {
      PaidIsSerial(b, s.id, s.reply, s.down, c);
    }
  }

  lemma FinalizeIsSerial(b: Books, s: Step, c: Books)
    requires s.FinalizePayment? && Evolves(b, c) && Undisturbed(b, s, c)
    ensures Serial(c, s, WriteBack(b, s, c))
  {
    Pay.FinalizeShape(b, s.id, s.success, s.down);
    if Apply(b, s) == b {
      MergeSame(b, NO_ROWS, c);
    } else {
      MergedUpdate(b.journal, s.id - 1, Apply(b, s).journal[s.id - 1], c.journal);
      MergedSame(b.reservations, c.reservations, None);
      MergedSame(b.postings, c.postings, None);
      OverwrittenNothing(b.accounts, c.accounts);
    }
  }

  /** A transaction that nobody disturbed either fails or does what it would have done by itself at the time
      it commits. */
  lemma UndisturbedIsSerial(b: Books, s: Step, c: Books)
    requires Linked(b) && Evolves(b, c) && Undisturbed(b, s, c)
    ensures Serial(c, s, WriteBack(b, s, c))
  {
    match s
    case RecordTrade(_, _, _) => RecordTradeIsSerial(b, s, c);
    case ProcessTrade(_, _) => ProcessTradeIsSerial(b, s, c);
    case Reserve(_, _, _) => ReserveIsSerial(b, s, c);
    case Act(_, _, _) => ActIsSerial(b, s, c);
    case Prepare(_, _, _) => PrepareIsSerial(b, s, c);
    case Decide(_, _, _) => DecideIsSerial(b, s, c);
    case RecordPayment(_, _, _, _) => RecordPaymentIsSerial(b, s, c);
    case ProcessPayment(_, _, _) => ProcessPaymentIsSerial(b, s, c);
    case FinalizePayment(_, _, _) => FinalizeIsSerial(b, s, c);
  }

  // ----- schedules -----

  /** A transaction that commits in its turn, computed from the tables as they were after `readAt` commits. */
  datatype Overlapping = Overlapping(step: Step, readAt: nat)

  function ReadFrom(txs: seq<Overlapping>): seq<Overlapping>
    requires txs != []
  {
    var last := |txs| - 1;
    if txs[last].readAt <= last then txs[..txs[last].readAt] else txs[..last]
  }

  function Schedule(b: Books, txs: seq<Overlapping>): Books
    decreases |txs|
  {
    if txs == [] then b
    else WriteBack(Schedule(b, ReadFrom(txs)), txs[|txs| - 1].step, Schedule(b, txs[..|txs| - 1]))
  }

  /** Nobody disturbs any transaction between its reading and its commit, and each gets an id that was handed
      out for it. */
  predicate NobodyDisturbed(b: Books, txs: seq<Overlapping>)
    decreases |txs|
  {
    txs == [] ||
    var init, read, s := txs[..|txs| - 1], Schedule(b, ReadFrom(txs)), txs[|txs| - 1].step;
    NobodyDisturbed(b, init) && Routed(read, s) && Undisturbed(read, s, Schedule(b, init))
  }

  /** In a schedule that nobody disturbs rows evolve from any commit to any later one. */
  lemma {:induction false} ScheduleFrame(b: Books, txs: seq<Overlapping>, r: nat)
    requires Linked(b) && NobodyDisturbed(b, txs) && r <= |txs|
    ensures Linked(Schedule(b, txs)) && Linked(Schedule(b, txs[..r]))
    ensures Evolves(Schedule(b, txs[..r]), Schedule(b, txs))
    decreases |txs|
  {
    if r == |txs| {
      assert txs[..r] == txs;
      if txs != [] {
        var d := LastCommit(b, txs);
      }
    } else {
      var init := txs[..|txs| - 1];
      assert init[..r] == txs[..r];
      ScheduleFrame(b, init, r);
      var d := LastCommit(b, txs);
      EvolvesTransitive(Schedule(b, init[..r]), Schedule(b, init), d);
    }
  }

  /** The last commit of such a schedule fails or is that transaction by itself. */
  lemma {:induction false} LastCommit(b: Books, txs: seq<Overlapping>) returns (d: Books)
    requires Linked(b) && NobodyDisturbed(b, txs) && txs != []
    ensures d == Schedule(b, txs) && Linked(d)
    ensures var c, read, s := Schedule(b, txs[..|txs| - 1]), Schedule(b, ReadFrom(txs)), txs[|txs| - 1].step;
      Linked(c) && Evolves(c, d) && Serial(c, s, d) && Linked(read) && Evolves(read, c)
    decreases |txs|, 0
  {
    var init, s, early := txs[..|txs| - 1], txs[|txs| - 1].step, ReadFrom(txs);
    assert early == init[..|early|];
    ScheduleFrame(b, init, |early|);
    var read, c := Schedule(b, early), Schedule(b, init);
    CommitFrame(read, s, c);
    d := WriteBack(read, s, c);
  }

  lemma CommitFrame(b: Books, s: Step, c: Books)
    requires Linked(b) && Linked(c) && Evolves(b, c) && Undisturbed(b, s, c)
    ensures var d := WriteBack(b, s, c); Linked(d) && Evolves(c, d) && Serial(c, s, d)
  {
    UndisturbedIsSerial(b, s, c);
    StepFrame(c, s);
  }

  /** An id that was handed out for a step still is later, and one that named no entry did nothing. */
  lemma StillRouted(b: Books, s: Step, c: Books)
    requires Routed(b, s) && Evolves(b, c) && WriteBack(b, s, c) != c
    ensures Routed(c, s)
  {
    if !Routed(c, s) {
      MergeSame(b, NO_ROWS, c);
    }
  }

  lemma RunOneMore(b: Books, steps: seq<Step>, s: Step)
    ensures Run(b, steps + [s]) == Apply(Run(b, steps), s)
    ensures AlwaysRouted(b, steps + [s]) <==> AlwaysRouted(b, steps) && Routed(Run(b, steps), s)
  {
    assert (steps + [s])[..|steps|] == steps;
  }

  /** `steps` are the steps of the schedule, in order, some of them left out. */
  predicate Thinned(steps: seq<Step>, txs: seq<Overlapping>)
    decreases |txs|
  {
    if txs == [] then steps == []
    else
      var init, s := txs[..|txs| - 1], txs[|txs| - 1].step;
      Thinned(steps, init) || (steps != [] && steps[|steps| - 1] == s && Thinned(steps[..|steps| - 1], init))
  }

  /** Overlapping transactions of which nobody disturbs another have the effect of some of them run one after
      the other: those that did not fail, in the order in which they committed. */
  lemma {:induction false} UndisturbedScheduleIsSerial(b: Books, txs: seq<Overlapping>) returns (steps: seq<Step>)
    requires Linked(b) && NobodyDisturbed(b, txs)
    ensures Schedule(b, txs) == Run(b, steps) && AlwaysRouted(b, steps)
    ensures Thinned(steps, txs)
  {
    steps := [];
    if txs != [] {
      var init, s := txs[..|txs| - 1], txs[|txs| - 1].step;
      var earlier := UndisturbedScheduleIsSerial(b, init);
      var d := LastCommit(b, txs);
      if d == Schedule(b, init) {
        steps := earlier;
      } else {
        StillRouted(Schedule(b, ReadFrom(txs)), s, Schedule(b, init));
        steps := earlier + [s];
        RunOneMore(b, earlier, s);
        assert steps[..|steps| - 1] == earlier;
      }
    }
  }

  /** So reconciliation carries over to overlapping transactions. */
  lemma UndisturbedSchedulesBalance(opening: map<string, real>, b: Books, txs: seq<Overlapping>)
    requires Reconciled(opening, b) && Linked(b) && NobodyDisturbed(b, txs)
    ensures Reconciled(opening, Schedule(b, txs)) && Linked(Schedule(b, txs)) && Evolves(b, Schedule(b, txs))
  {
    var steps := UndisturbedScheduleIsSerial(b, txs);
    BooksAlwaysBalance(opening, b, steps);
  }

  lemma {:induction false} ThinnedIsProper(steps: seq<Step>, txs: seq<Overlapping>)
    requires Thinned(steps, txs) && forall tx :: tx in txs ==> BankPromises.Proper(tx.step)
    ensures forall s :: s in steps ==> BankPromises.Proper(s)
    decreases |txs|
  {
    if txs != [] {
      var init := txs[..|txs| - 1];
      if Thinned(steps, init) {
        ThinnedIsProper(steps, init);
      } else {
        ThinnedIsProper(steps[..|steps| - 1], init);
        assert steps == steps[..|steps| - 1] + [steps[|steps| - 1]];
      }
    }
  }

  /** And so does everything that is promised of the states which runs reach: nobody is overdrawn, prepared
      postings can be decided, and reserved funds can be settled. */
  lemma UndisturbedSchedulesStaySound(opening: map<string, real>, b: Books, txs: seq<Overlapping>)
    requires BankPromises.Sound(opening, b) && NobodyDisturbed(b, txs)
    requires forall tx :: tx in txs ==> BankPromises.Proper(tx.step)
    ensures BankPromises.Sound(opening, Schedule(b, txs))
  {
    var steps := UndisturbedScheduleIsSerial(b, txs);
    ThinnedIsProper(steps, txs);
    BankPromises.NobodyIsOverdrawn(opening, b, steps);
  }
}
