/** Database transactions that overlap: each computes its rows from what it read, and writes them back over
    whatever is there by then. */
module Overlaps {
  import opened Prelude
  import opened Sequences
  import opened ExchangeRates
  import opened Books
  import opened BankRuns
  import Text
  import Trade = TradeSettlement
  import Otc = OtcFunds
  import Cash = InterbankCash
  import Pay = Payments

  /** The rows that a transaction writes back, besides the one it may append to a table. */
  datatype Rows = Rows(accounts: set<string>, entry: Option<nat>, reservation: Option<nat>, posting: Option<nat>)

  const NO_ROWS := Rows({}, None, None, None)

  function Writes(b: Books, s: Step): Rows {
    match s
    case RecordTrade(_, _, _) => NO_ROWS
    case ProcessTrade(id, down) => TradeWrites(b, id, down)
    case Reserve(req, rates, down) => ReserveWrites(b, Apply(b, s))
    case Act(action, id, down) => ActWrites(b, action, Text.Trim(id), Otc.Act(b, action, id, down).1.Ok?)
    case Prepare(req, rates, down) => PrepareWrites(b, Text.Trim(req.postingID), Apply(b, s))
    case Decide(verdict, id, down) => DecideWrites(b, verdict, Text.Trim(id), Cash.Decide(b, verdict, id, down).1.Ok?)
    case RecordPayment(_, _, _, _) => NO_ROWS
    case ProcessPayment(id, _, _) => PaymentWrites(b, id, Apply(b, s))
    case FinalizePayment(id, _, _) => if Apply(b, s) != b then NO_ROWS.(entry := Some(id - 1)) else NO_ROWS
  }

  function TradeWrites(b: Books, id: nat, down: set<RepoOp>): Rows {
    if Trade.ProcessTrade(b, id, down).Ok?
    then Rows({b.journal[id - 1].payer, b.journal[id - 1].recipient}, Some(id - 1), None, None)
    else NO_ROWS
  }

  function ReserveWrites(b: Books, after: Books): Rows {
    if |after.reservations| == |b.reservations| + 1
    then NO_ROWS.(accounts := {after.reservations[|b.reservations|].buyer})
    else NO_ROWS
  }

  /** A repeated action writes its row back, too. */
  function ActWrites(b: Books, action: Otc.Action, id: string, ok: bool): Rows {
    match IndexOf(b.reservations, Otc.HasID(id))
    case None => NO_ROWS
    case Some(i) =>
      var r := b.reservations[i];
      if !ok then NO_ROWS
      else if r.status != Otc.Origin(action) then NO_ROWS.(reservation := Some(i))
      else Rows(if action.Release? then {r.buyer} else {r.buyer, r.seller}, None, Some(i), None)
  }

  function PrepareWrites(b: Books, id: string, after: Books): Rows {
    if after == b then NO_ROWS
    else
      match IndexOf(b.postings, Cash.HasID(id))
      case None =>
        if |after.postings| == |b.postings| + 1 then NO_ROWS.(accounts := HeldOn(after.postings[|b.postings|])) else NO_ROWS
      case Some(i) => Rows(HeldOn(b.postings[i]), None, None, Some(i))
  }

  function HeldOn(p: Posting): set<string> { if p.amount < 0.0 then {p.account} else {} }

  /** A repeated decision writes its row back, too. */
  function DecideWrites(b: Books, verdict: Cash.Verdict, id: string, ok: bool): Rows {
    match IndexOf(b.postings, Cash.HasID(id))
    case None => NO_ROWS
    case Some(i) =>
      var p := b.postings[i];
      if !ok then NO_ROWS
      else if !p.status.Prepared? then NO_ROWS.(posting := Some(i))
      else Rows(if verdict.Commit? then {p.account} else HeldOn(p), None, None, Some(i))
  }

  function PaymentWrites(b: Books, id: nat, after: Books): Rows {
    if after == b || !(1 <= id <= |b.journal|) then NO_ROWS
    else Rows(MovedBy(b.journal[id - 1]), Some(id - 1), None, None)
  }

  /** The accounts between which a payment moves money. */
  function MovedBy(t: Transaction): set<string> {
    if IsForeign(t.recipient) then {}
    else if t.startCurrency == t.endCurrency then {t.payer, t.recipient}
    else {t.payer, t.recipient, BankAccountFor(t.startCurrency), BankAccountFor(t.endCurrency)}
  }

  // ----- nothing else changes -----

  /** From `before` to `after` only row `w` changes, and at most one row is appended. */
  ghost predicate OnlyRow<T>(before: seq<T>, after: seq<T>, w: Option<nat>) {
    && |before| <= |after| <= |before| + 1
    && (w.Some? ==> w.value < |before|)
    && forall i :: 0 <= i < |before| && Some(i) != w ==> after[i] == before[i]
  }

  ghost predicate OnlyAccounts(before: map<string, Account>, after: map<string, Account>, w: set<string>) {
    && w <= before.Keys && after.Keys == before.Keys
    && forall n :: n in before && n !in w ==> after[n] == before[n]
  }

  ghost predicate OnlyRows(b: Books, c: Books, w: Rows) {
    && OnlyAccounts(b.accounts, c.accounts, w.accounts)
    && OnlyRow(b.journal, c.journal, w.entry)
    && OnlyRow(b.reservations, c.reservations, w.reservation)
    && OnlyRow(b.postings, c.postings, w.posting)
  }

  lemma TradeWritesCover(b: Books, id: nat, down: set<RepoOp>)
    ensures OnlyRows(b, Trade.Processed(b, id, down), TradeWrites(b, id, down))
  {
  }

  lemma ReserveWritesCover(b: Books, req: Otc.ReserveRequest, rates: RatesRead, down: set<RepoOp>)
    ensures var c := Otc.Reserve(b, req, rates, down).0; OnlyRows(b, c, ReserveWrites(b, c))
  {
    Otc.ReserveShape(b, req, rates, down);
  }

  lemma ActWritesCover(b: Books, action: Otc.Action, id: string, down: set<RepoOp>)
    requires Linked(b)
    ensures var (c, result) := Otc.Act(b, action, id, down); OnlyRows(b, c, ActWrites(b, action, Text.Trim(id), result.Ok?))
  {
    Otc.ActShape(b, action, id, down);
    var found := IndexOf(b.reservations, Otc.HasID(Text.Trim(id)));
    if found.Some? {
      assert b.reservations[found.value] in b.reservations;
    }
  }

  lemma PrepareWritesCover(b: Books, req: Cash.PrepareRequest, rates: RatesRead, down: set<RepoOp>)
    requires Linked(b)
    ensures var c := Cash.Prepare(b, req, rates, down).0; OnlyRows(b, c, PrepareWrites(b, Text.Trim(req.postingID), c))
  {
    Cash.PrepareShape(b, Cash.Trimmed(req), rates, down);
  }

  lemma DecideWritesCover(b: Books, verdict: Cash.Verdict, id: string, down: set<RepoOp>)
    requires Linked(b)
    ensures var (c, result) := Cash.Decide(b, verdict, id, down); OnlyRows(b, c, DecideWrites(b, verdict, Text.Trim(id), result.Ok?))
  {
    Cash.DecideShape(b, verdict, Text.Trim(id), down);
    var found := IndexOf(b.postings, Cash.HasID(Text.Trim(id)));
    if found.Some? {
      assert b.postings[found.value] in b.postings;
    }
  }

  lemma PaymentWritesCover(b: Books, id: nat, reply: Pay.Reply, down: set<RepoOp>)
    ensures var c := Pay.Process(b, id, reply, down).0; OnlyRows(b, c, PaymentWrites(b, id, c))
  {
    Pay.ProcessShape(b, id, reply, down);
  }

  lemma FinalizeWritesCover(b: Books, id: nat, success: bool, down: set<RepoOp>)
    ensures OnlyRows(b, Pay.Finalize(b, id, success, down).0, Writes(b, FinalizePayment(id, success, down)))
  {
    Pay.FinalizeShape(b, id, success, down);
  }

  /** A transaction changes nothing but the rows it writes and appends. */
  lemma WritesCover(b: Books, s: Step)
    requires Linked(b)
    ensures OnlyRows(b, Apply(b, s), Writes(b, s))
  {
    match s
    case RecordTrade(_, _, _) =>
    case ProcessTrade(id, down) => TradeWritesCover(b, id, down);
    case Reserve(req, rates, down) => ReserveWritesCover(b, req, rates, down);
    case Act(action, id, down) => ActWritesCover(b, action, id, down);
    case Prepare(req, rates, down) => PrepareWritesCover(b, req, rates, down);
    case Decide(verdict, id, down) => DecideWritesCover(b, verdict, id, down);
    case RecordPayment(_, _, _, _) =>
    case ProcessPayment(id, reply, down) => PaymentWritesCover(b, id, reply, down);
    case FinalizePayment(id, success, down) => FinalizeWritesCover(b, id, success, down);
  }

  // ----- writing back -----

  /** The current table after row `w` has been overwritten and the new rows appended. */
  function Merged<T>(before: seq<T>, after: seq<T>, current: seq<T>, w: Option<nat>): seq<T> {
    (if w.Some? && w.value < |current| && w.value < |after| then current[w.value := after[w.value]] else current)
    + (if |before| <= |after| then after[|before|..] else [])
  }

  /** Balances are overwritten and not adjusted. */
  function Overwritten(after: map<string, Account>, current: map<string, Account>, w: set<string>): map<string, Account> {
    map n | n in current :: if n in w && n in after then WithBalances(current[n], after[n]) else current[n]
  }

  /** A row is to be appended whose key has been taken in the meantime. */
  predicate Clash(b: Books, after: Books, c: Books) {
    || (|after.reservations| > |b.reservations| &&
        IndexOf(c.reservations, Otc.HasID(after.reservations[|b.reservations|].executionID)).Some?)
    || (|after.postings| > |b.postings| &&
        IndexOf(c.postings, Cash.HasID(after.postings[|b.postings|].postingID)).Some?)
  }

  /** The tables `c` with the rows `w` of `after` and those that `after` has more than `b`. */
  function Merge(b: Books, after: Books, w: Rows, c: Books): Books {
    Books(Overwritten(after.accounts, c.accounts, w.accounts),
          Merged(b.journal, after.journal, c.journal, w.entry),
          Merged(b.reservations, after.reservations, c.reservations, w.reservation),
          Merged(b.postings, after.postings, c.postings, w.posting))
  }

  /** The tables after a transaction that read `b` commits when they are `c`; the whole transaction fails
      when a key that it wants to add is taken. */
  function WriteBack(b: Books, s: Step, c: Books): Books {
    if Clash(b, Apply(b, s), c) then c else Merge(b, Apply(b, s), Writes(b, s), c)
  }

  lemma MergedAtOnce<T>(before: seq<T>, after: seq<T>, w: Option<nat>)
    requires OnlyRow(before, after, w)
    ensures Merged(before, after, before, w) == after
  {
    var merged := Merged(before, after, before, w);
    assert |merged| == |after|;
    assert forall i :: 0 <= i < |before| ==> merged[i] == after[i];
    assert forall i :: |before| <= i < |after| ==> merged[i] == after[i];
  }

  /** A transaction that nothing overlaps has its plain effect. */
  lemma WriteBackAtOnce(b: Books, s: Step)
    requires Linked(b)
    ensures WriteBack(b, s, b) == if Clash(b, Apply(b, s), b) then b else Apply(b, s)
  {
    WritesCover(b, s);
    StepFrame(b, s);
    MergeAtOnce(b, Apply(b, s), Writes(b, s));
  }

  lemma MergeAtOnce(b: Books, after: Books, w: Rows)
    requires OnlyRows(b, after, w) && AccountsEvolve(b.accounts, after.accounts)
    ensures Merge(b, after, w, b) == after
  {
    MergedAtOnce(b.journal, after.journal, w.entry);
    MergedAtOnce(b.reservations, after.reservations, w.reservation);
    MergedAtOnce(b.postings, after.postings, w.posting);
    assert Overwritten(after.accounts, b.accounts, w.accounts) == after.accounts;
  }

  // ----- when overlapping keeps the books balanced -----

  predicate RowUnchanged<T(==)>(before: seq<T>, current: seq<T>, w: Option<nat>) {
    w.Some? ==> w.value < |before| && w.value < |current| && current[w.value] == before[w.value]
  }

  /** The entry, reservation or posting that a transaction settles is still as it read it. */
  predicate RowsUnchanged(b: Books, w: Rows, c: Books) {
    && RowUnchanged(b.journal, c.journal, w.entry)
    && RowUnchanged(b.reservations, c.reservations, w.reservation)
    && RowUnchanged(b.postings, c.postings, w.posting)
  }

  predicate SameBalances(b: Books, c: Books, ns: set<string>) {
    forall n :: n in ns && n in b.accounts && n in c.accounts ==>
      b.accounts[n].balance == c.accounts[n].balance && b.accounts[n].available == c.accounts[n].available
  }

  predicate RowIsThere<T>(current: seq<T>, w: Option<nat>) { w.Some? ==> w.value < |current| }

  predicate RowsAreThere(w: Rows, c: Books) {
    RowIsThere(c.journal, w.entry) && RowIsThere(c.reservations, w.reservation) && RowIsThere(c.postings, w.posting)
  }

  /** What an overwritten row counted for when it was read, less what it counts for now. */
  function Superseded<T>(before: seq<T>, current: seq<T>, w: Option<nat>, f: T -> real): real {
    if w.Some? && w.value < |before| && w.value < |current| then f(before[w.value]) - f(current[w.value]) else 0.0
  }

  function SupersededTurnover(b: Books, w: Rows, c: Books, a: string): real {
    Superseded(b.journal, c.journal, w.entry, SettledBy(a))
    + Superseded(b.reservations, c.reservations, w.reservation, TradedBy(a))
    + Superseded(b.postings, c.postings, w.posting, PostedBy(a))
  }

  function SupersededHold(b: Books, w: Rows, c: Books, a: string): real {
    Superseded(b.reservations, c.reservations, w.reservation, ReservedBy(a))
    + Superseded(b.postings, c.postings, w.posting, PreparedBy(a))
  }

  /** Writing back changes every total by what the transaction changed it by, and takes back what others have
      done to the row that it overwrites. */
  lemma MergedSum<T>(before: seq<T>, after: seq<T>, current: seq<T>, w: Option<nat>, f: T -> real)
    requires OnlyRow(before, after, w) && RowIsThere(current, w)
    ensures Sum(Merged(before, after, current, w), f) - Sum(current, f) ==
            Sum(after, f) - Sum(before, f) + Superseded(before, current, w, f)
  {
    var added := after[|before|..];
    if w.Some? {
      var i := w.value;
      SumUpdate(current, i, after[i], f);
      SumUpdate(before, i, after[i], f);
      SumConcat(current[i := after[i]], added, f);
      SumConcat(before[i := after[i]], added, f);
      assert after == before[i := after[i]] + added;
    } else {
      SumConcat(current, added, f);
      SumConcat(before, added, f);
      assert after == before + added;
    }
  }

  lemma MergeSums(b: Books, after: Books, w: Rows, c: Books, a: string)
    requires OnlyRows(b, after, w) && RowsAreThere(w, c)
    ensures Turnover(Merge(b, after, w, c), a) - Turnover(c, a) ==
            Turnover(after, a) - Turnover(b, a) + SupersededTurnover(b, w, c, a)
    ensures Held(Merge(b, after, w, c), a) - Held(c, a) == Held(after, a) - Held(b, a) + SupersededHold(b, w, c, a)
  {
    MergedSum(b.journal, after.journal, c.journal, w.entry, SettledBy(a));
    MergedSum(b.reservations, after.reservations, c.reservations, w.reservation, TradedBy(a));
    MergedSum(b.reservations, after.reservations, c.reservations, w.reservation, ReservedBy(a));
    MergedSum(b.postings, after.postings, c.postings, w.posting, PostedBy(a));
    MergedSum(b.postings, after.postings, c.postings, w.posting, PreparedBy(a));
  }

  ghost predicate InBalance(opening: map<string, real>, b: Books, n: string)
    requires n in b.accounts && n in opening
  {
    b.accounts[n].balance == opening[n] + Turnover(b, n) && b.accounts[n].available == b.accounts[n].balance - Held(b, n)
  }

  /** Since `b` others have moved account `n` by exactly what they did to the rows that are overwritten, if the
      account is overwritten as well; if it is not, they have moved nothing on it with those rows. */
  predicate AccountKeepsUp(b: Books, w: Rows, c: Books, n: string)
    requires n in b.accounts && n in c.accounts
  {
    var turnover, hold := SupersededTurnover(b, w, c, n), SupersededHold(b, w, c, n);
    if n in w.accounts then
      && b.accounts[n].balance - c.accounts[n].balance == turnover
      && b.accounts[n].available - c.accounts[n].available == turnover - hold
    else turnover == 0.0 && hold == 0.0
  }

  predicate KeepsUp(b: Books, w: Rows, c: Books) {
    forall n :: n in b.accounts && n in c.accounts ==> AccountKeepsUp(b, w, c, n)
  }

  lemma AccountAfterMerge(opening: map<string, real>, b: Books, after: Books, w: Rows, c: Books, n: string)
    requires n in b.accounts && n in after.accounts && n in c.accounts && n in opening
    requires InBalance(opening, b, n) && InBalance(opening, c, n) && Accounted(b, after, n)
    requires OnlyRows(b, after, w) && RowsAreThere(w, c)
    ensures InBalance(opening, Merge(b, after, w, c), n) <==> AccountKeepsUp(b, w, c, n)
  {
    MergeSums(b, after, w, c, n);
    InBalanceAfterWriting(opening, b, after, c, Merge(b, after, w, c), n, n in w.accounts,
                          SupersededTurnover(b, w, c, n), SupersededHold(b, w, c, n));
  }

  lemma InBalanceAfterWriting(opening: map<string, real>, b: Books, after: Books, c: Books, d: Books, n: string, written: bool,
                              turnover: real, hold: real)
    requires n in b.accounts && n in after.accounts && n in c.accounts && n in d.accounts && n in opening
    requires InBalance(opening, b, n) && InBalance(opening, c, n) && Accounted(b, after, n)
    requires Turnover(d, n) - Turnover(c, n) == Turnover(after, n) - Turnover(b, n) + turnover
    requires Held(d, n) - Held(c, n) == Held(after, n) - Held(b, n) + hold
    requires d.accounts[n] == if written then WithBalances(c.accounts[n], after.accounts[n]) else c.accounts[n]
    requires written || after.accounts[n] == b.accounts[n]
    ensures InBalance(opening, d, n) <==>
      if written then b.accounts[n].balance - c.accounts[n].balance == turnover &&
                      b.accounts[n].available - c.accounts[n].available == turnover - hold
      else turnover == 0.0 && hold == 0.0
  {
  }

  lemma ReconciledOneByOne(opening: map<string, real>, b: Books)
    requires b.accounts.Keys == opening.Keys
    ensures Reconciled(opening, b) <==> forall n :: n in b.accounts ==> InBalance(opening, b, n)
  {
  }

  lemma MergeKeepsBooksExactly(opening: map<string, real>, b: Books, after: Books, w: Rows, c: Books)
    requires b.accounts.Keys == c.accounts.Keys == opening.Keys
    requires forall n :: n in opening ==> InBalance(opening, b, n) && InBalance(opening, c, n)
    requires OnlyRows(b, after, w) && RowsAreThere(w, c)
    requires forall n :: n in b.accounts ==> Accounted(b, after, n)
    ensures Reconciled(opening, Merge(b, after, w, c)) <==> KeepsUp(b, w, c)
  {
    var d := Merge(b, after, w, c);
    assert d.accounts.Keys == c.accounts.Keys;
    forall n | n in c.accounts
      ensures InBalance(opening, d, n) <==> AccountKeepsUp(b, w, c, n)
    {
      assert Accounted(b, after, n);
      AccountAfterMerge(opening, b, after, w, c, n);
    }
    ReconciledOneByOne(opening, d);
  }

  /** The exact condition under which overlapping does no harm: the books still balance after a transaction
      that read `b` has committed over `c` if and only if it fails on a key that is taken, or others have moved
      the accounts that it overwrites by no more than what they did to the rows that it overwrites, and have
      moved nothing else with those rows. */
  lemma OverlapKeepsBooksExactly(opening: map<string, real>, b: Books, s: Step, c: Books)
    requires Reconciled(opening, b) && Reconciled(opening, c) && Linked(b) && Routed(b, s) && RowsAreThere(Writes(b, s), c)
    ensures Reconciled(opening, WriteBack(b, s, c)) <==> Clash(b, Apply(b, s), c) || KeepsUp(b, Writes(b, s), c)
  {
    WritesCover(b, s);
    AllAccounted(b, s);
    ReconciledOneByOne(opening, b);
    ReconciledOneByOne(opening, c);
    MergeKeepsBooksExactly(opening, b, Apply(b, s), Writes(b, s), c);
  }

  lemma AllAccounted(b: Books, s: Step)
    requires Linked(b) && Routed(b, s)
    ensures Apply(b, s).accounts.Keys == b.accounts.Keys && forall n :: n in b.accounts ==> Accounted(b, Apply(b, s), n)
  {
    StepFrame(b, s);
    forall n | n in b.accounts
      ensures Accounted(b, Apply(b, s), n)
    {
      StepAccounted(b, s, n);
    }
  }

  /** Where nobody has touched the rows that it overwrites, that is: nobody has changed the balances of the
      accounts that it overwrites. */
  lemma OverlapOnUnchangedRows(opening: map<string, real>, b: Books, s: Step, c: Books)
    requires Reconciled(opening, b) && Reconciled(opening, c) && Linked(b) && Routed(b, s)
    requires RowsUnchanged(b, Writes(b, s), c) && !Clash(b, Apply(b, s), c)
    ensures Reconciled(opening, WriteBack(b, s, c)) <==> SameBalances(b, c, Writes(b, s).accounts)
  {
    OverlapKeepsBooksExactly(opening, b, s, c);
    UnchangedRowsKeepUp(b, Writes(b, s), c);
  }

  lemma UnchangedRowsKeepUp(b: Books, w: Rows, c: Books)
    requires RowsUnchanged(b, w, c) && b.accounts.Keys == c.accounts.Keys
    ensures KeepsUp(b, w, c) <==> SameBalances(b, c, w.accounts)
  {
    if SameBalances(b, c, w.accounts) {
      assert KeepsUp(b, w, c);
    } else {
      var n :| n in w.accounts && n in b.accounts && n in c.accounts &&
               (b.accounts[n].balance != c.accounts[n].balance || b.accounts[n].available != c.accounts[n].available);
      assert !AccountKeepsUp(b, w, c, n);
    }
  }

  // ----- the same transaction twice from one read -----

  /** What a transaction appends to the journal has moved nothing. */
  lemma AppendedEntryMovesNothing(b: Books, s: Step, a: string)
    requires Linked(b)
    ensures var after := Apply(b, s).journal;
      |b.journal| <= |after| && forall i :: |b.journal| <= i < |after| ==> SettledBy(a)(after[i]) == 0.0
  {
    match s
    case RecordTrade(_, _, _) =>
    case ProcessTrade(_, _) =>
    case RecordPayment(_, _, _, _) =>
    case ProcessPayment(id, reply, down) => Pay.ProcessShape(b, id, reply, down);
    case FinalizePayment(id, success, down) => Pay.FinalizeShape(b, id, success, down);
    case _ => HoldsAppendNothingThatMoves(b, s, a);
  }

  lemma HoldsAppendNothingThatMoves(b: Books, s: Step, a: string)
    requires Linked(b) && (s.Reserve? || s.Act? || s.Prepare? || s.Decide?)
    ensures var after := Apply(b, s).journal;
      |b.journal| <= |after| && forall i :: |b.journal| <= i < |after| ==> SettledBy(a)(after[i]) == 0.0
  {
    match s
    case Reserve(req, rates, down) => Otc.ReserveShape(b, req, rates, down);
    case Act(action, id, down) => Otc.ActShape(b, action, id, down);
    case Prepare(req, rates, down) => Cash.PrepareShape(b, Cash.Trimmed(req), rates, down);
    case Decide(verdict, id, down) => Cash.DecideShape(b, verdict, Text.Trim(id), down);
  }

  lemma ChangedBySuperseded<T>(before: seq<T>, after: seq<T>, w: Option<nat>, f: T -> real)
    requires OnlyRow(before, after, w) && forall i :: |before| <= i < |after| ==> f(after[i]) == 0.0
    ensures Sum(after, f) - Sum(before, f) == -Superseded(before, after, w, f)
  {
    var core := if w.Some? then before[w.value := after[w.value]] else before;
    if w.Some? {
      SumUpdate(before, w.value, after[w.value], f);
    }
    if |after| == |before| {
      assert after == core;
    } else {
      assert after == core + [after[|before|]];
      SumAppend(core, after[|before|], f);
    }
  }

  /** A transaction that is carried out twice from one read, as a retransmission that overlaps the first can be,
      keeps the books balanced: the second time it overwrites what it has done itself. */
  lemma TwiceFromOneReadBalances(opening: map<string, real>, b: Books, s: Step)
    requires Reconciled(opening, b) && Linked(b) && Routed(b, s)
    ensures Reconciled(opening, WriteBack(b, s, Apply(b, s)))
  {
    var c, w := Apply(b, s), Writes(b, s);
    StepKeepsBooks(opening, b, s);
    WritesCover(b, s);
    OverlapKeepsBooksExactly(opening, b, s, c);
    AppendedRowsClash(b, c);
    AllAccounted(b, s);
    if !Clash(b, c, c) {
      forall n | n in b.accounts && n in c.accounts
        ensures AccountKeepsUp(b, w, c, n)
      {
        AppendedEntryMovesNothing(b, s, n);
        OwnRowsKeepUp(b, w, c, n);
      }
    }
  }

  lemma AppendedRowsClash(b: Books, c: Books)
    requires |b.reservations| <= |c.reservations| && |b.postings| <= |c.postings|
    ensures Clash(b, c, c) || (|c.reservations| == |b.reservations| && |c.postings| == |b.postings|)
  {
    if |c.reservations| > |b.reservations| {
      var r := c.reservations[|b.reservations|];
      assert Otc.HasID(r.executionID)(r);
    }
    if |c.postings| > |b.postings| {
      var p := c.postings[|b.postings|];
      assert Cash.HasID(p.postingID)(p);
    }
  }

  lemma OwnRowsKeepUp(b: Books, w: Rows, c: Books, n: string)
    requires n in b.accounts && n in c.accounts && OnlyRows(b, c, w) && Accounted(b, c, n)
    requires |c.reservations| == |b.reservations| && |c.postings| == |b.postings|
    requires forall i :: |b.journal| <= i < |c.journal| ==> SettledBy(n)(c.journal[i]) == 0.0
    ensures AccountKeepsUp(b, w, c, n)
  {
    ChangedBySuperseded(b.journal, c.journal, w.entry, SettledBy(n));
    ChangedBySuperseded(b.reservations, c.reservations, w.reservation, TradedBy(n));
    ChangedBySuperseded(b.reservations, c.reservations, w.reservation, ReservedBy(n));
    ChangedBySuperseded(b.postings, c.postings, w.posting, PostedBy(n));
    ChangedBySuperseded(b.postings, c.postings, w.posting, PreparedBy(n));
  }
}
