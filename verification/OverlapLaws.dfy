/** What overlapping transactions do to the payment history and to closed payments, and what undisturbed
    schedules keep of the laws of runs. */
module OverlapLaws {
  import opened Prelude
  import opened Sequences
  import opened AppErrors
  import opened ExchangeRates
  import opened Books
  import opened BankRuns
  import opened BankPromises
  import opened JournalLaws
  import opened Overlaps
  import opened OverlapRuns
  import opened SmallBooks
  import opened PaymentLaws
  import Text
  import Otc = OtcFunds
  import Cash = InterbankCash
  import Pay = Payments

  // ----- payment history -----

  ghost predicate UniqueIDs(postings: seq<Posting>) {
    forall i, j :: 0 <= i < j < |postings| ==> postings[i].postingID != postings[j].postingID
  }

  /** Since `b` nobody has committed the posting that is overwritten, unless a local payment started it. */
  predicate HistoryKept(b: Books, w: Option<nat>, c: Books) {
    w.Some? && w.value < |b.postings| && w.value < |c.postings| ==>
      b.postings[w.value].bankingTxID != 0 || (c.postings[w.value].status.CashCommitted? ==> b.postings[w.value].status.CashCommitted?)
  }

  lemma HistoriesAfterMerge(b: Books, after: Books, w: Rows, c: Books, id: string)
    requires OnlyRows(b, after, w) && JournalEvolves(b.journal, c.journal) && PostingsEvolve(b.postings, c.postings)
    requires HistoryExact(b) && HistoryExact(after) && HistoryExact(c)
    ensures var d := Merge(b, after, w, c);
      Sum(d.journal, HistoryOf(id)) - Sum(d.postings, OwesHistory(id)) == -Superseded(b.postings, c.postings, w.posting, OwesHistory(id))
  {
    MergedSum(b.journal, after.journal, c.journal, w.entry, HistoryOf(id));
    MergedSum(b.postings, after.postings, c.postings, w.posting, OwesHistory(id));
  }

  lemma MergedIDsAreUnique(b: Books, after: Books, w: Rows, c: Books)
    requires OnlyRows(b, after, w) && PostingsEvolve(b.postings, c.postings) && PostingsEvolve(b.postings, after.postings)
    requires UniqueIDs(c.postings) && !Clash(b, after, c)
    ensures UniqueIDs(Merge(b, after, w, c).postings)
  {
    var d := Merge(b, after, w, c).postings;
    forall i | 0 <= i < |c.postings|
      ensures d[i].postingID == c.postings[i].postingID
    {
    }
    if |after.postings| > |b.postings| {
      var key := after.postings[|b.postings|].postingID;
      assert d[|c.postings|].postingID == key && |d| == |c.postings| + 1;
      assert forall i :: 0 <= i < |c.postings| ==> !Cash.HasID(key)(c.postings[i]);
    }
  }

  lemma OwesTheSame(b: Books, w: Option<nat>, c: Books)
    requires PostingsEvolve(b.postings, c.postings) && (w.Some? ==> w.value < |b.postings|)
    ensures HistoryKept(b, w, c) <==> forall id :: Superseded(b.postings, c.postings, w, OwesHistory(id)) == 0.0
  {
    if w.Some? {
      var p := b.postings[w.value];
      assert HistoryKept(b, w, c) <==> Superseded(b.postings, c.postings, w, OwesHistory(p.postingID)) == 0.0;
    }
  }

  /** The exact condition under which a transaction that overlaps others keeps one history entry for each
      committed posting that no local payment started: it fails on a key that is taken, or nobody has committed
      the posting that it overwrites since it read it. */
  lemma OverlapKeepsHistoryExactly(b: Books, s: Step, c: Books)
    requires Linked(b) && Evolves(b, c) && HistoryExact(b) && HistoryExact(c)
    ensures HistoryExact(WriteBack(b, s, c)) <==> Clash(b, Apply(b, s), c) || HistoryKept(b, Writes(b, s).posting, c)
  {
    WritesCover(b, s);
    StepKeepsHistory(b, s);
    StepFrame(b, s);
    MergeKeepsHistoryExactly(b, Apply(b, s), Writes(b, s), c);
  }

  lemma MergeKeepsHistoryExactly(b: Books, after: Books, w: Rows, c: Books)
    requires OnlyRows(b, after, w) && Evolves(b, after) && Evolves(b, c)
    requires HistoryExact(b) && HistoryExact(after) && HistoryExact(c)
    ensures !Clash(b, after, c) ==> (HistoryExact(Merge(b, after, w, c)) <==> HistoryKept(b, w.posting, c))
  {
    if !Clash(b, after, c) {
      var d := Merge(b, after, w, c);
      MergedIDsAreUnique(b, after, w, c);
      OwesTheSame(b, w.posting, c);
      forall id
        ensures Sum(d.journal, HistoryOf(id)) - Sum(d.postings, OwesHistory(id)) ==
                -Superseded(b.postings, c.postings, w.posting, OwesHistory(id))
      {
        HistoriesAfterMerge(b, after, w, c, id);
      }
    }
  }

  lemma OneMore(rows: seq<Transaction>, t: Transaction, id: string)
    requires t.origin == CashRecord(id)
    ensures Sum(rows + [t], HistoryOf(id)) == Sum(rows, HistoryOf(id)) + 1.0
  {
    SumAppend(rows, t, HistoryOf(id));
  }

  /** A commit that is retransmitted while the first is under way, both reading the posting as prepared, writes
      its history twice. */
  lemma OverlappingCommitsWriteTwice(b: Books, key: string, i: nat, postingID: string)
    requires Linked(b) && HistoryExact(b) && Text.Trim(postingID) == key && key != ""
    requires IndexOf(b.postings, Cash.HasID(key)) == Some(i)
    requires b.postings[i].status.Prepared? && b.postings[i].bankingTxID == 0
    requires Cash.DecideOn(b, Cash.Commit, key, {}).1.Ok?
    ensures var commit := Decide(Cash.Commit, postingID, {});
      var d := WriteBack(b, commit, Apply(b, commit));
      Sum(d.journal, HistoryOf(key)) == 2.0 && !HistoryExact(d)
  {
    var commit := Decide(Cash.Commit, postingID, {});
    var c, t := Apply(b, commit), Cash.HistoryEntry(b.postings[i]);
    CommitHappens(b, key, i, postingID);
    StepFrame(b, commit);
    StepKeepsHistory(b, commit);
    TwoMore(b, i, key, t);
    CommitAppends(b, c, Writes(b, commit), t);
    OverlapKeepsHistoryExactly(b, commit, c);
  }

  lemma TwoMore(b: Books, i: nat, key: string, t: Transaction)
    requires HistoryExact(b) && i < |b.postings| && b.postings[i].postingID == key
    requires !b.postings[i].status.CashCommitted? && t.origin == CashRecord(key)
    ensures Sum(b.journal + [t] + [t], HistoryOf(key)) == 2.0
  {
    OneRowOwes(b.postings, i);
    OneMore(b.journal, t, key);
    OneMore(b.journal + [t], t, key);
  }

  lemma CommitHappens(b: Books, key: string, i: nat, postingID: string)
    requires Text.Trim(postingID) == key && key != "" && IndexOf(b.postings, Cash.HasID(key)) == Some(i)
    requires b.postings[i].status.Prepared? && b.postings[i].bankingTxID == 0
    requires Cash.DecideOn(b, Cash.Commit, key, {}).1.Ok?
    ensures var c, w := Apply(b, Decide(Cash.Commit, postingID, {})), Writes(b, Decide(Cash.Commit, postingID, {}));
      && c.journal == b.journal + [Cash.HistoryEntry(b.postings[i])]
      && |c.reservations| == |b.reservations| && |c.postings| == |b.postings| && c.postings[i].status.CashCommitted?
      && w.entry.None? && w.posting == Some(i)
  {
    Cash.DecideShape(b, Cash.Commit, key, {});
  }

  lemma CommitAppends(b: Books, c: Books, w: Rows, t: Transaction)
    requires c.journal == b.journal + [t] && |c.reservations| == |b.reservations| && |c.postings| == |b.postings| && w.entry.None?
    ensures !Clash(b, c, c) && Merge(b, c, w, c).journal == b.journal + [t] + [t]
  {
  }

  function PreparedSixty(): Posting {
    Posting("p", "S", RSD, 60.0, RSD, 60.0, Prepared, 0, "")
  }

  /** Such a schedule: 60 arrive once, and the history shows them twice. */
  lemma SixtyShownTwice(opening: map<string, real>, b: Books)
    requires JustOpened(opening, b, 100.0)
    ensures var prepared, commit := b.(postings := [PreparedSixty()]), Decide(Cash.Commit, "p", {});
      var d := WriteBack(prepared, commit, Apply(prepared, commit));
      HistoryExact(prepared) && Sum(d.journal, HistoryOf("p")) == 2.0
  {
    var prepared := b.(postings := [PreparedSixty()]);
    assert Text.Trim("p") == "p";
    SixtyIsPrepared(opening, b);
    OverlappingCommitsWriteTwice(prepared, "p", 0, "p");
  }

  lemma SixtyIsPrepared(opening: map<string, real>, b: Books)
    requires JustOpened(opening, b, 100.0)
    ensures var prepared := b.(postings := [PreparedSixty()]);
      && Linked(prepared) && HistoryExact(prepared)
      && IndexOf(prepared.postings, Cash.HasID("p")) == Some(0) && Cash.DecideOn(prepared, Cash.Commit, "p", {}).1.Ok?
  {
    JustOpenedBalances(opening, b, 100.0);
    NothingCommitted(b.(postings := [PreparedSixty()]));
  }

  lemma NothingCommitted(b: Books)
    requires b.journal == [] && |b.postings| == 1 && b.postings[0].status.Prepared?
    ensures HistoryExact(b)
  {
    forall id
      ensures Sum(b.postings, OwesHistory(id)) == 0.0
    {
      SumAppend([], b.postings[0], OwesHistory(id));
      assert [] + [b.postings[0]] == b.postings;
    }
  }

  /** In a schedule that nobody disturbs, each posting has its history once. */
  lemma UndisturbedHistoryIsWrittenOnce(b: Books, txs: seq<Overlapping>, i: nat)
    requires Linked(b) && HistoryExact(b) && NobodyDisturbed(b, txs) && i < |Schedule(b, txs).postings|
    ensures var c, p := Schedule(b, txs), Schedule(b, txs).postings[i];
      Sum(c.journal, HistoryOf(p.postingID)) == if p.status.CashCommitted? && p.bankingTxID == 0 then 1.0 else 0.0
  {
    var steps := UndisturbedScheduleIsSerial(b, txs);
    HistoryIsWrittenOnce(b, steps, i);
  }

  // ----- closed entries -----

  lemma EntryAfterWriteBack(b: Books, s: Step, c: Books, id: nat)
    requires Linked(b) && Evolves(b, c) && 1 <= id <= |b.journal|
    ensures var d, w, after := WriteBack(b, s, c), Writes(b, s).entry, Apply(b, s);
      && |c.journal| <= |d.journal| && |b.journal| <= |after.journal|
      && d.journal[id - 1] == if Clash(b, after, c) || w != Some(id - 1) then c.journal[id - 1] else after.journal[id - 1]
  {
    StepFrame(b, s);
    MergeEntry(b, Apply(b, s), Writes(b, s), c, id);
  }

  lemma MergeEntry(b: Books, after: Books, w: Rows, c: Books, id: nat)
    requires 1 <= id <= |b.journal| <= |after.journal| && |b.journal| <= |c.journal|
    ensures |c.journal| <= |Merge(b, after, w, c).journal|
    ensures Merge(b, after, w, c).journal[id - 1] ==
            if w.entry != Some(id - 1) then c.journal[id - 1] else after.journal[id - 1]
  {
    MergedEntry(b.journal, after.journal, c.journal, w.entry, id - 1);
  }

  lemma MergedEntry(before: seq<Transaction>, after: seq<Transaction>, current: seq<Transaction>, w: Option<nat>, i: nat)
    requires i < |before| <= |after| && |before| <= |current|
    ensures |current| <= |Merged(before, after, current, w)|
    ensures Merged(before, after, current, w)[i] == if w == Some(i) then after[i] else current[i]
  {
  }

  /** The exact condition under which a closed entry survives a transaction that overlaps others: the
      transaction fails on a key that is taken, does not write that entry, or closes it in the same way. */
  lemma ClosedEntrySurvivesExactly(b: Books, s: Step, c: Books, id: nat)
    requires Linked(b) && Evolves(b, c) && 1 <= id <= |b.journal| && !c.journal[id - 1].status.Processing?
    ensures var d, w, after := WriteBack(b, s, c), Writes(b, s).entry, Apply(b, s);
      && |c.journal| <= |d.journal| && |b.journal| <= |after.journal|
      && (d.journal[id - 1] == c.journal[id - 1] <==>
          Clash(b, after, c) || w != Some(id - 1) || after.journal[id - 1].status == c.journal[id - 1].status)
  {
    StepFrame(b, s);
    EntryAfterWriteBack(b, s, c, id);
    SameUpToStatus(b.journal[id - 1], Apply(b, s).journal[id - 1], c.journal[id - 1]);
  }

  lemma SameUpToStatus(s: Transaction, t: Transaction, u: Transaction)
    requires t == s.(status := t.status) && u == s.(status := u.status)
    ensures t == u <==> t.status == u.status
  {
  }

  /** A payment is handed over to the other bank and refused for good. */
  predicate Refuses(b: Books, id: nat, reply: Pay.Reply, down: set<RepoOp>)
    requires 1 <= id <= |b.journal|
  {
    b.journal[id - 1].status.Processing? && Definitive(reply) && GetTransaction !in down && UpdateTransaction !in down
  }

  /** Handing a payment over is no database transaction: it reads the entry, asks the other bank, and writes the
      entry without looking again. A payment that was closed in between survives exactly if it is not refused
      for good, or was rejected anyway. */
  lemma OutcomeSurvivesHandingOverExactly(b: Books, id: nat, reply: Pay.Reply, down: set<RepoOp>, c: Books)
    requires Linked(b) && Evolves(b, c) && 1 <= id <= |b.journal| && IsForeign(b.journal[id - 1].recipient)
    requires !c.journal[id - 1].status.Processing?
    ensures var d := WriteBack(b, ProcessPayment(id, reply, down), c);
      && |c.journal| <= |d.journal|
      && (d.journal[id - 1] == c.journal[id - 1] <==> !Refuses(b, id, reply, down) || c.journal[id - 1].status.Rejected?)
      && (d.journal[id - 1] == c.journal[id - 1] || d.journal[id - 1].status.Rejected?)
  {
    ClosedEntrySurvivesExactly(b, ProcessPayment(id, reply, down), c, id);
    EntryAfterWriteBack(b, ProcessPayment(id, reply, down), c, id);
    HandingOverWrites(b, id, reply, down, c);
  }

  lemma HandingOverWrites(b: Books, id: nat, reply: Pay.Reply, down: set<RepoOp>, c: Books)
    requires 1 <= id <= |b.journal| && IsForeign(b.journal[id - 1].recipient)
    ensures var s := ProcessPayment(id, reply, down);
      && !Clash(b, Apply(b, s), c) && |Apply(b, s).journal| == |b.journal|
      && (if Refuses(b, id, reply, down)
          then Writes(b, s).entry == Some(id - 1) && Apply(b, s).journal[id - 1].status.Rejected?
          else Writes(b, s).entry == None)
  {
    var after := Pay.Process(b, id, reply, down).0;
    if Refuses(b, id, reply, down) {
      assert after.journal[id - 1].status.Rejected?;
    } else {
      assert after == b;
    }
  }

  /** A refusal that comes back after a success was reported overwrites it. */
  lemma RefusalOverwritesSuccess(b: Books, id: nat, reply: Pay.Reply)
    requires Linked(b) && 1 <= id <= |b.journal| && IsForeign(b.journal[id - 1].recipient)
    requires b.journal[id - 1].status.Processing? && Definitive(reply)
    ensures var c := Apply(b, FinalizePayment(id, true, {}));
      var d := WriteBack(b, ProcessPayment(id, reply, {}), c);
      && |c.journal| == |b.journal| <= |d.journal|
      && c.journal[id - 1].status.Completed? && d.journal[id - 1].status.Rejected?
  {
    var c := Apply(b, FinalizePayment(id, true, {}));
    StepFrame(b, FinalizePayment(id, true, {}));
    OutcomeSurvivesHandingOverExactly(b, id, reply, {}, c);
  }

  /** So does a refusal of 60 to another bank. */
  lemma SixtyRefusedAfterSuccess(opening: map<string, real>, b: Books)
    requires JustOpened(opening, b, 100.0)
    ensures var sent := b.(journal := [OpenSixty("555000000000000001", Payment)]);
      var refused := ProcessPayment(1, Pay.Refused(Some(Internal), "refused"), {});
      var c := Apply(sent, FinalizePayment(1, true, {}));
      var d := WriteBack(sent, refused, c);
      |c.journal| == 1 <= |d.journal| && c.journal[0].status.Completed? && d.journal[0].status.Rejected?
  {
    var t := OpenSixty("555000000000000001", Payment);
    var sent := b.(journal := [t]);
    SixtyIsSent(opening, b, t);
    RefusalOverwritesSuccess(sent, 1, Pay.Refused(Some(Internal), "refused"));
  }

  lemma SixtyIsSent(opening: map<string, real>, b: Books, t: Transaction)
    requires JustOpened(opening, b, 100.0) && t == OpenSixty("555000000000000001", Payment)
    ensures IsForeign(t.recipient) && Linked(b.(journal := [t]))
  {
    JustOpenedBalances(opening, b, 100.0);
    assert b.journal + [t] == [t];
    OutgoingSixtyIsLinked(b.accounts, t);
    OpenEntryBalances(opening, b, t);
  }

  lemma OutgoingSixtyIsLinked(accounts: map<string, Account>, t: Transaction)
    requires "B" in accounts && accounts["B"].currency == RSD && t == OpenSixty("555000000000000001", Payment)
    ensures IsForeign(t.recipient) && EntryLinked(accounts, t) && t.status.Processing?
  {
    assert t.recipient[..3] == "555";
  }

  /** In a schedule that nobody disturbs, a closed entry stays as it was closed. */
  lemma UndisturbedOutcomeIsFinal(b: Books, txs: seq<Overlapping>, r: nat, id: nat)
    requires Linked(b) && NobodyDisturbed(b, txs) && r <= |txs|
    requires 1 <= id <= |Schedule(b, txs[..r]).journal| && !Schedule(b, txs[..r]).journal[id - 1].status.Processing?
    ensures id <= |Schedule(b, txs).journal| && Schedule(b, txs).journal[id - 1] == Schedule(b, txs[..r]).journal[id - 1]
  {
    ScheduleFrame(b, txs, r);
  }

  // ----- the promises of the two-phase protocols -----

  lemma UndisturbedIsProper(b: Books, txs: seq<Overlapping>) returns (steps: seq<Step>)
    requires Linked(b) && NobodyDisturbed(b, txs) && forall tx :: tx in txs ==> Proper(tx.step)
    ensures Schedule(b, txs) == Run(b, steps) && ProperRun(b, steps)
  {
    steps := UndisturbedScheduleIsSerial(b, txs);
    ThinnedIsProper(steps, txs);
  }

  /** After a schedule that nobody disturbs, prepared postings can be decided as after a run. */
  lemma UndisturbedPostingsCanBeDecided(
      opening: map<string, real>, b: Books, txs: seq<Overlapping>, id: string, i: nat, verdict: Cash.Verdict)
    requires Sound(opening, b) && NobodyDisturbed(b, txs) && forall tx :: tx in txs ==> Proper(tx.step)
    requires IndexOf(b.postings, Cash.HasID(id)) == Some(i)
    ensures var c := Schedule(b, txs);
      && i < |c.postings|
      && (c.postings[i].status.Prepared? && c.postings[i].bankingTxID <= |b.journal| ==>
            Cash.DecideOn(c, verdict, id, {}).1.Ok?)
  {
    var steps := UndisturbedIsProper(b, txs);
    PreparedPostingsCanAlwaysBeDecided(opening, b, steps, id, i, verdict);
  }

  /** After a schedule that nobody disturbs, reserved funds can be settled as after a run. */
  lemma UndisturbedFundsCanBeSettled(
      opening: map<string, real>, b: Books, txs: seq<Overlapping>, id: string, i: nat, action: Otc.Action)
    requires Sound(opening, b) && NobodyDisturbed(b, txs) && forall tx :: tx in txs ==> Proper(tx.step)
    requires IndexOf(b.reservations, Otc.HasID(id)) == Some(i) && !action.Refund?
    ensures var c := Schedule(b, txs);
      i < |c.reservations| && (c.reservations[i].status == Otc.Origin(action) ==> Otc.ActOn(c, action, id, {}).1.Ok?)
  {
    var steps := UndisturbedIsProper(b, txs);
    ReservedFundsCanAlwaysBeSettled(opening, b, steps, id, i, action);
  }
}
