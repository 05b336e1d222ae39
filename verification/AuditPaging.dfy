/** Reading the audit log page by page, where each page is a query of its own and nothing is saved in between;
    `AuditGrowth` says what saving does to it. */
module AuditPaging {
  import opened Sequences
  import opened AuditLog

  /** Pages 1 to `n`, one after the other. */
  function Joined(pages: nat -> seq<Entry>, n: nat): seq<Entry> {
    if n == 0 then [] else Joined(pages, n - 1) + pages(n)
  }

  /** What each page shows when it is read by a query of its own. */
  function Shown(answers: nat -> seq<Entry>, pageSize: int): nat -> seq<Entry> {
    (p: nat) => Page(answers(p), p, pageSize)
  }

  function PagesRead(answers: nat -> seq<Entry>, pageSize: int, n: nat): seq<Entry> {
    Joined(Shown(answers, pageSize), n)
  }

  /** Each query is answered with some arrangement of the same rows. */
  ghost predicate Answers(answers: nat -> seq<Entry>, rows: seq<Entry>) {
    forall p :: Arranges(answers(p), rows)
  }

  lemma {:induction false} SameAnswersSamePages(answers: nat -> seq<Entry>, served: seq<Entry>, pageSize: int, n: nat)
    requires forall p :: answers(p) == served
    ensures PagesRead(answers, pageSize, n) == Pages(served, pageSize, n)
  {
    if n > 0 {
      SameAnswersSamePages(answers, served, pageSize, n - 1);
    }
  }

  /** Without ties, page by page reading delivers every wanted row exactly once and newest first, though
      each page is a query that the database answers anew. */
  lemma SeparateQueriesFitTogether(rows: seq<Entry>, answers: nat -> seq<Entry>, pageSize: int)
    requires WithoutTies(rows) && pageSize >= 1
    requires Answers(answers, rows)
    ensures Arranges(PagesRead(answers, pageSize, PageCount(|rows|, pageSize)), rows)
  {
    var served := answers(0);
    AnswerIsDeterminedExactlyWithoutTies(rows);
    forall p
      ensures answers(p) == served
    {
      assert Arranges(answers(p), rows) && Arranges(served, rows);
    }
    assert |served| == |multiset(served)| == |rows|;
    SameAnswersSamePages(answers, served, pageSize, PageCount(|rows|, pageSize));
    PagesCoverTheResult(served, pageSize);
  }

  // ----- rows before a time -----

  function After(t: int): Entry -> bool { (e: Entry) => e.createdAt > t }

  function Since(t: int): Entry -> bool { (e: Entry) => e.createdAt >= t }

  /** Filtering commutes with forgetting the order. */
  lemma {:induction false} FilterCounts(rows: seq<Entry>, p: Entry -> bool, e: Entry)
    ensures multiset(Filter(rows, p))[e] == if p(e) then multiset(rows)[e] else 0
  {
    if rows != [] {
      var init, last := rows[..|rows| - 1], rows[|rows| - 1];
      FilterCounts(init, p, e);
      assert rows == init + [last];
    }
  }

  lemma FilterForgetsOrder(a: seq<Entry>, b: seq<Entry>, p: Entry -> bool)
    requires multiset(a) == multiset(b)
    ensures multiset(Filter(a, p)) == multiset(Filter(b, p)) && |Filter(a, p)| == |Filter(b, p)|
  {
    forall e: Entry
      ensures multiset(Filter(a, p))[e] == multiset(Filter(b, p))[e]
    {
      FilterCounts(a, p, e);
      FilterCounts(b, p, e);
    }
    SameLength(Filter(a, p), Filter(b, p));
  }

  /** What holds of newer rows with every row selects a prefix of a descending answer. */
  lemma {:induction false} NewerRowsAreAPrefix(served: seq<Entry>, p: Entry -> bool)
    requires Descending(served)
    requires forall d: Entry, e: Entry :: p(e) && d.createdAt >= e.createdAt ==> p(d)
    ensures |Filter(served, p)| <= |served| && Filter(served, p) == served[..|Filter(served, p)|]
    ensures forall i :: 0 <= i < |served| ==> (p(served[i]) <==> i < |Filter(served, p)|)
  {
    if served != [] {
      var n := |served| - 1;
      var init := served[..n];
      NewerRowsAreAPrefix(init, p);
      if p(served[n]) {
        assert forall i :: 0 <= i < n ==> served[i].createdAt >= served[n].createdAt && p(init[i]);
        assert n > 0 ==> p(init[n - 1]);
        assert Filter(served, p) == init + [served[n]];
      }
    }
  }

  /** The times of an answer do not depend on how the database breaks ties. */
  lemma SameTimes(a: seq<Entry>, b: seq<Entry>, i: nat)
    requires Descending(a) && Descending(b) && multiset(a) == multiset(b) && i < |a|
    ensures |a| == |b| && a[i].createdAt == b[i].createdAt
  {
    SameLength(a, b);
    NewerRowsAreAPrefix(a, Since(a[i].createdAt));
    NewerRowsAreAPrefix(b, Since(a[i].createdAt));
    FilterForgetsOrder(a, b, Since(a[i].createdAt));
    NewerRowsAreAPrefix(a, Since(b[i].createdAt));
    NewerRowsAreAPrefix(b, Since(b[i].createdAt));
    FilterForgetsOrder(a, b, Since(b[i].createdAt));
    assert Since(a[i].createdAt)(a[i]) && Since(b[i].createdAt)(b[i]);
  }

  // ----- page boundaries -----

  /** Some rows of one time come before the first `m` rows end, and some after. */
  ghost predicate TieAt(rows: seq<Entry>, m: int) {
    exists t: int :: |Filter(rows, After(t))| < m < |Filter(rows, Since(t))|
  }

  /** A tie lies across the end of some page. */
  ghost predicate TieAcrossPages(rows: seq<Entry>, pageSize: int) {
    exists k: nat :: k >= 1 && TieAt(rows, k * pageSize)
  }

  lemma TieMeansEqualTimes(served: seq<Entry>, rows: seq<Entry>, m: int)
    requires Arranges(served, rows)
    ensures TieAt(rows, m) <==> 0 < m < |served| && served[m - 1].createdAt == served[m].createdAt
  {
    SameLength(served, rows);
    if t :| |Filter(rows, After(t))| < m < |Filter(rows, Since(t))| {
      NewerRowsAreAPrefix(served, After(t));
      NewerRowsAreAPrefix(served, Since(t));
      FilterForgetsOrder(served, rows, After(t));
      FilterForgetsOrder(served, rows, Since(t));
      assert !After(t)(served[m - 1]) && Since(t)(served[m]);
    }
    if 0 < m < |served| && served[m - 1].createdAt == served[m].createdAt {
      var t := served[m].createdAt;
      NewerRowsAreAPrefix(served, After(t));
      NewerRowsAreAPrefix(served, Since(t));
      FilterForgetsOrder(served, rows, After(t));
      FilterForgetsOrder(served, rows, Since(t));
      assert !After(t)(served[m - 1]) && Since(t)(served[m]);
    }
  }

  /** Where no tie is cut, the same rows come before the cut in every answer. */
  lemma SameRowsBeforeTheCut(a: seq<Entry>, b: seq<Entry>, rows: seq<Entry>, m: nat)
    requires Arranges(a, rows) && Arranges(b, rows) && m <= |rows| && !TieAt(rows, m)
    ensures |a| == |b| == |rows| && multiset(a[..m]) == multiset(b[..m])
  {
    SameLength(a, rows);
    SameLength(b, rows);
    TieMeansEqualTimes(a, rows, m);
    if m == |rows| {
      assert a[..m] == a && b[..m] == b;
    } else if m > 0 {
      var t := a[m - 1].createdAt;
      NewerRowsAreAPrefix(a, Since(t));
      NewerRowsAreAPrefix(b, Since(t));
      FilterForgetsOrder(a, b, Since(t));
      assert Since(t)(a[m - 1]) && !Since(t)(a[m]);
    }
  }

  /** How many rows the first `k` pages hold. */
  function Cut(k: nat, pageSize: int, total: nat): nat
    requires pageSize >= 1
  {
    if k == 0 then 0
    else
      var end := Cut(k - 1, pageSize, total) + pageSize;
      if end <= total then end else total
  }

  lemma {:induction false} CutIsTheBoundary(k: nat, pageSize: int, total: nat)
    requires pageSize >= 1
    ensures Cut(k, pageSize, total) == if k * pageSize <= total then k * pageSize else total
  {
    if k > 0 {
      CutIsTheBoundary(k - 1, pageSize, total);
      assert k * pageSize == (k - 1) * pageSize + pageSize;
    }
  }

  lemma PageIsBetweenCuts(served: seq<Entry>, k: nat, pageSize: int)
    requires pageSize >= 1 && k >= 1
    ensures Cut(k - 1, pageSize, |served|) <= Cut(k, pageSize, |served|) <= |served|
    ensures Page(served, k, pageSize) == served[Cut(k - 1, pageSize, |served|)..Cut(k, pageSize, |served|)]
  {
    CutIsTheBoundary(k - 1, pageSize, |served|);
    CutIsTheBoundary(k, pageSize, |served|);
    assert k * pageSize == (k - 1) * pageSize + pageSize;
    MultiplyMonotone(0, k - 1, pageSize);
  }

  lemma LastCut(total: nat, pageSize: int)
    requires pageSize >= 1
    ensures Cut(PageCount(total, pageSize), pageSize, total) == total
  {
    CutIsTheBoundary(PageCount(total, pageSize), pageSize, total);
    CountRoundsUp(total, pageSize);
  }

  lemma ReadOneMore(answers: nat -> seq<Entry>, total: nat, pageSize: int, n: nat)
    requires pageSize >= 1 && n >= 1 && |answers(n)| == total
    requires |PagesRead(answers, pageSize, n - 1)| == Cut(n - 1, pageSize, total)
    ensures Cut(n - 1, pageSize, total) <= Cut(n, pageSize, total) <= total
    ensures PagesRead(answers, pageSize, n) ==
      PagesRead(answers, pageSize, n - 1) + answers(n)[Cut(n - 1, pageSize, total)..Cut(n, pageSize, total)]
    ensures |PagesRead(answers, pageSize, n)| == Cut(n, pageSize, total)
  {
    PageIsBetweenCuts(answers(n), n, pageSize);
  }

  /** The page that shows the row at position `i`. */
  lemma {:induction false} JoinedAt(pages: nat -> seq<Entry>, n: nat, i: nat) returns (p: nat)
    requires i < |Joined(pages, n)|
    ensures 1 <= p <= n && |Joined(pages, p - 1)| <= i < |Joined(pages, p)|
    ensures Joined(pages, n)[i] == pages(p)[i - |Joined(pages, p - 1)|]
  {
    p := n;
    if i < |Joined(pages, n - 1)| {
      p := JoinedAt(pages, n - 1, i);
    }
  }

  /** The row read at position `i` is the one its page's answer has there. */
  lemma ReadFrom(answers: nat -> seq<Entry>, total: nat, pageSize: int, n: nat, i: nat) returns (p: nat)
    requires pageSize >= 1 && (forall q :: |answers(q)| == total) && i < |PagesRead(answers, pageSize, n)|
    ensures 1 <= p <= n && Cut(p - 1, pageSize, total) <= i < Cut(p, pageSize, total) <= total
    ensures PagesRead(answers, pageSize, n)[i] == answers(p)[i]
  {
    p := JoinedAt(Shown(answers, pageSize), n, i);
    ReadLength(answers, total, pageSize, p - 1);
    ReadLength(answers, total, pageSize, p);
    PageIsBetweenCuts(answers(p), p, pageSize);
  }

  lemma {:induction false} ReadLength(answers: nat -> seq<Entry>, total: nat, pageSize: int, n: nat)
    requires pageSize >= 1 && forall q :: |answers(q)| == total
    ensures |PagesRead(answers, pageSize, n)| == Cut(n, pageSize, total) <= total
  {
    if n > 0 {
      ReadLength(answers, total, pageSize, n - 1);
      ReadOneMore(answers, total, pageSize, n);
    }
  }

  /** Ties or not, what is read is never out of order. */
  lemma ReadInOrder(rows: seq<Entry>, answers: nat -> seq<Entry>, served: seq<Entry>, pageSize: int, n: nat)
    requires Answers(answers, rows) && Arranges(served, rows) && pageSize >= 1
    ensures |PagesRead(answers, pageSize, n)| <= |served|
    ensures forall i: nat :: i < |PagesRead(answers, pageSize, n)| ==>
              PagesRead(answers, pageSize, n)[i].createdAt == served[i].createdAt
  {
    SameLength(served, rows);
    AnswersAreAsLong(answers, rows);
    ReadLength(answers, |rows|, pageSize, n);
    forall i: nat | i < |PagesRead(answers, pageSize, n)|
      ensures PagesRead(answers, pageSize, n)[i].createdAt == served[i].createdAt
    {
      var p := ReadFrom(answers, |rows|, pageSize, n, i);
      SameTimes(answers(p), served, i);
    }
  }

  lemma AnswersAreAsLong(answers: nat -> seq<Entry>, rows: seq<Entry>)
    requires Answers(answers, rows)
    ensures forall p :: |answers(p)| == |rows|
  {
    forall p
      ensures |answers(p)| == |rows|
    {
      SameLength(answers(p), rows);
    }
  }

  /** Without a tie across a page end, the first pages always hold the same rows. */
  lemma {:induction false} ReadWithoutLoss(rows: seq<Entry>, answers: nat -> seq<Entry>, served: seq<Entry>, pageSize: int, n: nat)
    requires Answers(answers, rows) && Arranges(served, rows) && pageSize >= 1 && !TieAcrossPages(rows, pageSize)
    ensures |served| == |rows| && Cut(n, pageSize, |rows|) <= |rows|
    ensures multiset(PagesRead(answers, pageSize, n)) == multiset(served[..Cut(n, pageSize, |rows|)])
  {
    SameLength(served, rows);
    if n > 0 {
      ReadWithoutLoss(rows, answers, served, pageSize, n - 1);
      var answer, from, to := answers(n), Cut(n - 1, pageSize, |rows|), Cut(n, pageSize, |rows|);
      SameLength(answer, rows);
      PageIsBetweenCuts(answer, n, pageSize);
      NoTieAtCut(rows, pageSize, n - 1);
      NoTieAtCut(rows, pageSize, n);
      SameRowsBeforeTheCut(answer, served, rows, from);
      SameRowsBeforeTheCut(answer, served, rows, to);
      assert answer[..to] == answer[..from] + answer[from..to];
    }
  }

  lemma EveryRowIsRead(rows: seq<Entry>, answers: nat -> seq<Entry>, pageSize: int)
    requires Answers(answers, rows) && pageSize >= 1 && !TieAcrossPages(rows, pageSize)
    ensures Arranges(PagesRead(answers, pageSize, PageCount(|rows|, pageSize)), rows)
  {
    var served := SomeArrangement(rows);
    var n := PageCount(|rows|, pageSize);
    LastCut(|rows|, pageSize);
    ReadWithoutLoss(rows, answers, served, pageSize, n);
    assert served[..|rows|] == served;
    var read := PagesRead(answers, pageSize, n);
    SameLength(read, rows);
    ReadInOrder(rows, answers, served, pageSize, n);
  }

  lemma NoTieAtCut(rows: seq<Entry>, pageSize: int, k: nat)
    requires pageSize >= 1 && !TieAcrossPages(rows, pageSize)
    ensures Cut(k, pageSize, |rows|) <= |rows| && !TieAt(rows, Cut(k, pageSize, |rows|))
  {
    CutIsTheBoundary(k, pageSize, |rows|);
    var served := SomeArrangement(rows);
    SameLength(served, rows);
    TieMeansEqualTimes(served, rows, Cut(k, pageSize, |rows|));
    if k >= 1 && k * pageSize <= |rows| {
      assert !TieAt(rows, k * pageSize);
    }
  }

  // ----- rows are told apart by their ids -----

  predicate DistinctIDs(rows: seq<Entry>) {
    forall i, j :: 0 <= i < j < |rows| ==> rows[i].id != rows[j].id
  }

  /** Whatever has been saved, the rows that a query wants have ids of their own. */
  lemma {:induction false} WantedRowsHaveDistinctIDs(rows: seq<Entry>, p: Entry -> bool)
    requires Numbered(rows)
    ensures DistinctIDs(Filter(rows, p)) && forall e :: e in Filter(rows, p) ==> 1 <= e.id <= |rows|
  {
    if rows != [] {
      WantedRowsHaveDistinctIDs(rows[..|rows| - 1], p);
    }
  }

  lemma {:induction false} DistinctRowsCountOnce(rows: seq<Entry>, e: Entry)
    requires DistinctIDs(rows)
    ensures multiset(rows)[e] <= 1
  {
    if rows != [] {
      var init, last := rows[..|rows| - 1], rows[|rows| - 1];
      DistinctRowsCountOnce(init, e);
      assert rows == init + [last];
      if e == last {
        assert e !in init;
      }
    }
  }

  lemma SeenTwiceCountsTwice(s: seq<Entry>, i: nat, j: nat)
    requires i < j < |s| && s[i] == s[j]
    ensures multiset(s)[s[i]] >= 2
  {
    assert s == s[..j] + [s[j]] + s[j + 1..];
    assert s[..j][i] == s[i];
    assert s[i] in multiset(s[..j]);
  }

  /** The pages up to `k` from one answer, and the later ones from another. */
  function Switching(first: seq<Entry>, second: seq<Entry>, k: nat): nat -> seq<Entry> {
    (p: nat) => if p <= k then first else second
  }

  lemma {:induction false} CutGrows(k: nat, n: nat, pageSize: int, total: nat)
    requires pageSize >= 1 && k <= n
    ensures Cut(k, pageSize, total) <= Cut(n, pageSize, total) <= total
  {
    if k < n {
      CutGrows(k, n - 1, pageSize, total);
    } else {
      CutIsTheBoundary(n, pageSize, total);
    }
  }

  /** Up to the end of page `k` the first answer is read, and behind it the second. */
  lemma SwitchedRead(first: seq<Entry>, second: seq<Entry>, k: nat, pageSize: int, n: nat, i: nat)
    requires |first| == |second| && pageSize >= 1 && i < Cut(n, pageSize, |first|)
    ensures var read := PagesRead(Switching(first, second, k), pageSize, n);
      i < |read| && i < |first| && read[i] == if i < Cut(k, pageSize, |first|) then first[i] else second[i]
  {
    var answers, total := Switching(first, second, k), |first|;
    ReadLength(answers, total, pageSize, n);
    var p := ReadFrom(answers, total, pageSize, n, i);
    if p <= k {
      CutGrows(p, k, pageSize, total);
    } else {
      CutGrows(k, p - 1, pageSize, total);
    }
  }

  lemma SwitchedReadRepeats(first: seq<Entry>, second: seq<Entry>, k: nat, pageSize: int, n: nat, m: nat)
    requires |first| == |second| && pageSize >= 1
    requires Cut(n, pageSize, |first|) == |first| && Cut(k, pageSize, |first|) == m && 0 < m < |first|
    requires first[m - 1] == second[m]
    ensures multiset(PagesRead(Switching(first, second, k), pageSize, n))[second[m]] >= 2
  {
    SwitchedRead(first, second, k, pageSize, n, m - 1);
    SwitchedRead(first, second, k, pageSize, n, m);
    SeenTwiceCountsTwice(PagesRead(Switching(first, second, k), pageSize, n), m - 1, m);
  }

  /** A tie across the end of page `k` can show one row on pages `k` and `k + 1` and hide another: two
      answers suffice, one for the pages up to `k` and one for the rest. */
  lemma TieAcrossPagesLosesRows(rows: seq<Entry>, pageSize: int) returns (answers: nat -> seq<Entry>)
    requires pageSize >= 1 && DistinctIDs(rows) && TieAcrossPages(rows, pageSize)
    ensures Answers(answers, rows)
    ensures multiset(PagesRead(answers, pageSize, PageCount(|rows|, pageSize))) != multiset(rows)
  {
    var k: nat :| k >= 1 && TieAt(rows, k * pageSize);
    var m := k * pageSize;
    var first := SomeArrangement(rows);
    SameLength(first, rows);
    TieMeansEqualTimes(first, rows, m);
    var second := SwapTied(first, m - 1);
    answers := Switching(first, second, k);
    CutIsTheBoundary(k, pageSize, |rows|);
    LastCut(|rows|, pageSize);
    SwitchedReadRepeats(first, second, k, pageSize, PageCount(|rows|, pageSize), m);
    DistinctRowsCountOnce(rows, second[m]);
  }

  /** Such answers: of two rows of one time, read on pages of one, the first is shown twice. */
  lemma FirstOfTwoShownTwice(first: Entry, second: Entry)
    requires first == Entry(1, "", 1, "", 0) && second == Entry(2, "", 1, "", 0)
    ensures var rows, answers := [first, second], Switching([first, second], [second, first], 1);
      && DistinctIDs(rows) && TieAcrossPages(rows, 1) && Answers(answers, rows) && PageCount(|rows|, 1) == 2
      && PagesRead(answers, 1, 2) == [first, first]
  {
    var rows, answers := [first, second], Switching([first, second], [second, first], 1);
    assert multiset([second, first]) == multiset(rows);
    TieMeansEqualTimes(rows, rows, 1);
    assert TieAt(rows, 1 * 1);
    assert Joined(Shown(answers, 1), 2) == Page(rows, 1, 1) + Page([second, first], 2, 1) by {
      assert Joined(Shown(answers, 1), 1) == Page(rows, 1, 1);
    }
    assert Page(rows, 1, 1) == [first] && Page([second, first], 2, 1) == [first];
  }

  /** While nothing is saved: page by page, read by separate queries, every wanted row is delivered exactly once,
      newest first and however the database breaks ties, exactly when no tie lies across the end of a page. */
  lemma SeparatePagesFitExactly(rows: seq<Entry>, pageSize: int)
    requires pageSize >= 1 && DistinctIDs(rows)
    ensures !TieAcrossPages(rows, pageSize) <==>
      forall answers: nat -> seq<Entry> :: Answers(answers, rows) ==>
        Arranges(PagesRead(answers, pageSize, PageCount(|rows|, pageSize)), rows)
  {
    if TieAcrossPages(rows, pageSize) {
      var answers := TieAcrossPagesLosesRows(rows, pageSize);
    } else {
      forall answers: nat -> seq<Entry> | Answers(answers, rows)
        ensures Arranges(PagesRead(answers, pageSize, PageCount(|rows|, pageSize)), rows)
      {
        EveryRowIsRead(rows, answers, pageSize);
      }
    }
  }
}
