/** Reading the audit log page by page while entries are being saved. */
module AuditGrowth {
  import opened Sequences
  import opened AuditLog
  import opened AuditPaging

  // ----- a growing table -----

  /** The wanted rows at the time of each query: entries are only ever added at the end. */
  ghost predicate Grows(tables: nat -> seq<Entry>) {
    forall p: nat, q: nat :: p <= q ==> tables(p) <= tables(q)
  }

  /** Saving entries adds the wanted ones to the wanted rows. */
  lemma {:induction false} WantedRowsGrow(rows: seq<Entry>, saved: seq<Entry>, p: Entry -> bool)
    ensures Filter(rows + saved, p) == Filter(rows, p) + Filter(saved, p)
  {
    if saved == [] {
      assert rows + saved == rows;
    } else {
      var init, last := saved[..|saved| - 1], saved[|saved| - 1];
      WantedRowsGrow(rows, init, p);
      assert (rows + saved)[..|rows + saved| - 1] == rows + init;
    }
  }

  /** Each query is answered with some arrangement of the rows that are there by then. */
  ghost predicate AnswersThen(answers: nat -> seq<Entry>, tables: nat -> seq<Entry>) {
    forall p :: Arranges(answers(p), tables(p))
  }

  lemma FilterOfPrefix(a: seq<Entry>, b: seq<Entry>, p: Entry -> bool)
    requires a <= b
    ensures Filter(b, p) == Filter(a, p) + Filter(b[|a|..], p)
  {
    assert b == a + b[|a|..];
    WantedRowsGrow(a, b[|a|..], p);
  }

  // ----- where the pages fit -----

  /** The first `m` rows of the last table are those since `t`, and they were there at query `k`. */
  ghost predicate SettledSince(tables: nat -> seq<Entry>, k: nat, n: nat, m: nat, t: int) {
    |Filter(tables(k), Since(t))| == |Filter(tables(n), Since(t))| == m
  }

  /** Then they come first in every answer from query `k` on. */
  lemma SettledRowsComeFirst(tables: nat -> seq<Entry>, k: nat, q: nat, n: nat, m: nat, t: int, a: seq<Entry>, last: seq<Entry>)
    requires Grows(tables) && k <= q <= n && SettledSince(tables, k, n, m, t)
    requires Arranges(a, tables(q)) && Arranges(last, tables(n))
    ensures m <= |a| && m <= |last| && multiset(a[..m]) == multiset(last[..m])
  {
    FilterOfPrefix(tables(k), tables(q), Since(t));
    FilterOfPrefix(tables(q), tables(n), Since(t));
    assert Filter(tables(q), Since(t)) == Filter(tables(n), Since(t));
    NewerRowsAreAPrefix(a, Since(t));
    NewerRowsAreAPrefix(last, Since(t));
    FilterForgetsOrder(a, tables(q), Since(t));
    FilterForgetsOrder(last, tables(n), Since(t));
  }

  /** At the end of every page but the last, some time separates the rows that are settled by then. */
  ghost predicate AlwaysSettled(tables: nat -> seq<Entry>, pageSize: int, n: nat) {
    forall k: nat :: 1 <= k < n ==> SettledAt(tables, pageSize, k, n)
  }

  ghost predicate SettledAt(tables: nat -> seq<Entry>, pageSize: int, k: nat, n: nat) {
    k * pageSize >= 0 && exists t :: SettledSince(tables, k, n, k * pageSize, t)
  }

  /** The reader goes on until the total that comes with the last answer is read. */
  predicate ReadsAll(tables: nat -> seq<Entry>, pageSize: int, n: nat)
    requires pageSize >= 1
  {
    n == PageCount(|tables(n)|, pageSize)
  }

  lemma CutBeforeLast(tables: nat -> seq<Entry>, pageSize: int, k: nat, n: nat)
    requires pageSize >= 1 && ReadsAll(tables, pageSize, n) && k <= n
    ensures Cut(k, pageSize, |tables(n)|) == if k < n then k * pageSize else |tables(n)|
    ensures k < n ==> k * pageSize < |tables(n)|
  {
    var total := |tables(n)|;
    CutIsTheBoundary(k, pageSize, total);
    LastCut(total, pageSize);
    CountRoundsUp(total, pageSize);
    if k < n {
      MultiplyMonotone(k, n - 1, pageSize);
    }
  }

  /** The answer to query `p` has the rows of the final order up to either end of page `p`. */
  lemma AnswerAgrees(tables: nat -> seq<Entry>, answers: nat -> seq<Entry>, last: seq<Entry>, pageSize: int, p: nat, n: nat, k: nat)
    requires Grows(tables) && AnswersThen(answers, tables) && Arranges(last, tables(n)) && pageSize >= 1
    requires ReadsAll(tables, pageSize, n) && AlwaysSettled(tables, pageSize, n) && 1 <= p <= n && p - 1 <= k <= p
    ensures var cut := Cut(k, pageSize, |tables(n)|);
      cut <= |answers(p)| && cut <= |last| && multiset(answers(p)[..cut]) == multiset(last[..cut])
  {
    CutBeforeLast(tables, pageSize, k, n);
    SameLength(last, tables(n));
    SameLength(answers(p), tables(p));
    if k == n {
      assert answers(p)[..|tables(n)|] == answers(p) && last[..|tables(n)|] == last;
    } else if k > 0 {
      assert SettledAt(tables, pageSize, k, n);
      var t :| SettledSince(tables, k, n, k * pageSize, t);
      SettledRowsComeFirst(tables, k, p, n, k * pageSize, t, answers(p), last);
    } else {
      assert k * pageSize == 0;
    }
  }

  /** So page `p` shows the rows between its ends. */
  lemma PageOfAnswer(answer: seq<Entry>, p: nat, pageSize: int, total: nat)
    requires pageSize >= 1 && p >= 1 && Cut(p, pageSize, total) <= |answer|
    requires |answer| == total || Cut(p, pageSize, total) == p * pageSize
    ensures Cut(p - 1, pageSize, total) <= Cut(p, pageSize, total)
    ensures Page(answer, p, pageSize) == answer[Cut(p - 1, pageSize, total)..Cut(p, pageSize, total)]
  {
    PageIsBetweenCuts(answer, p, pageSize);
    CutIsTheBoundary(p, pageSize, total);
    CutIsTheBoundary(p - 1, pageSize, total);
    CutIsTheBoundary(p, pageSize, |answer|);
    CutIsTheBoundary(p - 1, pageSize, |answer|);
    assert p * pageSize == (p - 1) * pageSize + pageSize;
  }

  /** What is read up to query `p` are the first rows of the final order, and in order. */
  ghost predicate ReadsFirst(read: seq<Entry>, last: seq<Entry>, cut: nat) {
    && |read| == cut <= |last| && multiset(read) == multiset(last[..cut])
    && forall i :: 0 <= i < cut ==> read[i].createdAt == last[i].createdAt
  }

  /** A page shows the rows of the final order between its ends, as some answer has them. */
  ghost predicate PageFits(page: seq<Entry>, a: seq<Entry>, last: seq<Entry>, from: nat, to: nat) {
    && from <= to <= |a| && to <= |last| && Descending(a) && page == a[from..to]
    && multiset(a[..from]) == multiset(last[..from]) && multiset(a[..to]) == multiset(last[..to])
  }

  lemma ReadsOneMorePage(read: seq<Entry>, page: seq<Entry>, a: seq<Entry>, last: seq<Entry>, from: nat, to: nat)
    requires ReadsFirst(read, last, from) && PageFits(page, a, last, from, to) && Descending(last)
    ensures ReadsFirst(read + page, last, to)
  {
    assert a[..to] == a[..from] + a[from..to];
    assert multiset(read + page) == multiset(a[..from]) + multiset(a[from..to]);
    forall i | from <= i < to
      ensures a[i].createdAt == last[i].createdAt
    {
      SameTimes(a[..to], last[..to], i);
    }
  }

  lemma {:induction false} FittingPagesFit(pages: nat -> seq<Entry>, answers: nat -> seq<Entry>, last: seq<Entry>, cuts: nat -> nat, n: nat)
    requires Descending(last) && cuts(0) == 0
    requires forall p: nat :: 1 <= p <= n ==> PageFits(pages(p), answers(p), last, cuts(p - 1), cuts(p))
    ensures ReadsFirst(Joined(pages, n), last, cuts(n))
  {
    if n > 0 {
      FittingPagesFit(pages, answers, last, cuts, n - 1);
      ReadsOneMorePage(Joined(pages, n - 1), pages(n), answers(n), last, cuts(n - 1), cuts(n));
    }
  }

  lemma SettledPageFits(tables: nat -> seq<Entry>, answers: nat -> seq<Entry>, last: seq<Entry>, pageSize: int, p: nat, n: nat)
    requires Grows(tables) && AnswersThen(answers, tables) && Arranges(last, tables(n)) && pageSize >= 1
    requires ReadsAll(tables, pageSize, n) && AlwaysSettled(tables, pageSize, n) && 1 <= p <= n
    ensures PageFits(Shown(answers, pageSize)(p), answers(p), last,
                     Cut(p - 1, pageSize, |tables(n)|), Cut(p, pageSize, |tables(n)|))
  {
    AnswerAgrees(tables, answers, last, pageSize, p, n, p - 1);
    AnswerAgrees(tables, answers, last, pageSize, p, n, p);
    CutBeforeLast(tables, pageSize, p, n);
    SameLength(answers(n), tables(n));
    PageOfAnswer(answers(p), p, pageSize, |tables(n)|);
  }

  lemma SettledReadingFits(tables: nat -> seq<Entry>, answers: nat -> seq<Entry>, pageSize: int, n: nat)
    requires Grows(tables) && AnswersThen(answers, tables) && pageSize >= 1
    requires ReadsAll(tables, pageSize, n) && AlwaysSettled(tables, pageSize, n)
    ensures Arranges(PagesRead(answers, pageSize, n), tables(n))
  {
    var last := SomeArrangement(tables(n));
    var cuts := (p: nat) => Cut(p, pageSize, |tables(n)|);
    forall p: nat | 1 <= p <= n
      ensures PageFits(Shown(answers, pageSize)(p), answers(p), last, cuts(p - 1), cuts(p))
    {
      SettledPageFits(tables, answers, last, pageSize, p, n);
    }
    FittingPagesFit(Shown(answers, pageSize), answers, last, cuts, n);
    CutBeforeLast(tables, pageSize, n, n);
    SameLength(last, tables(n));
    assert last[..|last|] == last;
  }

  // ----- and where they do not -----

  lemma {:induction false} JoinedLength(pages: nat -> seq<Entry>, pageSize: int, k: nat, n: nat)
    requires pageSize >= 1 && k <= n && forall p: nat :: 1 <= p ==> |pages(p)| <= pageSize
    ensures |Joined(pages, k)| <= |Joined(pages, n)| <= |Joined(pages, k)| + (n - k) * pageSize
  {
    if k < n {
      JoinedLength(pages, pageSize, k, n - 1);
      assert (n - k) * pageSize == (n - 1 - k) * pageSize + pageSize;
    } else {
      assert (n - k) * pageSize == 0;
    }
  }

  lemma {:induction false} JoinedIsAPrefix(pages: nat -> seq<Entry>, k: nat, n: nat)
    requires k <= n
    ensures Joined(pages, k) <= Joined(pages, n)
  {
    if k < n {
      JoinedIsAPrefix(pages, k, n - 1);
    }
  }

  lemma PageIsShort(answer: seq<Entry>, p: nat, pageSize: int)
    requires pageSize >= 1 && p >= 1
    ensures |Page(answer, p, pageSize)| <= pageSize
    ensures forall e :: e in Page(answer, p, pageSize) ==> e in answer
    ensures (p - 1) * pageSize <= |answer| <= p * pageSize ==> |Page(answer, p, pageSize)| == |answer| - (p - 1) * pageSize
    ensures |Page(answer, p, pageSize)| > 0 ==>
      0 <= (p - 1) * pageSize < |answer| && Page(answer, p, pageSize)[0] == answer[(p - 1) * pageSize]
  {
    MultiplyMonotone(0, p - 1, pageSize);
    assert p * pageSize == (p - 1) * pageSize + pageSize;
  }

  /** If everything is read in the end, every page but the last was full. */
  lemma PagesWereFull(tables: nat -> seq<Entry>, answers: nat -> seq<Entry>, pageSize: int, k: nat, n: nat)
    requires AnswersThen(answers, tables) && pageSize >= 1 && ReadsAll(tables, pageSize, n) && 1 <= k < n
    requires |PagesRead(answers, pageSize, n)| == |tables(n)|
    ensures |PagesRead(answers, pageSize, k)| == k * pageSize < |tables(n)|
  {
    var pages := Shown(answers, pageSize);
    forall p: nat | 1 <= p
      ensures |pages(p)| <= pageSize
    {
      PageIsShort(answers(p), p, pageSize);
    }
    SameLength(answers(n), tables(n));
    CountRoundsUp(|tables(n)|, pageSize);
    PageIsShort(answers(n), n, pageSize);
    LastPageIsLast(pages, |tables(n)|, pageSize, k, n);
    CutBeforeLast(tables, pageSize, k, n);
  }

  lemma LastPageIsLast(pages: nat -> seq<Entry>, total: nat, pageSize: int, k: nat, n: nat)
    requires pageSize >= 1 && 1 <= k < n && forall p: nat :: 1 <= p ==> |pages(p)| <= pageSize
    requires |Joined(pages, n)| == total && |pages(n)| == total - (n - 1) * pageSize
    ensures |Joined(pages, k)| == k * pageSize
  {
    JoinedLength(pages, pageSize, 0, k);
    JoinedLength(pages, pageSize, k, n - 1);
    assert |Joined(pages, n - 1)| == (n - 1) * pageSize;
    assert (n - 1 - k) * pageSize == (n - 1) * pageSize - k * pageSize;
  }

  /** What the first `k` pages show was there by query `k`. */
  lemma {:induction false} ShownWasThere(tables: nat -> seq<Entry>, answers: nat -> seq<Entry>, pageSize: int, k: nat, e: Entry)
    requires Grows(tables) && AnswersThen(answers, tables) && pageSize >= 1 && e in PagesRead(answers, pageSize, k)
    ensures e in tables(k)
  {
    if e in PagesRead(answers, pageSize, k - 1) {
      ShownWasThere(tables, answers, pageSize, k - 1, e);
      assert tables(k - 1) <= tables(k);
    } else {
      PageIsShort(answers(k), k, pageSize);
      assert e in multiset(answers(k));
    }
  }

  /** Different rows that were there by query `k` come first in the end, up to a time: they are settled. */
  lemma StrictEndIsSettled(tables: nat -> seq<Entry>, read: seq<Entry>, m: nat, k: nat, n: nat)
    requires Grows(tables) && k <= n && Arranges(read, tables(n)) && DistinctIDs(tables(n)) && 0 < m < |read|
    requires read[m].createdAt < read[m - 1].createdAt && forall e :: e in read[..m] ==> e in tables(k)
    ensures SettledSince(tables, k, n, m, read[m - 1].createdAt)
  {
    var t := read[m - 1].createdAt;
    NewerRowsAreAPrefix(read, Since(t));
    assert Since(t)(read[m - 1]) && !Since(t)(read[m]);
    FilterForgetsOrder(read, tables(n), Since(t));
    FilterOfPrefix(tables(k), tables(n), Since(t));
    forall e: Entry
      ensures multiset(read[..m])[e] <= multiset(Filter(tables(k), Since(t)))[e]
    {
      FilterCounts(tables(k), Since(t), e);
      DistinctRowsCountOnce(tables(n), e);
      assert read == read[..m] + read[m..];
      if e in read[..m] {
        var i :| 0 <= i < m && read[i] == e;
        assert e in multiset(tables(k));
      }
    }
    assert multiset(read[..m]) <= multiset(Filter(tables(k), Since(t)));
    SmallerIsShorter(multiset(read[..m]), multiset(Filter(tables(k), Since(t))));
  }

  lemma SmallerIsShorter(a: multiset<Entry>, b: multiset<Entry>)
    requires a <= b
    ensures |a| <= |b|
  {
    assert b == a + (b - a);
  }

  lemma SwappedPage(a: seq<Entry>, m: nat, p: nat, pageSize: int)
    requires pageSize >= 1 && p >= 1 && m == (p - 1) * pageSize && 1 <= m < |a|
    ensures |Page(a, p, pageSize)| > 0
    ensures Page(a[m - 1 := a[m]][m := a[m - 1]], p, pageSize) == Page(a, p, pageSize)[0 := a[m - 1]]
  {
    assert a[m - 1 := a[m]][m := a[m - 1]][m..] == a[m..][0 := a[m - 1]];
  }

  lemma {:induction false} JoinedChange(pages: nat -> seq<Entry>, others: nat -> seq<Entry>, k: nat, n: nat, z: Entry)
    requires k < n && |pages(k + 1)| > 0 && others(k + 1) == pages(k + 1)[0 := z]
    requires forall p: nat :: p != k + 1 ==> others(p) == pages(p)
    ensures |Joined(pages, k)| < |Joined(pages, n)| && Joined(others, n) == Joined(pages, n)[|Joined(pages, k)| := z]
  {
    if k + 1 < n {
      JoinedChange(pages, others, k, n - 1, z);
    } else {
      SamePagesJoined(pages, others, k);
    }
  }

  lemma {:induction false} SamePagesJoined(pages: nat -> seq<Entry>, others: nat -> seq<Entry>, k: nat)
    requires forall p: nat :: p <= k ==> others(p) == pages(p)
    ensures Joined(others, k) == Joined(pages, k)
  {
    if k > 0 {
      SamePagesJoined(pages, others, k - 1);
    }
  }

  /** The first row of page `k + 1`, when everything is read. */
  lemma FirstOfNextPage(tables: nat -> seq<Entry>, answers: nat -> seq<Entry>, pageSize: int, k: nat, n: nat)
    requires AnswersThen(answers, tables) && pageSize >= 1 && ReadsAll(tables, pageSize, n) && 1 <= k < n
    requires |PagesRead(answers, pageSize, n)| == |tables(n)|
    ensures var m := k * pageSize;
      && 1 <= m == |PagesRead(answers, pageSize, k)| < |answers(k + 1)| && m < |tables(n)|
      && PagesRead(answers, pageSize, n)[m] == answers(k + 1)[m]
      && |Shown(answers, pageSize)(k + 1)| > 0
  {
    PagesWereFull(tables, answers, pageSize, k, n);
    NextPageIsLonger(tables, answers, pageSize, k, n);
    MultiplyMonotone(1, k, pageSize);
    NextPageStarts(Shown(answers, pageSize), k, n);
    PageIsShort(answers(k + 1), k + 1, pageSize);
  }

  lemma NextPageIsLonger(tables: nat -> seq<Entry>, answers: nat -> seq<Entry>, pageSize: int, k: nat, n: nat)
    requires AnswersThen(answers, tables) && pageSize >= 1 && ReadsAll(tables, pageSize, n) && 1 <= k < n
    requires |PagesRead(answers, pageSize, n)| == |tables(n)|
    ensures |PagesRead(answers, pageSize, k + 1)| > k * pageSize
  {
    PagesWereFull(tables, answers, pageSize, k, n);
    if k + 1 < n {
      PagesWereFull(tables, answers, pageSize, k + 1, n);
      MultiplyStep(k, pageSize);
    }
  }

  lemma MultiplyStep(k: int, s: int)
    ensures (k + 1) * s == k * s + s
  {
  }

  lemma NextPageStarts(pages: nat -> seq<Entry>, k: nat, n: nat)
    requires k < n && |Joined(pages, k)| < |Joined(pages, k + 1)|
    ensures |pages(k + 1)| > 0 && |Joined(pages, k)| < |Joined(pages, n)|
    ensures Joined(pages, n)[|Joined(pages, k)|] == pages(k + 1)[0]
  {
    JoinedIsAPrefix(pages, k + 1, n);
  }

  /** Rows of one time at the end of page `k` are of one time in the next answer as well. */
  lemma TieIsInNextAnswer(tables: nat -> seq<Entry>, a: seq<Entry>, read: seq<Entry>, m: nat, q: nat, n: nat)
    requires Grows(tables) && q <= n && Arranges(a, tables(q)) && Arranges(read, tables(n))
    requires 1 <= m < |a| && m < |read| && read[m] == a[m] && read[m - 1].createdAt == read[m].createdAt
    ensures a[m - 1].createdAt == a[m].createdAt
  {
    var t := a[m].createdAt;
    NewerRowsAreAPrefix(a, After(t));
    NewerRowsAreAPrefix(read, After(t));
    FilterForgetsOrder(a, tables(q), After(t));
    FilterForgetsOrder(read, tables(n), After(t));
    FilterOfPrefix(tables(q), tables(n), After(t));
    assert !After(t)(read[m - 1]) && a[m - 1].createdAt >= t;
  }

  /** Then the next query can as well be answered so that what is read does not fit. */
  lemma TieSpoilsReading(tables: nat -> seq<Entry>, answers: nat -> seq<Entry>, pageSize: int, k: nat, n: nat)
    returns (others: nat -> seq<Entry>)
    requires Grows(tables) && AnswersThen(answers, tables) && pageSize >= 1 && ReadsAll(tables, pageSize, n) && 1 <= k < n
    requires DistinctIDs(tables(n)) && Arranges(PagesRead(answers, pageSize, n), tables(n))
    requires |tables(n)| == |PagesRead(answers, pageSize, n)| > k * pageSize >= 1
    requires PagesRead(answers, pageSize, n)[k * pageSize - 1].createdAt == PagesRead(answers, pageSize, n)[k * pageSize].createdAt
    ensures AnswersThen(others, tables) && !Arranges(PagesRead(others, pageSize, n), tables(n))
  {
    var m, a, read := k * pageSize, answers(k + 1), PagesRead(answers, pageSize, n);
    FirstOfNextPage(tables, answers, pageSize, k, n);
    TieIsInNextAnswer(tables, a, read, m, k + 1, n);
    var swapped := SwapTied(a, m - 1);
    others := With(answers, k + 1, swapped);
    SwappedRead(answers, pageSize, k, n, m, swapped);
    OneRowReplaced(read, m, a[m - 1]);
    RowsAreDifferent(tables, a, m, k + 1, n);
  }

  function With(answers: nat -> seq<Entry>, q: nat, answer: seq<Entry>): nat -> seq<Entry> {
    (p: nat) => if p == q then answer else answers(p)
  }

  lemma SwappedRead(answers: nat -> seq<Entry>, pageSize: int, k: nat, n: nat, m: nat, swapped: seq<Entry>)
    requires pageSize >= 1 && k < n && m == k * pageSize && 1 <= m < |answers(k + 1)|
    requires swapped == answers(k + 1)[m - 1 := answers(k + 1)[m]][m := answers(k + 1)[m - 1]]
    requires |PagesRead(answers, pageSize, k)| == m
    ensures m < |PagesRead(answers, pageSize, n)|
    ensures PagesRead(With(answers, k + 1, swapped), pageSize, n) == PagesRead(answers, pageSize, n)[m := answers(k + 1)[m - 1]]
  {
    SwappedPage(answers(k + 1), m, k + 1, pageSize);
    JoinedChange(Shown(answers, pageSize), Shown(With(answers, k + 1, swapped), pageSize), k, n, answers(k + 1)[m - 1]);
  }

  lemma OneRowReplaced(read: seq<Entry>, m: nat, z: Entry)
    requires m < |read|
    ensures multiset(read[m := z]) == multiset(read) <==> z == read[m]
  {
    assert multiset(read[m := z]) == multiset(read) - multiset{read[m]} + multiset{z};
  }

  lemma RowsAreDifferent(tables: nat -> seq<Entry>, a: seq<Entry>, m: nat, q: nat, n: nat)
    requires Grows(tables) && q <= n && DistinctIDs(tables(n)) && Arranges(a, tables(q)) && 1 <= m < |a|
    ensures a[m - 1] != a[m]
  {
    assert tables(q) <= tables(n);
    DistinctRowsCountOnce(tables(q), a[m]);
    if a[m - 1] == a[m] {
      SeenTwiceCountsTwice(a, m - 1, m);
    }
  }

  // ----- the exact condition -----

  /** No entry that is saved after query `k` sorts before the first `m` rows of the final order end. */
  ghost predicate SavedBehind(tables: nat -> seq<Entry>, k: nat, n: nat, m: int) {
    forall i :: |tables(k)| <= i < |tables(n)| ==> |Filter(tables(n), After(tables(n)[i].createdAt))| >= m
  }

  /** At the end of no page but the last is there a tie, or sorts an entry before it that is saved later. */
  ghost predicate NothingCrosses(tables: nat -> seq<Entry>, pageSize: int, n: nat) {
    forall k: nat :: 1 <= k < n ==> !TieAt(tables(n), k * pageSize) && SavedBehind(tables, k, n, k * pageSize)
  }

  lemma SettledIsBehind(tables: nat -> seq<Entry>, k: nat, n: nat, m: nat, t: int)
    requires Grows(tables) && k <= n && 0 < m < |tables(n)| && SettledSince(tables, k, n, m, t)
    ensures !TieAt(tables(n), m) && SavedBehind(tables, k, n, m)
  {
    var last := SomeArrangement(tables(n));
    SameLength(last, tables(n));
    NewerRowsAreAPrefix(last, Since(t));
    FilterForgetsOrder(last, tables(n), Since(t));
    TieMeansEqualTimes(last, tables(n), m);
    FilterOfPrefix(tables(k), tables(n), Since(t));
    forall i | |tables(k)| <= i < |tables(n)|
      ensures |Filter(tables(n), After(tables(n)[i].createdAt))| >= m
    {
      var e := tables(n)[i];
      NothingSelected(tables(n)[|tables(k)|..], Since(t), i - |tables(k)|);
      NewerRowsAreAPrefix(last, After(e.createdAt));
      FilterForgetsOrder(last, tables(n), After(e.createdAt));
      assert After(e.createdAt)(last[m - 1]);
    }
  }

  lemma NothingSelected(rows: seq<Entry>, p: Entry -> bool, i: nat)
    requires Filter(rows, p) == [] && i < |rows|
    ensures !p(rows[i])
  {
    FilterCounts(rows, p, rows[i]);
    assert rows[i] in multiset(rows);
  }

  lemma {:induction false} NoneSelected(rows: seq<Entry>, p: Entry -> bool)
    requires forall i :: 0 <= i < |rows| ==> !p(rows[i])
    ensures Filter(rows, p) == []
  {
    if rows != [] {
      NoneSelected(rows[..|rows| - 1], p);
    }
  }

  lemma BehindIsSettled(tables: nat -> seq<Entry>, k: nat, n: nat, m: nat)
    requires Grows(tables) && k <= n && 0 < m < |tables(n)| && !TieAt(tables(n), m) && SavedBehind(tables, k, n, m)
    ensures exists t :: SettledSince(tables, k, n, m, t)
  {
    var last := SomeArrangement(tables(n));
    SameLength(last, tables(n));
    TieMeansEqualTimes(last, tables(n), m);
    var t := last[m - 1].createdAt;
    NewerRowsAreAPrefix(last, Since(t));
    FilterForgetsOrder(last, tables(n), Since(t));
    assert Since(t)(last[m - 1]) && !Since(t)(last[m]);
    var saved := tables(n)[|tables(k)|..];
    forall i | 0 <= i < |saved|
      ensures !Since(t)(saved[i])
    {
      var e := tables(n)[|tables(k)| + i];
      NewerRowsAreAPrefix(last, After(e.createdAt));
      FilterForgetsOrder(last, tables(n), After(e.createdAt));
      assert After(e.createdAt)(last[m - 1]);
    }
    NoneSelected(saved, Since(t));
    FilterOfPrefix(tables(k), tables(n), Since(t));
    assert SettledSince(tables, k, n, m, t);
  }

  lemma NothingCrossesMeansSettled(tables: nat -> seq<Entry>, pageSize: int, n: nat)
    requires Grows(tables) && pageSize >= 1 && ReadsAll(tables, pageSize, n)
    ensures NothingCrosses(tables, pageSize, n) <==> AlwaysSettled(tables, pageSize, n)
  {
    forall k: nat | 1 <= k < n
      ensures !TieAt(tables(n), k * pageSize) && SavedBehind(tables, k, n, k * pageSize) <==> SettledAt(tables, pageSize, k, n)
    {
      CutBeforeLast(tables, pageSize, k, n);
      MultiplyMonotone(1, k, pageSize);
      if SettledAt(tables, pageSize, k, n) {
        var t :| SettledSince(tables, k, n, k * pageSize, t);
        SettledIsBehind(tables, k, n, k * pageSize, t);
      } else if !TieAt(tables(n), k * pageSize) && SavedBehind(tables, k, n, k * pageSize) {
        BehindIsSettled(tables, k, n, k * pageSize);
      }
    }
  }

  ghost function Arrangement(rows: seq<Entry>): (served: seq<Entry>)
    ensures Arranges(served, rows)
  {
    ArrangementExists(rows);
    var served :| Arranges(served, rows);
    served
  }

  lemma ArrangementExists(rows: seq<Entry>)
    ensures exists served :: Arranges(served, rows)
  {
    var served := SomeArrangement(rows);
  }

  /** If an end of a page is not settled, some answers do not fit. */
  lemma UnsettledReadingFails(tables: nat -> seq<Entry>, pageSize: int, k: nat, n: nat) returns (answers: nat -> seq<Entry>)
    requires Grows(tables) && pageSize >= 1 && ReadsAll(tables, pageSize, n) && DistinctIDs(tables(n))
    requires 1 <= k < n && !SettledAt(tables, pageSize, k, n)
    ensures AnswersThen(answers, tables) && !Arranges(PagesRead(answers, pageSize, n), tables(n))
  {
    answers := (p: nat) => Arrangement(tables(p));
    var read, m := PagesRead(answers, pageSize, n), k * pageSize;
    if Arranges(read, tables(n)) {
      SameLength(read, tables(n));
      FirstOfNextPage(tables, answers, pageSize, k, n);
      if read[m - 1].createdAt == read[m].createdAt {
        answers := TieSpoilsReading(tables, answers, pageSize, k, n);
      } else {
        JoinedIsAPrefix(Shown(answers, pageSize), k, n);
        forall e | e in read[..m]
          ensures e in tables(k)
        {
          ShownWasThere(tables, answers, pageSize, k, e);
        }
        StrictEndIsSettled(tables, read, m, k, n);
        assert false;
      }
    }
  }

  /** Reading page by page while entries are being saved: however the database breaks ties, the pages are in the
      end the whole final result, each row once and newest first, exactly if no rows of one time lie across the
      end of a page, and no wanted entry that sorts before the end of a page is saved after that page is read. */
  lemma GrowingPagesFitExactly(tables: nat -> seq<Entry>, pageSize: int, n: nat)
    requires Grows(tables) && pageSize >= 1 && ReadsAll(tables, pageSize, n) && DistinctIDs(tables(n))
    ensures NothingCrosses(tables, pageSize, n) <==>
      forall answers: nat -> seq<Entry> :: AnswersThen(answers, tables) ==>
        Arranges(PagesRead(answers, pageSize, n), tables(n))
  {
    NothingCrossesMeansSettled(tables, pageSize, n);
    if AlwaysSettled(tables, pageSize, n) {
      forall answers: nat -> seq<Entry> | AnswersThen(answers, tables)
        ensures Arranges(PagesRead(answers, pageSize, n), tables(n))
      {
        SettledReadingFits(tables, answers, pageSize, n);
      }
    } else {
      var k: nat :| 1 <= k < n && !SettledAt(tables, pageSize, k, n);
      var answers := UnsettledReadingFails(tables, pageSize, k, n);
    }
  }

  /** Entries are stamped when they are saved. So a wanted entry that is saved after the first page of several
      is read and is the newest by then always spoils the reading. */
  lemma NewestEntrySpoilsReading(tables: nat -> seq<Entry>, pageSize: int, n: nat, i: nat)
    requires Grows(tables) && pageSize >= 1 && n >= 2 && |tables(1)| <= i < |tables(n)|
    requires forall e :: e in tables(n) ==> e.createdAt <= tables(n)[i].createdAt
    ensures !NothingCrosses(tables, pageSize, n)
  {
    NoneSelected(tables(n), After(tables(n)[i].createdAt));
    MultiplyMonotone(1, 1, pageSize);
    assert !SavedBehind(tables, 1, n, 1 * pageSize);
  }

  /** It moves the last row of each full page to the next, where it is shown again, and is not shown itself. */
  lemma SavedEntryRepeatsARow(served: seq<Entry>, e: Entry, k: nat, pageSize: int)
    requires pageSize >= 1 && k >= 1 && k * pageSize < |served|
    ensures |Page(served, k, pageSize)| == pageSize && |Page([e] + served, k + 1, pageSize)| > 0
    ensures Page([e] + served, k + 1, pageSize)[0] == Page(served, k, pageSize)[pageSize - 1]
    ensures e !in served ==> forall p :: p > k ==> e !in Page([e] + served, p, pageSize)
  {
    MultiplyMonotone(0, k - 1, pageSize);
    assert k * pageSize == (k - 1) * pageSize + pageSize;
    forall p | p > k
      ensures e !in served ==> e !in Page([e] + served, p, pageSize)
    {
      MultiplyMonotone(1, p - 1, pageSize);
      assert forall x :: x in Page([e] + served, p, pageSize) ==> x in served;
    }
  }
}
