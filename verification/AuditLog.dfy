/** The audit log: an append-only table read through conjunctive filters, newest first, page by page. */
module AuditLog {
  import opened Prelude
  import opened Sequences

  datatype Entry = Entry(id: nat, actionType: string, employeeID: nat, details: string, createdAt: int)

  datatype Condition = ActionIs(actionType: string) | ByEmployee(employeeID: nat) | NotBefore(from: int) | NotAfter(to: int)

  predicate Holds(c: Condition, e: Entry) {
    match c
    case ActionIs(t) => e.actionType == t
    case ByEmployee(n) => e.employeeID == n
    case NotBefore(from) => e.createdAt >= from
    case NotAfter(to) => e.createdAt <= to
  }

  datatype Query = Query(
    actionType: string, employeeID: Option<nat>, dateFrom: Option<int>, dateTo: Option<int>, page: int, pageSize: int)

  /** What a query asks for; an absent field asks for nothing. */
  predicate Wanted(q: Query, e: Entry) {
    && (q.actionType == "" || e.actionType == q.actionType)
    && (q.employeeID.None? || e.employeeID == q.employeeID.value)
    && (q.dateFrom.None? || q.dateFrom.value <= e.createdAt)
    && (q.dateTo.None? || e.createdAt <= q.dateTo.value)
  }

  function Wants(q: Query): Entry -> bool { (e: Entry) => Wanted(q, e) }

  function Satisfies(where: seq<Condition>): Entry -> bool {
    (e: Entry) => forall c :: c in where ==> Holds(c, e)
  }

  /** The rows that satisfy `p`, in table order. */
  function Filter(rows: seq<Entry>, p: Entry -> bool): seq<Entry> {
    if rows == [] then []
    else Filter(rows[..|rows| - 1], p) + (if p(rows[|rows| - 1]) then [rows[|rows| - 1]] else [])
  }

  /** A database's answer to ordering rows by creation time, newest first: ties come in any order. */
  ghost predicate Arranges(served: seq<Entry>, rows: seq<Entry>) {
    multiset(served) == multiset(rows) && Descending(served)
  }

  ghost predicate Descending(served: seq<Entry>) {
    forall i, j :: 0 <= i < j < |served| ==> served[i].createdAt >= served[j].createdAt
  }

  /** The database numbers rows as they come. */
  predicate Numbered(rows: seq<Entry>) {
    forall i :: 0 <= i < |rows| ==> rows[i].id == i + 1
  }

  class Repository {
    var rows: seq<Entry>

    constructor ()
      ensures rows == [] && Numbered(rows)
    {
      rows := [];
    }

    /** Appends an entry; the database numbers it and stamps a missing creation time. */
    method Save(actionType: string, employeeID: nat, details: string, createdAt: Option<int>, now: int, down: bool)
      returns (failed: bool)
      modifies this
      ensures failed <==> down
      ensures rows == if down then old(rows) else
        old(rows) + [Entry(|old(rows)| + 1, actionType, employeeID, details, if createdAt.Some? then createdAt.value else now)]
      ensures Numbered(old(rows)) ==> Numbered(rows)
    {
      if down {
        return true;
      }
      var stamp := if createdAt.Some? then createdAt.value else now;
      rows := rows + [Entry(|rows| + 1, actionType, employeeID, details, stamp)];
      return false;
    }

    /** `served` is the order in which the database returns the wanted rows to this query. */
    method GetAll(q: Query, served: seq<Entry>, countDown: bool, findDown: bool)
      returns (entries: seq<Entry>, total: nat, failed: bool)
      requires Arranges(served, Filter(rows, Wants(q)))
      ensures failed <==> countDown || findDown
      ensures failed ==> entries == [] && total == 0
      ensures !failed ==> entries == Page(served, q.page, q.pageSize)
      ensures !failed ==> total == |Filter(rows, Wants(q))|
    {
      var query := BuildQuery(q);
      if countDown {
        return [], 0, true;
      }
      ConditionsSelect(rows, q);
      total := |Filter(rows, Satisfies(query))|;
      var offset := (q.page - 1) * q.pageSize;
      if findDown {
        return [], 0, true;
      }
      return Slice(served, offset, q.pageSize), total, false;
    }
  }

  /** One condition for each field that is present. */
  function Conditions(q: Query): seq<Condition> {
    (if q.actionType != "" then [ActionIs(q.actionType)] else []) +
    (if q.employeeID.Some? then [ByEmployee(q.employeeID.value)] else []) +
    (if q.dateFrom.Some? then [NotBefore(q.dateFrom.value)] else []) +
    (if q.dateTo.Some? then [NotAfter(q.dateTo.value)] else [])
  }

  method BuildQuery(q: Query) returns (query: seq<Condition>)
    ensures query == Conditions(q)
  {
    query := [];
    if q.actionType != "" {
      query := query + [ActionIs(q.actionType)];
    }
    if q.employeeID.Some? {
      query := query + [ByEmployee(q.employeeID.value)];
    }
    if q.dateFrom.Some? {
      query := query + [NotBefore(q.dateFrom.value)];
    }
    if q.dateTo.Some? {
      query := query + [NotAfter(q.dateTo.value)];
    }
  }

  lemma ConditionsSayWhatIsWanted(q: Query, e: Entry)
    ensures Satisfies(Conditions(q))(e) <==> Wanted(q, e)
  {
    var where := Conditions(q);
    assert q.actionType != "" ==> ActionIs(q.actionType) in where;
    assert q.employeeID.Some? ==> ByEmployee(q.employeeID.value) in where;
    assert q.dateFrom.Some? ==> NotBefore(q.dateFrom.value) in where;
    assert q.dateTo.Some? ==> NotAfter(q.dateTo.value) in where;
  }

  /** The rows that meet a query's conditions are the rows that it wants. */
  lemma ConditionsSelect(rows: seq<Entry>, q: Query)
    ensures Filter(rows, Satisfies(Conditions(q))) == Filter(rows, Wants(q))
  {
    forall e: Entry
      ensures Satisfies(Conditions(q))(e) <==> Wants(q)(e)
    {
      ConditionsSayWhatIsWanted(q, e);
    }
    FilterAgree(rows, Satisfies(Conditions(q)), Wants(q));
  }

  // ----- filters -----

  lemma {:induction false} FilterAgree(rows: seq<Entry>, p: Entry -> bool, q: Entry -> bool)
    requires forall e :: p(e) <==> q(e)
    ensures Filter(rows, p) == Filter(rows, q)
  {
    if rows != [] {
      FilterAgree(rows[..|rows| - 1], p, q);
    }
  }

  lemma FilterAppend(rows: seq<Entry>, e: Entry, p: Entry -> bool)
    ensures Filter(rows + [e], p) == Filter(rows, p) + if p(e) then [e] else []
  {
    assert (rows + [e])[..|rows|] == rows;
  }

  /** Adding a condition filters what the others left, so each is applied to a subsequence in table order;
      the order and the repetition of conditions do not matter. */
  lemma {:induction false} ConditionsCompose(rows: seq<Entry>, where: seq<Condition>, c: Condition, other: seq<Condition>)
    requires forall d :: d in other <==> d in where || d == c
    ensures Filter(rows, Satisfies(other)) == Filter(Filter(rows, Satisfies(where)), Satisfies([c]))
  {
    if rows != [] {
      var init, last := rows[..|rows| - 1], rows[|rows| - 1];
      ConditionsCompose(init, where, c, other);
      assert Satisfies([c])(last) <==> Holds(c, last) by {
        assert c in [c];
      }
      assert Satisfies(other)(last) <==> Satisfies(where)(last) && Holds(c, last) by {
        assert c in other;
      }
      var kept := Filter(init, Satisfies(where));
      if Satisfies(where)(last) {
        FilterAppend(kept, last, Satisfies([c]));
        assert Filter(rows, Satisfies(where)) == kept + [last];
      } else {
        assert Filter(rows, Satisfies(where)) == kept;
      }
    }
  }

  /** Later rows never change what was found before them: in an empty log nothing is found, and a total grows by
      one exactly when the saved entry has the action, is by the employee, and was made within the dates, both
      included, as far as the query asks for them. */
  lemma SavedEntryCounts(rows: seq<Entry>, e: Entry, q: Query)
    ensures Filter([], Wants(q)) == []
    ensures Filter(rows + [e], Wants(q)) == Filter(rows, Wants(q)) +
      if && (q.actionType == "" || e.actionType == q.actionType)
         && (q.employeeID.Some? ==> e.employeeID == q.employeeID.value)
         && (q.dateFrom.Some? ==> e.createdAt >= q.dateFrom.value)
         && (q.dateTo.Some? ==> e.createdAt <= q.dateTo.value)
      then [e] else []
  {
    FilterAppend(rows, e, Wants(q));
  }

  function Between(q: Query, from: int, to: int): Query { q.(dateFrom := Some(from), dateTo := Some(to)) }

  function Total(rows: seq<Entry>, q: Query): nat { |Filter(rows, Wants(q))| }

  /** Both ends of a date range are included, so splitting a range counts its instant twice. */
  lemma {:induction false} SplitRangesOverlapAtTheSplit(rows: seq<Entry>, q: Query, a: int, t: int, b: int)
    requires a <= t <= b
    ensures Total(rows, Between(q, a, t)) + Total(rows, Between(q, t, b)) ==
            Total(rows, Between(q, a, b)) + Total(rows, Between(q, t, t))
  {
    if rows != [] {
      SplitRangesOverlapAtTheSplit(rows[..|rows| - 1], q, a, t, b);
    }
  }

  // ----- pages -----

  /** Pages 1 to `n`, one after the other. */
  function Pages(served: seq<Entry>, pageSize: int, n: nat): seq<Entry> {
    if n == 0 then [] else Pages(served, pageSize, n - 1) + Page(served, n, pageSize)
  }

  function PageCount(total: nat, pageSize: int): nat
    requires pageSize >= 1
  {
    QuotientIsNatural(total + pageSize - 1, pageSize);
    (total + pageSize - 1) / pageSize
  }

  lemma QuotientIsNatural(n: int, d: int)
    requires n >= 0 && d >= 1
    ensures n / d >= 0
  {
  }

  lemma {:induction false} PagesArePrefixes(served: seq<Entry>, pageSize: int, n: nat)
    requires pageSize >= 1
    ensures Pages(served, pageSize, n) == if n * pageSize <= |served| then served[..n * pageSize] else served
  {
    if n > 0 {
      PagesArePrefixes(served, pageSize, n - 1);
      assert n * pageSize == (n - 1) * pageSize + pageSize;
      MultiplyMonotone(0, n - 1, pageSize);
      SliceExtends(served, (n - 1) * pageSize, pageSize);
    }
  }

  lemma SliceExtends(served: seq<Entry>, offset: nat, limit: nat)
    ensures var prefix := if offset <= |served| then served[..offset] else served;
      prefix + Slice(served, offset, limit) == if offset + limit <= |served| then served[..offset + limit] else served
  {
  }

  /** For any page size the pages up to the page count are the whole result, in order, without loss or
      repetition. */
  lemma PagesCoverTheResult(served: seq<Entry>, pageSize: int)
    requires pageSize >= 1
    ensures Pages(served, pageSize, PageCount(|served|, pageSize)) == served
  {
    CountRoundsUp(|served|, pageSize);
    PagesArePrefixes(served, pageSize, PageCount(|served|, pageSize));
  }

  lemma SliceBounds(served: seq<Entry>, offset: int, limit: int)
    requires limit >= 1
    ensures |Slice(served, offset, limit)| <= limit
    ensures Slice(served, offset, limit) == [] <==> served == [] || offset >= |served|
    ensures offset <= 0 ==> Slice(served, offset, limit) == Slice(served, 0, limit)
  {
  }

  /** No page is too long; exactly the pages up to the page count hold rows, and a page number below one
      asks for the first page. */
  lemma PageBounds(served: seq<Entry>, pageSize: int, page: int)
    requires pageSize >= 1
    ensures |Page(served, page, pageSize)| <= pageSize
    ensures Page(served, page, pageSize) == [] <==> served == [] || page > PageCount(|served|, pageSize)
    ensures page < 1 ==> Page(served, page, pageSize) == Page(served, 1, pageSize)
  {
    var n: int := PageCount(|served|, pageSize);
    CountRoundsUp(|served|, pageSize);
    SliceBounds(served, (page - 1) * pageSize, pageSize);
    if page > n {
      MultiplyMonotone(n, page - 1, pageSize);
    } else {
      MultiplyMonotone(page - 1, n - 1, pageSize);
    }
    if page < 1 {
      MultiplyMonotone(page - 1, 0, pageSize);
    }
  }

  lemma MultiplyMonotone(x: int, y: int, z: int)
    requires x <= y && z >= 0
    ensures x * z <= y * z
  {
  }

  lemma CountRoundsUp(total: nat, pageSize: int)
    requires pageSize >= 1
    ensures (PageCount(total, pageSize) - 1) * pageSize < total <= PageCount(total, pageSize) * pageSize
         || total == PageCount(total, pageSize) == 0
  {
    var n := PageCount(total, pageSize);
    assert total + pageSize - 1 == n * pageSize + (total + pageSize - 1) % pageSize;
    assert (n - 1) * pageSize == n * pageSize - pageSize;
  }

  // ----- ties -----

  /** Different rows were created at different times. */
  ghost predicate WithoutTies(rows: seq<Entry>) {
    forall x, y :: x in rows && y in rows && x.createdAt == y.createdAt ==> x == y
  }

  lemma HeadIsNewest(served: seq<Entry>, e: Entry)
    requires Descending(served) && e in served
    ensures e.createdAt <= served[0].createdAt
  {
  }

  lemma TailWithoutHead(served: seq<Entry>)
    requires served != []
    ensures multiset(served[1..]) == multiset(served) - multiset{served[0]}
  {
    assert served == [served[0]] + served[1..];
  }

  lemma HeadsAgree(served: seq<Entry>, other: seq<Entry>)
    requires served != [] && other != [] && Descending(served) && Descending(other)
    requires multiset(served) == multiset(other)
    requires forall e :: e in served && e.createdAt == served[0].createdAt ==> e == served[0]
    ensures served[0] == other[0]
    ensures multiset(served[1..]) == multiset(other[1..])
  {
    TailWithoutHead(served);
    TailWithoutHead(other);
    assert served[0] in multiset(other) && other[0] in multiset(served);
    HeadIsNewest(other, served[0]);
    HeadIsNewest(served, other[0]);
  }

  lemma SameLength(served: seq<Entry>, other: seq<Entry>)
    requires multiset(served) == multiset(other)
    ensures |served| == |other|
  {
    assert |served| == |multiset(served)| && |other| == |multiset(other)|;
  }

  lemma TailKeepsOrder(served: seq<Entry>)
    requires served != [] && Descending(served)
    ensures Descending(served[1..])
  {
  }

  lemma TailWithoutTies(served: seq<Entry>)
    requires served != [] && WithoutTies(served)
    ensures WithoutTies(served[1..])
  {
    assert forall e :: e in served[1..] ==> e in served;
  }

  lemma {:induction false} ArrangementIsUnique(served: seq<Entry>, other: seq<Entry>)
    requires WithoutTies(served) && Descending(served) && Descending(other) && multiset(served) == multiset(other)
    ensures served == other
  {
    SameLength(served, other);
    if served != [] {
      HeadsAgree(served, other);
      var s, o := served[1..], other[1..];
      TailKeepsOrder(served);
      TailKeepsOrder(other);
      TailWithoutTies(served);
      ArrangementIsUnique(s, o);
      assert served == [served[0]] + s && other == [other[0]] + o;
    }
  }

  function Insert(e: Entry, sorted: seq<Entry>): seq<Entry> {
    if sorted == [] || e.createdAt >= sorted[0].createdAt then [e] + sorted else [sorted[0]] + Insert(e, sorted[1..])
  }

  lemma {:induction false} InsertAdds(e: Entry, sorted: seq<Entry>)
    ensures multiset(Insert(e, sorted)) == multiset(sorted) + multiset{e}
  {
    if sorted != [] && e.createdAt < sorted[0].createdAt {
      InsertAdds(e, sorted[1..]);
      assert sorted == [sorted[0]] + sorted[1..];
    }
  }

  lemma {:induction false} InsertDescends(e: Entry, sorted: seq<Entry>)
    requires Descending(sorted)
    ensures Descending(Insert(e, sorted))
  {
    if sorted != [] && e.createdAt < sorted[0].createdAt {
      var tail := Insert(e, sorted[1..]);
      InsertDescends(e, sorted[1..]);
      InsertAdds(e, sorted[1..]);
      forall i | 0 <= i < |tail|
        ensures tail[i].createdAt <= sorted[0].createdAt
      {
        assert tail[i] in multiset(tail);
        assert tail[i] == e || tail[i] in sorted[1..];
      }
    }
  }

  lemma {:induction false} SomeArrangement(rows: seq<Entry>) returns (served: seq<Entry>)
    ensures Arranges(served, rows)
  {
    if rows == [] {
      served := [];
    } else {
      var rest := SomeArrangement(rows[1..]);
      served := Insert(rows[0], rest);
      InsertAdds(rows[0], rest);
      InsertDescends(rows[0], rest);
      assert rows == [rows[0]] + rows[1..];
    }
  }

  /** Two neighbours with the same time that differ, somewhere between two such entries. */
  lemma {:induction false} TiedNeighbours(served: seq<Entry>, i: nat, j: nat) returns (k: nat)
    requires Descending(served) && i < j < |served| && served[i].createdAt == served[j].createdAt && served[i] != served[j]
    ensures k + 1 < |served| && served[k].createdAt == served[k + 1].createdAt && served[k] != served[k + 1]
    decreases j - i
  {
    if served[i] != served[i + 1] {
      k := i;
    } else {
      k := TiedNeighbours(served, i + 1, j);
    }
  }

  lemma SwapTied(served: seq<Entry>, k: nat) returns (other: seq<Entry>)
    requires Descending(served) && k + 1 < |served| && served[k].createdAt == served[k + 1].createdAt
    ensures other == served[k := served[k + 1]][k + 1 := served[k]]
    ensures Descending(other) && multiset(other) == multiset(served)
  {
    other := served[k := served[k + 1]][k + 1 := served[k]];
    assert forall i :: 0 <= i < |served| ==> other[i].createdAt == served[i].createdAt;
  }

  /** Two queries may order a tie differently; with pages of one row, reading one page after the other then
      shows one row twice. */
  lemma TiesRepeatRows(rows: seq<Entry>) returns (served: seq<Entry>, other: seq<Entry>, page: nat)
    requires !WithoutTies(rows)
    ensures Arranges(served, rows) && Arranges(other, rows) && served != other
    ensures page >= 1 && Page(served, page, 1) != [] && Page(other, page + 1, 1) == Page(served, page, 1)
  {
    served := SomeArrangement(rows);
    var k := SomeTie(rows, served);
    other := SwapTied(served, k);
    page := k + 1;
    PageOfOne(served, k);
    PageOfOne(other, k + 1);
  }

  lemma SomeTie(rows: seq<Entry>, served: seq<Entry>) returns (k: nat)
    requires !WithoutTies(rows) && Arranges(served, rows)
    ensures k + 1 < |served| && served[k].createdAt == served[k + 1].createdAt && served[k] != served[k + 1]
  {
    var x, y :| x in rows && y in rows && x.createdAt == y.createdAt && x != y;
    assert x in multiset(served) && y in multiset(served);
    var i :| 0 <= i < |served| && served[i] == x;
    var j :| 0 <= j < |served| && served[j] == y;
    k := TiedNeighbours(served, if i < j then i else j, if i < j then j else i);
  }

  lemma PageOfOne(served: seq<Entry>, k: nat)
    requires k < |served|
    ensures Page(served, k + 1, 1) == [served[k]]
  {
    assert served[k..][..1] == [served[k]];
  }

  /** The answer to a query, as a whole ordering, is determined exactly when no two different rows of it
      were created at the same time. */
  lemma AnswerIsDeterminedExactlyWithoutTies(rows: seq<Entry>)
    ensures WithoutTies(rows) <==>
      forall served, other :: Arranges(served, rows) && Arranges(other, rows) ==> served == other
  {
    if WithoutTies(rows) {
      forall served, other | Arranges(served, rows) && Arranges(other, rows)
        ensures served == other
      {
        assert forall e :: e in served ==> e in multiset(rows);
        ArrangementIsUnique(served, other);
      }
    } else {
      var served, other, _ := TiesRepeatRows(rows);
    }
  }
}
