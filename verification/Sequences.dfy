/** Options, results, and what is said about the rows of a table: their sums, lookups and pages. */
module Prelude {
  datatype Option<+T> = None | Some(value: T)

  datatype Result<+T, +E> = Ok(value: T) | Fail(error: E)
}

module Sequences {
  import opened Prelude

  /** The total that `f` assigns to the rows of a table. */
  ghost function Sum<T>(s: seq<T>, f: T -> real): real {
    if s == [] then 0.0 else Sum(s[..|s| - 1], f) + f(s[|s| - 1])
  }

  lemma SumAppend<T>(s: seq<T>, x: T, f: T -> real)
    ensures Sum(s + [x], f) == Sum(s, f) + f(x)
  {
    assert (s + [x])[..|s|] == s;
  }

  lemma {:induction false} SumConcat<T>(s: seq<T>, t: seq<T>, f: T -> real)
    ensures Sum(s + t, f) == Sum(s, f) + Sum(t, f)
  {
    if t == [] {
      assert s + t == s;
    } else {
      var init := t[..|t| - 1];
      SumConcat(s, init, f);
      assert (s + t)[..|s + t| - 1] == s + init;
    }
  }

  /** Rewriting one row changes the total by that row's difference and by nothing else. */
  lemma {:induction false} SumUpdate<T>(s: seq<T>, i: nat, x: T, f: T -> real)
    requires i < |s|
    ensures Sum(s[i := x], f) == Sum(s, f) - f(s[i]) + f(x)
  {
    var n := |s| - 1;
    if i == n {
      assert s[i := x][..n] == s[..n];
    } else {
      SumUpdate(s[..n], i, x, f);
      assert s[i := x][..n] == s[..n][i := x];
    }
  }

  lemma {:induction false} SumNonNegative<T>(s: seq<T>, f: T -> real)
    requires forall x :: x in s ==> f(x) >= 0.0
    ensures Sum(s, f) >= 0.0
  {
    if s != [] {
      SumNonNegative(s[..|s| - 1], f);
    }
  }

  /** One row of a table of non-negative amounts never exceeds the total. */
  lemma {:induction false} RowBelowSum<T>(s: seq<T>, i: nat, f: T -> real)
    requires i < |s|
    requires forall x :: x in s ==> f(x) >= 0.0
    ensures f(s[i]) <= Sum(s, f)
  {
    var init := s[..|s| - 1];
    if i < |init| {
      RowBelowSum(init, i, f);
    } else {
      SumNonNegative(init, f);
    }
  }

  lemma {:induction false} SumAgree<T>(s: seq<T>, f: T -> real, g: T -> real)
    requires forall x :: x in s ==> f(x) == g(x)
    ensures Sum(s, f) == Sum(s, g)
  {
    if s != [] {
      SumAgree(s[..|s| - 1], f, g);
    }
  }

  function Without<T>(s: seq<T>, i: nat): seq<T>
    requires i < |s|
  {
    s[..i] + s[i + 1..]
  }

  lemma SplitAt<T>(s: seq<T>, i: nat)
    requires i < |s|
    ensures s == (s[..i] + [s[i]]) + s[i + 1..]
  {
  }

  lemma SumSplit<T>(left: seq<T>, x: T, right: seq<T>, f: T -> real)
    ensures Sum((left + [x]) + right, f) == Sum(left + right, f) + f(x)
  {
    SumConcat(left + [x], right, f);
    SumAppend(left, x, f);
    SumConcat(left, right, f);
  }

  lemma SumWithout<T>(s: seq<T>, i: nat, f: T -> real)
    requires i < |s|
    ensures Sum(s, f) == Sum(Without(s, i), f) + f(s[i])
  {
    SplitAt(s, i);
    SumSplit(s[..i], s[i], s[i + 1..], f);
  }

  lemma MultisetWithout<T>(s: seq<T>, i: nat)
    requires i < |s|
    ensures multiset(Without(s, i)) == multiset(s) - multiset{s[i]}
  {
    SplitAt(s, i);
  }

  /** A total does not depend on the order of the rows. */
  lemma {:induction false} SumPermutation<T>(s: seq<T>, t: seq<T>, f: T -> real)
    requires multiset(s) == multiset(t)
    ensures Sum(s, f) == Sum(t, f)
    decreases |s|
  {
    if s == [] {
      assert |multiset(t)| == 0;
    } else {
      assert s[0] in multiset(t);
      var i :| 0 <= i < |t| && t[i] == s[0];
      MultisetWithout(s, 0);
      MultisetWithout(t, i);
      SumPermutation(Without(s, 0), Without(t, i), f);
      SumWithout(s, 0, f);
      SumWithout(t, i, f);
    }
  }

  /** The first row that satisfies `p`, as a primary-key lookup finds it. */
  function IndexOf<T>(s: seq<T>, p: T -> bool): (r: Option<nat>)
    ensures r.Some? ==> r.value < |s| && p(s[r.value])
    ensures r.None? ==> forall i :: 0 <= i < |s| ==> !p(s[i])
    ensures r.Some? ==> forall i :: 0 <= i < r.value ==> !p(s[i])
  {
    if s == [] then None
    else if p(s[0]) then Some(0)
    else match IndexOf(s[1..], p)
      case None => None
      case Some(i) => Some(i + 1)
  }

  /** What a query with an offset and a limit returns of its rows; gorm drops an offset that is not positive
      and a limit that is negative. */
  function Slice<T>(rows: seq<T>, offset: int, limit: int): seq<T> {
    var rest := if offset <= 0 then rows else if offset <= |rows| then rows[offset..] else [];
    if 0 <= limit <= |rest| then rest[..limit] else rest
  }

  function Page<T>(rows: seq<T>, page: int, pageSize: int): seq<T> {
    Slice(rows, (page - 1) * pageSize, pageSize)
  }

  /** Row by row: the rows from the offset on, at most as many as the limit says. */
  lemma SliceRowByRow<T>(rows: seq<T>, offset: int, limit: int)
    ensures var from := if offset < 0 then 0 else offset;
      var rest := if from <= |rows| then |rows| - from else 0;
      && |Slice(rows, offset, limit)| == (if limit < 0 || rest < limit then rest else limit)
      && forall i :: 0 <= i < |Slice(rows, offset, limit)| ==> from + i < |rows| && Slice(rows, offset, limit)[i] == rows[from + i]
  {
  }
}
