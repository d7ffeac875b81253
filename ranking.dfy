/** What an SQL query of the shape `WHERE p ORDER BY key LIMIT n` returns.
    The database may break ties in the sort key any way it likes, so the
    result is specified by a predicate, `IsTopK`, that every admissible answer
    satisfies; `TopK` is one such answer (filter, stable insertion sort, take a
    prefix), and `TopKIsTopK` shows that it is admissible. */
module Ranking {
  import opened Wrappers

  /** The rows that satisfy the `WHERE` clause, in their stored order. */
  function Filter<T>(xs: seq<T>, keep: T -> bool): (r: seq<T>)
    ensures |r| <= |xs|
    ensures forall i :: 0 <= i < |r| ==> keep(r[i])
  {
    if xs == [] then []
    else (if keep(xs[0]) then [xs[0]] else []) + Filter(xs[1..], keep)
  }

  /** `Filter` keeps every matching row as often as it occurs and drops every
      other one. */
  lemma {:induction false} FilterCount<T>(xs: seq<T>, keep: T -> bool, x: T)
    ensures multiset(Filter(xs, keep))[x] == if keep(x) then multiset(xs)[x] else 0
    decreases |xs|
  {
    if xs != [] {
      FilterCount(xs[1..], keep, x);
      assert xs == [xs[0]] + xs[1..];
    }
  }

  /** A row is returned by the filter exactly when it is stored and matches. */
  lemma FilterHas<T>(xs: seq<T>, keep: T -> bool, x: T)
    ensures x in Filter(xs, keep) <==> x in xs && keep(x)
  {
    FilterCount(xs, keep, x);
    assert x in Filter(xs, keep) <==> x in multiset(Filter(xs, keep));
    assert x in xs <==> x in multiset(xs);
  }

  /** Two `WHERE` clauses that agree on every stored row select the same
      rows. */
  lemma {:induction false} FilterAgree<T>(xs: seq<T>, p: T -> bool, q: T -> bool)
    requires forall i :: 0 <= i < |xs| ==> p(xs[i]) == q(xs[i])
    ensures Filter(xs, p) == Filter(xs, q)
    decreases |xs|
  {
    if xs != [] {
      FilterAgree(xs[1..], p, q);
    }
  }

  /** A `WHERE` clause that every stored row satisfies selects them all, in
      order. */
  lemma {:induction false} FilterAll<T>(xs: seq<T>, keep: T -> bool)
    requires forall i :: 0 <= i < |xs| ==> keep(xs[i])
    ensures Filter(xs, keep) == xs
    decreases |xs|
  {
    if xs != [] {
      FilterAll(xs[1..], keep);
      assert xs == [xs[0]] + xs[1..];
    }
  }

  /** Filtering a concatenation filters each part. */
  lemma {:induction false} FilterAppend<T>(xs: seq<T>, ys: seq<T>, keep: T -> bool)
    ensures Filter(xs + ys, keep) == Filter(xs, keep) + Filter(ys, keep)
    decreases |xs|
  {
    if xs != [] {
      FilterAppend(xs[1..], ys, keep);
      assert (xs + ys)[1..] == xs[1..] + ys;
    } else {
      assert xs + ys == ys;
    }
  }

  /** A `WHERE` clause that no stored row satisfies selects nothing. */
  lemma {:induction false} FilterNone<T>(xs: seq<T>, keep: T -> bool)
    requires forall i :: 0 <= i < |xs| ==> !keep(xs[i])
    ensures Filter(xs, keep) == []
    decreases |xs|
  {
    if xs != [] {
      FilterNone(xs[1..], keep);
    }
  }

  /** Ascending order of `key`. */
  predicate SortedBy<T>(xs: seq<T>, key: T -> real) {
    forall i, j :: 0 <= i < j < |xs| ==> key(xs[i]) <= key(xs[j])
  }

  /** Every element of `xs` has a key of at least `k`. */
  predicate AllAtLeast<T>(xs: seq<T>, key: T -> real, k: real) {
    forall i :: 0 <= i < |xs| ==> k <= key(xs[i])
  }

  /** Inserts `x` before the first element whose key is not smaller. */
  function Insert<T>(x: T, s: seq<T>, key: T -> real): (r: seq<T>)
    ensures multiset(r) == multiset(s) + multiset{x}
    ensures |r| == |s| + 1
  {
    if s == [] then [x]
    else if key(x) <= key(s[0]) then [x] + s
    else
      assert s == [s[0]] + s[1..];
      [s[0]] + Insert(x, s[1..], key)
  }

  /** Inserting into a sorted sequence keeps it sorted. */
  lemma {:induction false} InsertSorted<T>(x: T, s: seq<T>, key: T -> real)
    requires SortedBy(s, key)
    ensures SortedBy(Insert(x, s, key), key)
    decreases |s|
  {
    if s != [] && key(s[0]) < key(x) {
      var tail := s[1..];
      var rest := Insert(x, tail, key);
      InsertSorted(x, tail, key);
      assert AllAtLeast(tail, key, key(s[0])) by {
        forall i | 0 <= i < |tail|
          ensures key(s[0]) <= key(tail[i])
        {
          assert tail[i] == s[i + 1];
        }
      }
      InsertAtLeast(x, tail, key, key(s[0]));
      assert Insert(x, s, key) == [s[0]] + rest;
    }
  }

  /** Inserting an element of key at least `k` among elements of key at
      least `k` keeps that bound. */
  lemma {:induction false} InsertAtLeast<T>(x: T, s: seq<T>, key: T -> real, k: real)
    requires AllAtLeast(s, key, k) && k <= key(x)
    ensures AllAtLeast(Insert(x, s, key), key, k)
    decreases |s|
  {
    if s != [] && key(x) > key(s[0]) {
      InsertAtLeast(x, s[1..], key, k);
    }
  }

  /** Insertion sort on `key`: the database's `ORDER BY key`, with ties kept
      in stored order. */
  function SortBy<T>(xs: seq<T>, key: T -> real): (r: seq<T>)
    ensures multiset(r) == multiset(xs)
    ensures |r| == |xs|
    ensures SortedBy(r, key)
  {
    if xs == [] then []
    else
      assert xs == [xs[0]] + xs[1..];
      InsertSorted(xs[0], SortBy(xs[1..], key), key);
      Insert(xs[0], SortBy(xs[1..], key), key)
  }

  /** In a sorted sequence, nothing after a cut is smaller than anything
      before it. */
  lemma PrefixBelowRest<T>(s: seq<T>, n: nat, key: T -> real)
    requires SortedBy(s, key) && n <= |s|
    ensures forall x, y :: x in s[..n] && y in multiset(s) - multiset(s[..n]) ==> key(x) <= key(y)
  {
    var front, rest := s[..n], s[n..];
    assert s == front + rest;
    assert multiset(s) - multiset(front) == multiset(rest);
    forall x, y | x in front && y in multiset(s) - multiset(front)
      ensures key(x) <= key(y)
    {
      assert y in rest;
      var i :| 0 <= i < n && front[i] == x;
      var j :| 0 <= j < |rest| && rest[j] == y;
      assert s[i] == x && s[n + j] == y;
    }
  }

  /** `WHERE keep ORDER BY key LIMIT limit`, answered by sorting the matching
      rows and keeping a prefix. */
  function TopK<T>(xs: seq<T>, keep: T -> bool, key: T -> real, limit: nat): (r: seq<T>)
  {
    var sorted := SortBy(Filter(xs, keep), key);
    sorted[..Min(limit, |sorted|)]
  }

  /** What any database may return for `WHERE keep ORDER BY key LIMIT limit`:
      `min(limit, #matching)` matching rows, taken from the stored ones, in
      ascending key order, and no matching row left out is nearer than a
      row returned. */
  predicate IsTopK<T(==)>(r: seq<T>, xs: seq<T>, keep: T -> bool, key: T -> real, limit: nat) {
    var pool := multiset(Filter(xs, keep));
    && |r| == Min(limit, |pool|)
    && multiset(r) <= pool
    && SortedBy(r, key)
    && forall x, y :: x in r && y in pool - multiset(r) ==> key(x) <= key(y)
  }

  /** The reference answer is an admissible one. */
  lemma TopKIsTopK<T>(xs: seq<T>, keep: T -> bool, key: T -> real, limit: nat)
    ensures IsTopK(TopK(xs, keep, key, limit), xs, keep, key, limit)
  {
    var s := SortBy(Filter(xs, keep), key);
    var n := Min(limit, |s|);
    var r := s[..n];
    assert r == TopK(xs, keep, key, limit);
    assert multiset(s) == multiset(Filter(xs, keep));
    PrefixWithin(s, n);
    PrefixBelowRest(s, n, key);
    assert SortedBy(r, key) by {
      forall i, j | 0 <= i < j < |r|
        ensures key(r[i]) <= key(r[j])
      {
        assert r[i] == s[i] && r[j] == s[j];
      }
    }
  }

  /** A prefix is part of the whole, as a multiset. */
  lemma PrefixWithin<T>(s: seq<T>, n: nat)
    requires n <= |s|
    ensures multiset(s[..n]) <= multiset(s)
  {
    assert s == s[..n] + s[n..];
  }

  /** Every row of an admissible answer is stored and matches. */
  lemma TopKMembers<T>(r: seq<T>, xs: seq<T>, keep: T -> bool, key: T -> real, limit: nat, x: T)
    requires IsTopK(r, xs, keep, key, limit)
    requires x in r
    ensures x in xs && keep(x)
  {
    assert x in multiset(r);
    FilterHas(xs, keep, x);
  }

  /** With a positive limit, the first row of an admissible answer is at
      least as near as every matching row; so a row at distance zero from the
      query puts a row at distance zero first. */
  lemma NearestFirst<T>(r: seq<T>, xs: seq<T>, keep: T -> bool, key: T -> real, limit: nat, x: T)
    requires IsTopK(r, xs, keep, key, limit)
    requires limit > 0 && x in xs && keep(x)
    ensures r != [] && key(r[0]) <= key(x)
  {
    var pool := multiset(Filter(xs, keep));
    FilterHas(xs, keep, x);
    assert x in pool;
    assert r != [];
    if x in r {
      var i :| 0 <= i < |r| && r[i] == x;
    } else {
      assert r[0] in r;
      assert x in pool - multiset(r);
    }
  }

  /** A limit of at least the number of matching rows returns all of them. */
  lemma AllWhenLimitLarge<T>(r: seq<T>, xs: seq<T>, keep: T -> bool, key: T -> real, limit: nat)
    requires IsTopK(r, xs, keep, key, limit)
    requires limit >= |Filter(xs, keep)|
    ensures multiset(r) == multiset(Filter(xs, keep))
  {
    var pool := multiset(Filter(xs, keep));
    assert |r| == |pool|;
    assert |pool - multiset(r)| == |pool| - |multiset(r)| == 0;
  }
}
