/** The table operations that the SQL queries of the system are built from:
    a `WHERE` filter, a lookup of the first matching row and an
    `ORDER BY` sort. Tables are sequences of rows. */
module Seqs {
  import opened Common

  /** `SELECT ... WHERE p`: the rows satisfying `p`, in table order. */
  function Filter<T(!new)>(s: seq<T>, p: T -> bool): (r: seq<T>)
    ensures |r| <= |s|
    ensures forall i :: 0 <= i < |r| ==> p(r[i])
  {
    if s == [] then []
    else (if p(s[0]) then [s[0]] else []) + Filter(s[1..], p)
  }

  /** The filter keeps every row satisfying `p`, as often as it occurs, and
      no other row. */
  lemma {:induction false} FilterMultiset<T(!new)>(s: seq<T>, p: T -> bool)
    ensures forall x :: multiset(Filter(s, p))[x] == if p(x) then multiset(s)[x] else 0
  {
    if s != [] {
      FilterMultiset(s[1..], p);
      assert s == [s[0]] + s[1..];
    }
  }

  /** `SELECT COUNT(*) ... WHERE p`. */
  function CountWhere<T(!new)>(s: seq<T>, p: T -> bool): (n: nat)
    ensures n <= |s|
    ensures n == 0 <==> forall i :: 0 <= i < |s| ==> !p(s[i])
  {
    FilterEmpty(s, p);
    |Filter(s, p)|
  }

  lemma {:induction false} FilterEmpty<T(!new)>(s: seq<T>, p: T -> bool)
    ensures Filter(s, p) == [] <==> forall i :: 0 <= i < |s| ==> !p(s[i])
  {
    if s != [] {
      FilterEmpty(s[1..], p);
      assert forall i :: 1 <= i < |s| ==> s[i] == s[1..][i - 1];
    }
  }

  /** Two conditions that no row satisfies at once are counted apart: the
      two counts add up to at most the number of rows. */
  lemma {:induction false} CountDisjoint<T(!new)>(s: seq<T>, p: T -> bool, q: T -> bool)
    requires forall x :: !(p(x) && q(x))
    ensures CountWhere(s, p) + CountWhere(s, q) <= |s|
  {
    if s != [] {
      CountDisjoint(s[1..], p, q);
    }
  }

  /** A stronger condition `q` keeps no more rows than `p`, and the same
      rows when every row satisfying `p` satisfies `q` as well. */
  lemma {:induction false} FilterStronger<T(!new)>(s: seq<T>, p: T -> bool, q: T -> bool)
    requires forall x :: q(x) ==> p(x)
    ensures |Filter(s, q)| <= |Filter(s, p)|
    ensures (forall i :: 0 <= i < |s| && p(s[i]) ==> q(s[i])) ==> Filter(s, q) == Filter(s, p)
  {
    if s != [] {
      FilterStronger(s[1..], p, q);
      assert forall i :: 1 <= i < |s| ==> s[i] == s[1..][i - 1];
    }
  }

  /** `SELECT ... WHERE p LIMIT 1` on a table without `ORDER BY`: the first
      matching row, by position. */
  function FindFirst<T>(s: seq<T>, p: T -> bool): (r: Option<nat>)
    ensures r.Some? ==> r.value < |s| && p(s[r.value])
    ensures r.Some? ==> forall j :: 0 <= j < r.value ==> !p(s[j])
    ensures r.None? <==> forall j :: 0 <= j < |s| ==> !p(s[j])
  {
    if s == [] then None
    else if p(s[0]) then Some(0)
    else
      match FindFirst(s[1..], p)
      case None => None
      case Some(i) => Some(i + 1)
  }

  /** Searching a table with a row appended finds an earlier match first and
      otherwise the appended row when it matches. */
  lemma {:induction false} FindFirstAppend<T>(s: seq<T>, x: T, p: T -> bool)
    ensures FindFirst(s, p).Some? ==> FindFirst(s + [x], p) == FindFirst(s, p)
    ensures FindFirst(s, p).None? && p(x) ==> FindFirst(s + [x], p) == Some(|s|)
  {
    if s != [] {
      assert (s + [x])[1..] == s[1..] + [x];
      FindFirstAppend(s[1..], x, p);
    }
  }

  /** `le` relates every two values, one way or the other: the comparison
      `ORDER BY` sorts with. */
  ghost predicate Total<T(!new)>(le: (T, T) -> bool) {
    forall a, b :: le(a, b) || le(b, a)
  }

  ghost predicate Transitive<T(!new)>(le: (T, T) -> bool) {
    forall a, b, c :: le(a, b) && le(b, c) ==> le(a, c)
  }

  /** Each element may precede its successor. */
  predicate Sorted<T>(s: seq<T>, le: (T, T) -> bool) {
    forall i :: 0 <= i < |s| - 1 ==> le(s[i], s[i + 1])
  }

  /** For a transitive comparison, a sorted sequence is ordered pairwise. */
  lemma {:induction false} SortedPairwise<T(!new)>(s: seq<T>, le: (T, T) -> bool)
    requires Transitive(le) && Sorted(s, le)
    ensures forall i, j :: 0 <= i < j < |s| ==> le(s[i], s[j])
  {
    if |s| > 1 {
      SortedPairwise(s[1..], le);
      forall j | 1 < j < |s|
        ensures le(s[0], s[j])
      {
        assert le(s[1..][0], s[1..][j - 1]);
      }
    }
  }

  /** Inserts `x` before the first element it may precede. */
  function Insert<T(!new)>(x: T, s: seq<T>, le: (T, T) -> bool): (r: seq<T>)
    requires Total(le) && Sorted(s, le)
    ensures Sorted(r, le)
    ensures multiset(r) == multiset(s) + multiset{x}
    ensures r[0] == x || (s != [] && r[0] == s[0])
  {
    if s == [] then [x]
    else if le(x, s[0]) then [x] + s
    else
      var rest := Insert(x, s[1..], le);
      assert s == [s[0]] + s[1..];
      assert le(s[0], x);
      [s[0]] + rest
  }

  /** `ORDER BY`: a sorted permutation of the rows. */
  function SortBy<T(!new)>(s: seq<T>, le: (T, T) -> bool): (r: seq<T>)
    requires Total(le)
    ensures Sorted(r, le)
    ensures multiset(r) == multiset(s)
    ensures |r| == |s|
  {
    if s == [] then []
    else
      assert s == [s[0]] + s[1..];
      Insert(s[0], SortBy(s[1..], le), le)
  }

  /** `SELECT ... WHERE p ORDER BY le`: the rows satisfying `p`, ordered. */
  function SelectOrdered<T(!new)>(s: seq<T>, p: T -> bool, le: (T, T) -> bool): (r: seq<T>)
    requires Total(le) && Transitive(le)
    ensures forall i :: 0 <= i < |r| ==> p(r[i])
    ensures forall i, j :: 0 <= i < j < |r| ==> le(r[i], r[j])
    ensures forall x :: multiset(r)[x] == if p(x) then multiset(s)[x] else 0
  {
    var f := Filter(s, p);
    FilterMultiset(s, p);
    var r := SortBy(f, le);
    SortedPairwise(r, le);
    forall i | 0 <= i < |r|
      ensures p(r[i])
    {
      assert r[i] in multiset(f);
    }
    r
  }

  /** Two tables whose rows agree on `p` give the same lookup result. */
  lemma {:induction false} FindFirstSame<T>(s: seq<T>, t: seq<T>, p: T -> bool)
    requires |s| == |t| && forall i :: 0 <= i < |s| ==> p(s[i]) == p(t[i])
    ensures FindFirst(s, p) == FindFirst(t, p)
  {
    if s != [] {
      FindFirstSame(s[1..], t[1..], p);
    }
  }

  /** The projection `SELECT f(row) FROM s`, row by row. */
  function Map<T, U>(s: seq<T>, f: T -> U): (r: seq<U>)
    ensures |r| == |s| && forall i :: 0 <= i < |s| ==> r[i] == f(s[i])
  {
    seq(|s|, i requires 0 <= i < |s| => f(s[i]))
  }

  /** A projected column counted per value: the number of times `k` occurs
      is the number of rows whose projection is `k`. */
  lemma {:induction false} MapCount<T(!new), K>(s: seq<T>, f: T -> K, k: K, isK: T -> bool)
    requires forall x :: isK(x) == (f(x) == k)
    ensures multiset(Map(s, f))[k] == CountWhere(s, isK)
  {
    if s != [] {
      MapCount(s[1..], f, k, isK);
      assert Map(s, f) == [f(s[0])] + Map(s[1..], f);
      assert Filter(s, isK) == (if isK(s[0]) then [s[0]] else []) + Filter(s[1..], isK);
      assert CountWhere(s, isK) == (if isK(s[0]) then 1 else 0) + CountWhere(s[1..], isK);
    }
  }

  /** Two tables whose rows agree, position by position, on the filter and
      on the projected columns give the same filtered projection. */
  lemma {:induction false} FilterAgree<T(!new), U>(s: seq<T>, t: seq<T>, p: T -> bool, f: T -> U)
    requires |s| == |t|
    requires forall i :: 0 <= i < |s| ==> p(s[i]) == p(t[i]) && f(s[i]) == f(t[i])
    ensures Map(Filter(s, p), f) == Map(Filter(t, p), f)
  {
    if s != [] {
      var s', t' := s[1..], t[1..];
      FilterAgree(s', t', p, f);
      var fs, ft := Filter(s', p), Filter(t', p);
      var hs: seq<T>, ht: seq<T> := if p(s[0]) then [s[0]] else [], if p(t[0]) then [t[0]] else [];
      assert Filter(s, p) == hs + fs;
      assert Filter(t, p) == ht + ft;
      MapAppend(hs, fs, f);
      MapAppend(ht, ft, f);
      if p(s[0]) {
        assert Map(hs, f) == [f(s[0])] == Map(ht, f);
      }
    }
  }

  lemma MapAppend<T, U>(a: seq<T>, b: seq<T>, f: T -> U)
    ensures Map(a + b, f) == Map(a, f) + Map(b, f)
  {
  }
}
