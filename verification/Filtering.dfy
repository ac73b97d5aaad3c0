/** Selecting rows: a comprehension's `if`, a query's WHERE. */
module Filtering {
  import opened Sorting
  import Seqs

  function Filter<T>(rows: seq<T>, allowed: T -> bool): (r: seq<T>)
    ensures |r| <= |rows|
  {
    if rows == [] then []
    else Filter(rows[..|rows| - 1], allowed) + if allowed(rows[|rows| - 1]) then [rows[|rows| - 1]] else []
  }

  lemma {:induction false} FilterElements<T>(rows: seq<T>, allowed: T -> bool)
    ensures forall x :: x in Filter(rows, allowed) <==> x in rows && allowed(x)
  {
    if rows != [] {
      FilterElements(rows[..|rows| - 1], allowed);
      SplitLast(rows);
    }
  }

  lemma {:induction false} FilterConcat<T>(a: seq<T>, b: seq<T>, allowed: T -> bool)
    ensures Filter(a + b, allowed) == Filter(a, allowed) + Filter(b, allowed)
  {
    if b == [] {
      assert a + b == a;
    } else {
      FilterConcat(a, b[..|b| - 1], allowed);
      assert (a + b)[..|a + b| - 1] == a + b[..|b| - 1];
    }
  }

  lemma {:induction false} FilterTwice<T>(rows: seq<T>, p: T -> bool, q: T -> bool, both: T -> bool)
    requires forall r :: r in rows ==> (both(r) <==> p(r) && q(r))
    ensures Filter(Filter(rows, p), q) == Filter(rows, both)
  {
    if rows != [] {
      var front, last := rows[..|rows| - 1], rows[|rows| - 1];
      SplitLast(rows);
      FilterTwice(front, p, q, both);
      var kept := Filter(front, p);
      if p(last) {
        Seqs.DropLast(kept, last);
        assert Filter(kept + [last], q) == Filter(kept, q) + if q(last) then [last] else [];
      } else {
        Seqs.AppendEmpty(kept);
      }
    }
  }

  lemma {:induction false} FilterAll<T>(rows: seq<T>, p: T -> bool)
    requires forall r :: r in rows ==> p(r)
    ensures Filter(rows, p) == rows
  {
    if rows != [] {
      SplitLast(rows);
      FilterAll(rows[..|rows| - 1], p);
    }
  }

  lemma {:induction false} NoneKept<T>(rows: seq<T>, p: T -> bool)
    requires forall i :: 0 <= i < |rows| ==> !p(rows[i])
    ensures Filter(rows, p) == []
  {
    if rows != [] {
      NoneKept(rows[..|rows| - 1], p);
    }
  }

  /** A permutation keeps as many rows. */
  lemma {:induction false} FilterOfPermutation<T>(a: seq<T>, b: seq<T>, p: T -> bool)
    requires multiset(a) == multiset(b)
    ensures |Filter(a, p)| == |Filter(b, p)|
  {
    SameElements(a, b);
    if a != [] {
      var n := |a| - 1;
      assert a[n] in b;
      var i :| 0 <= i < |b| && b[i] == a[n];
      SplitLast(a);
      Seqs.RemoveAt(b, i);
      FilterOfPermutation(a[..n], b[..i] + b[i + 1..], p);
      FilterConcat(b[..i] + [b[i]], b[i + 1..], p);
      FilterConcat(b[..i], [b[i]], p);
      FilterConcat(b[..i], b[i + 1..], p);
      FilterConcat(a[..n], [a[n]], p);
    }
  }

  lemma {:induction false} FilterCounts<T>(s: seq<T>, p: T -> bool, x: T)
    ensures multiset(Filter(s, p))[x] == if p(x) then multiset(s)[x] else 0
  {
    if s != [] {
      FilterCounts(s[..|s| - 1], p, x);
      SplitLast(s);
    }
  }

  /** The places of the rows that `p` selects. */
  function Selected<T>(s: seq<T>, p: T -> bool): set<nat> {
    set i: nat | i < |s| && p(s[i])
  }

  lemma {:induction false} FilterSize<T>(s: seq<T>, p: T -> bool)
    ensures |Filter(s, p)| == |Selected(s, p)|
  {
    if s != [] {
      var n := |s| - 1;
      FilterSize(s[..n], p);
      assert Selected(s, p) == Selected(s[..n], p) + if p(s[n]) then {n} else {};
    }
  }

  lemma {:induction false} FilterStaysSorted<T(!new)>(s: seq<T>, p: T -> bool, leq: (T, T) -> bool)
    requires SortedBy(s, leq)
    ensures SortedBy(Filter(s, p), leq)
  {
    if s != [] {
      var front, last := s[..|s| - 1], s[|s| - 1];
      var kept := Filter(front, p);
      FilterStaysSorted(front, p, leq);
      FilterElements(front, p);
      forall k | 0 <= k < |kept| ensures leq(kept[k], last) {
        assert kept[k] in kept;
        var i :| 0 <= i < |front| && front[i] == kept[k];
        assert leq(s[i], last);
      }
    }
  }

  /** No two of the elements that `p` selects are told apart by the order. */
  ghost predicate Equivalent<T(!new)>(p: T -> bool, leq: (T, T) -> bool) {
    forall x, y :: p(x) && p(y) ==> leq(x, y)
  }

  lemma {:induction false} InsertIsStable<T(!new)>(s: seq<T>, x: T, leq: (T, T) -> bool, p: T -> bool)
    requires Equivalent(p, leq)
    ensures Filter(Insert(s, x, leq), p) == Filter(s, p) + if p(x) then [x] else []
  {
    if s == [] {
      assert Filter([x], p) == Filter([x][..0], p) + if p(x) then [x] else [];
    } else if leq(s[|s| - 1], x) {
      Seqs.DropLast(s, x);
    } else {
      var front, last := s[..|s| - 1], s[|s| - 1];
      InsertIsStable(front, x, leq, p);
      Seqs.DropLast(Insert(front, x, leq), last);
      assert !(p(last) && p(x));
    }
  }

  /** Sorting is stable: elements that the order does not tell apart keep their order. */
  lemma {:induction false} SortIsStable<T(!new)>(s: seq<T>, leq: (T, T) -> bool, p: T -> bool)
    requires Equivalent(p, leq)
    ensures Filter(Sort(s, leq), p) == Filter(s, p)
  {
    if s != [] {
      SortIsStable(s[..|s| - 1], leq, p);
      InsertIsStable(Sort(s[..|s| - 1], leq), s[|s| - 1], leq, p);
    }
  }

  /** Keeping exactly a middle part. */
  lemma MiddleKept<T>(early: seq<T>, inside: seq<T>, late: seq<T>, p: T -> bool)
    requires forall i :: 0 <= i < |early| ==> !p(early[i])
    requires forall i :: 0 <= i < |inside| ==> p(inside[i])
    requires forall i :: 0 <= i < |late| ==> !p(late[i])
    ensures Filter(early + (inside + late), p) == inside
  {
    FilterConcat(early, inside + late, p);
    FilterConcat(inside, late, p);
    NoneKept(early, p);
    NoneKept(late, p);
    FilterAll(inside, p);
  }

  /** No element occurs twice. */
  ghost predicate Distinct<T>(s: seq<T>) {
    forall i, j :: 0 <= i < j < |s| ==> s[i] != s[j]
  }

  lemma {:induction false} FilterStaysDistinct<T>(rows: seq<T>, allowed: T -> bool)
    requires Distinct(rows)
    ensures Distinct(Filter(rows, allowed))
  {
    if rows != [] {
      var front, last := rows[..|rows| - 1], rows[|rows| - 1];
      FilterStaysDistinct(front, allowed);
      FilterElements(front, allowed);
      assert forall i :: 0 <= i < |front| ==> front[i] == rows[i] != last;
      assert last !in Filter(front, allowed);
    }
  }

  lemma {:induction false} DistinctCounts<T>(s: seq<T>, x: T)
    requires Distinct(s)
    ensures multiset(s)[x] == if x in s then 1 else 0
  {
    if s != [] {
      var front, last := s[..|s| - 1], s[|s| - 1];
      DistinctCounts(front, x);
      SplitLast(s);
      assert forall i :: 0 <= i < |front| ==> front[i] == s[i] != last;
      assert last !in front;
    }
  }

  /** Lists without repetition that hold the same elements are permutations of each other. */
  lemma SameMembers<T>(a: seq<T>, b: seq<T>)
    requires Distinct(a) && Distinct(b) && forall x :: x in a <==> x in b
    ensures multiset(a) == multiset(b) && |a| == |b|
  {
    forall x ensures multiset(a)[x] == multiset(b)[x] {
      DistinctCounts(a, x);
      DistinctCounts(b, x);
    }
    assert multiset(a) == multiset(b);
    SameElements(a, b);
  }

  lemma TwiceCounts<T>(s: seq<T>, i: nat, j: nat)
    requires i < j < |s| && s[i] == s[j]
    ensures multiset(s)[s[i]] >= 2
  {
    assert s == s[..i] + [s[i]] + s[i + 1..j] + [s[j]] + s[j + 1..];
  }

  lemma DistinctOfPermutation<T>(a: seq<T>, b: seq<T>)
    requires Distinct(a) && multiset(a) == multiset(b)
    ensures Distinct(b)
  {
    forall i, j | 0 <= i < j < |b| ensures b[i] != b[j] {
      if b[i] == b[j] {
        TwiceCounts(b, i, j);
        DistinctCounts(a, b[i]);
      }
    }
  }
}
