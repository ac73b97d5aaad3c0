/** Python's `sorted` and `list.sort` with a key, as a stable sort under the key's order. */
module Sorting {
  ghost predicate TotalPreorder<T(!new)>(leq: (T, T) -> bool) {
    && (forall x, y :: leq(x, y) || leq(y, x))
    && (forall x, y, z :: leq(x, y) && leq(y, z) ==> leq(x, z))
  }

  ghost predicate SortedBy<T>(s: seq<T>, leq: (T, T) -> bool) {
    forall i, j :: 0 <= i < j < |s| ==> leq(s[i], s[j])
  }

  /** Ties are broken: no two different elements are equivalent. */
  ghost predicate StrictOn<T>(s: seq<T>, leq: (T, T) -> bool) {
    forall x, y :: x in s && y in s && leq(x, y) && leq(y, x) ==> x == y
  }

  /** `x` goes after every element that does not exceed it. */
  function Insert<T>(s: seq<T>, x: T, leq: (T, T) -> bool): seq<T> {
    if s == [] then [x]
    else if leq(s[|s| - 1], x) then s + [x]
    else Insert(s[..|s| - 1], x, leq) + [s[|s| - 1]]
  }

  function Sort<T>(s: seq<T>, leq: (T, T) -> bool): seq<T> {
    if s == [] then [] else Insert(Sort(s[..|s| - 1], leq), s[|s| - 1], leq)
  }

  lemma {:induction false} InsertKeepsElements<T>(s: seq<T>, x: T, leq: (T, T) -> bool)
    ensures multiset(Insert(s, x, leq)) == multiset(s) + multiset{x}
    ensures forall y :: y in Insert(s, x, leq) <==> y in s || y == x
  {
    if s != [] && !leq(s[|s| - 1], x) {
      var front, last := s[..|s| - 1], s[|s| - 1];
      InsertKeepsElements(front, x, leq);
      assert s == front + [last];
    }
  }

  lemma SortedAppend<T>(s: seq<T>, x: T, leq: (T, T) -> bool)
    requires SortedBy(s, leq) && forall y :: y in s ==> leq(y, x)
    ensures SortedBy(s + [x], leq)
  {
  }

  lemma {:induction false} InsertIsSorted<T(!new)>(s: seq<T>, x: T, leq: (T, T) -> bool)
    requires TotalPreorder(leq) && SortedBy(s, leq)
    ensures SortedBy(Insert(s, x, leq), leq)
  {
    if s != [] {
      var front, last := s[..|s| - 1], s[|s| - 1];
      if leq(last, x) {
        forall y | y in s ensures leq(y, x) {
          assert leq(y, last);
        }
        SortedAppend(s, x, leq);
      } else {
        InsertIsSorted(front, x, leq);
        InsertKeepsElements(front, x, leq);
        SortedAppend(Insert(front, x, leq), last, leq);
      }
    }
  }

  lemma {:induction false} SortKeepsElements<T>(s: seq<T>, leq: (T, T) -> bool)
    ensures multiset(Sort(s, leq)) == multiset(s)
    ensures |Sort(s, leq)| == |s|
  {
    if s != [] {
      var front, last := s[..|s| - 1], s[|s| - 1];
      SortKeepsElements(front, leq);
      InsertKeepsElements(Sort(front, leq), last, leq);
      SplitLast(s);
      assert multiset(s) == multiset(front) + multiset{last};
    }
    SameElements(Sort(s, leq), s);
  }

  lemma {:induction false} SortIsSorted<T(!new)>(s: seq<T>, leq: (T, T) -> bool)
    requires TotalPreorder(leq)
    ensures SortedBy(Sort(s, leq), leq)
    ensures multiset(Sort(s, leq)) == multiset(s)
    ensures |Sort(s, leq)| == |s|
  {
    SortKeepsElements(s, leq);
    if s != [] {
      SortIsSorted(s[..|s| - 1], leq);
      InsertIsSorted(Sort(s[..|s| - 1], leq), s[|s| - 1], leq);
    }
  }

  lemma SameElements<T>(a: seq<T>, b: seq<T>)
    requires multiset(a) == multiset(b)
    ensures forall x :: x in a <==> x in b
    ensures |a| == |b|
  {
    assert |multiset(a)| == |multiset(b)|;
    forall x ensures x in a <==> x in b {
      assert x in a <==> x in multiset(a);
      assert x in b <==> x in multiset(b);
    }
  }

  lemma SplitLast<T>(s: seq<T>)
    requires s != []
    ensures s == s[..|s| - 1] + [s[|s| - 1]]
    ensures multiset(s[..|s| - 1]) == multiset(s) - multiset{s[|s| - 1]}
    ensures forall x :: x in s[..|s| - 1] ==> x in s
  {
    assert s == s[..|s| - 1] + [s[|s| - 1]];
  }

  /** Only one arrangement of the same elements is sorted when ties are broken. */
  lemma {:induction false} SortedIsUnique<T(!new)>(a: seq<T>, b: seq<T>, leq: (T, T) -> bool)
    requires SortedBy(a, leq) && SortedBy(b, leq) && StrictOn(a, leq) && (forall x :: leq(x, x))
    requires multiset(a) == multiset(b)
    ensures a == b
  {
    SameElements(a, b);
    if a != [] {
      SplitLast(a);
      SplitLast(b);
      SameLast(a, b, leq);
      SortedIsUnique(a[..|a| - 1], b[..|b| - 1], leq);
    }
  }

  lemma SameLast<T(!new)>(a: seq<T>, b: seq<T>, leq: (T, T) -> bool)
    requires SortedBy(a, leq) && SortedBy(b, leq) && StrictOn(a, leq) && (forall x :: leq(x, x))
    requires a != [] && |a| == |b| && (forall x :: x in a <==> x in b)
    ensures a[|a| - 1] == b[|b| - 1]
  {
    var n := |a| - 1;
    assert a[n] in b && b[n] in a;
    assert leq(b[n], a[n]) && leq(a[n], b[n]);
  }

  lemma SortIsUnique<T(!new)>(s: seq<T>, a: seq<T>, leq: (T, T) -> bool)
    requires TotalPreorder(leq) && StrictOn(s, leq) && SortedBy(a, leq) && multiset(a) == multiset(s)
    ensures Sort(s, leq) == a
  {
    SortIsSorted(s, leq);
    SameElements(a, s);
    assert forall x :: leq(x, x);
    SortedIsUnique(a, Sort(s, leq), leq);
  }

  /** Sorting a permutation gives the same list. */
  lemma SortOfPermutation<T(!new)>(s: seq<T>, t: seq<T>, leq: (T, T) -> bool)
    requires TotalPreorder(leq) && StrictOn(s, leq) && multiset(s) == multiset(t)
    ensures Sort(s, leq) == Sort(t, leq)
  {
    SortIsSorted(t, leq);
    SortIsUnique(s, Sort(t, leq), leq);
  }

  /** A sorted list comes back unchanged. */
  lemma SortOfSorted<T(!new)>(s: seq<T>, leq: (T, T) -> bool)
    requires SortedBy(s, leq) && TotalPreorder(leq) && StrictOn(s, leq)
    ensures Sort(s, leq) == s
  {
    SortIsUnique(s, s, leq);
  }

  lemma SplitAt<T>(s: seq<T>, n: nat)
    requires n <= |s|
    ensures s == s[..n] + s[n..] && multiset(s) == multiset(s[..n]) + multiset(s[n..])
  {
    assert s == s[..n] + s[n..];
  }

  lemma SortedJoin<T(!new)>(a: seq<T>, b: seq<T>, leq: (T, T) -> bool)
    requires SortedBy(a, leq) && SortedBy(b, leq) && forall x, y :: x in a && y in b ==> leq(x, y)
    ensures SortedBy(a + b, leq)
  {
  }

  /** The first `n` of a part are the first `n` of the whole exactly when nothing in the
      rest precedes the last of them. */
  lemma FirstOfPart<T(!new)>(part: seq<T>, rest: seq<T>, all: seq<T>, n: nat, leq: (T, T) -> bool)
    requires TotalPreorder(leq) && StrictOn(all, leq)
    requires multiset(all) == multiset(part) + multiset(rest) && forall x :: x in part ==> x !in rest
    requires 0 < n <= |Sort(part, leq)|
    ensures n <= |Sort(all, leq)|
    ensures Sort(part, leq)[..n] == Sort(all, leq)[..n] <==> forall e :: e in rest ==> leq(Sort(part, leq)[n - 1], e)
  {
    SortIsSorted(part, leq);
    SortIsSorted(all, leq);
    assert |multiset(all)| == |multiset(part)| + |multiset(rest)|;
    if forall e :: e in rest ==> leq(Sort(part, leq)[n - 1], e) {
      FirstOfPartIf(part, rest, all, n, leq);
    } else if Sort(part, leq)[..n] == Sort(all, leq)[..n] {
      FirstOfPartOnlyIf(part, rest, all, n, leq);
    }
  }

  lemma HeadBelowTail<T(!new)>(a: seq<T>, n: nat, rest: seq<T>, leq: (T, T) -> bool, x: T, y: T)
    requires TotalPreorder(leq) && SortedBy(a, leq) && 0 < n <= |a|
    requires forall e :: e in rest ==> leq(a[n - 1], e)
    requires x in a[..n] && y in a[n..] + rest
    ensures leq(x, y)
  {
    var i :| 0 <= i < n && a[i] == x;
    assert leq(x, a[n - 1]);
    if y !in rest {
      var j :| n <= j < |a| && a[j] == y;
    }
  }

  lemma FirstOfPartIf<T(!new)>(part: seq<T>, rest: seq<T>, all: seq<T>, n: nat, leq: (T, T) -> bool)
    requires TotalPreorder(leq) && StrictOn(all, leq)
    requires multiset(all) == multiset(part) + multiset(rest)
    requires 0 < n <= |Sort(part, leq)|
    requires forall e :: e in rest ==> leq(Sort(part, leq)[n - 1], e)
    ensures n <= |Sort(all, leq)| && Sort(part, leq)[..n] == Sort(all, leq)[..n]
  {
    var a := Sort(part, leq);
    var tail := Sort(a[n..] + rest, leq);
    SortIsSorted(part, leq);
    SortIsSorted(a[n..] + rest, leq);
    SplitAt(a, n);
    SameElements(tail, a[n..] + rest);
    forall x, y | x in a[..n] && y in tail ensures leq(x, y) {
      HeadBelowTail(a, n, rest, leq, x, y);
    }
    SortedJoin(a[..n], tail, leq);
    SortIsUnique(all, a[..n] + tail, leq);
  }

  lemma FirstOfPartOnlyIf<T(!new)>(part: seq<T>, rest: seq<T>, all: seq<T>, n: nat, leq: (T, T) -> bool)
    requires TotalPreorder(leq) && StrictOn(all, leq)
    requires multiset(all) == multiset(part) + multiset(rest) && forall x :: x in part ==> x !in rest
    requires 0 < n <= |Sort(part, leq)| && n <= |Sort(all, leq)|
    requires Sort(part, leq)[..n] == Sort(all, leq)[..n]
    ensures forall e :: e in rest ==> leq(Sort(part, leq)[n - 1], e)
  {
    var a, b := Sort(part, leq), Sort(all, leq);
    SortIsSorted(part, leq);
    SortIsSorted(all, leq);
    SameElements(a, part);
    SameElements(b, all);
    SplitAt(a, n);
    SplitAt(b, n);
    forall e | e in rest ensures leq(a[n - 1], e) {
      assert e in multiset(all);
      assert e !in a[..n];
      assert forall j :: 0 <= j < n ==> b[j] in b[..n];
      var i :| 0 <= i < |b| && b[i] == e;
      assert a[..n][n - 1] == b[..n][n - 1];
    }
  }

  // ----- the order of Python strings: by code point, a proper prefix first -----

  predicate StringLeq(a: string, b: string) {
    a == "" || (b != "" && (a[0] < b[0] || (a[0] == b[0] && StringLeq(a[1..], b[1..]))))
  }

  lemma {:induction false} StringLeqTotal(a: string, b: string)
    ensures StringLeq(a, b) || StringLeq(b, a)
    ensures StringLeq(a, b) && StringLeq(b, a) ==> a == b
  {
    if a != "" && b != "" && a[0] == b[0] {
      StringLeqTotal(a[1..], b[1..]);
      assert a == [a[0]] + a[1..] && b == [b[0]] + b[1..];
    }
  }

  lemma {:induction false} StringLeqTransitive(a: string, b: string, c: string)
    requires StringLeq(a, b) && StringLeq(b, c)
    ensures StringLeq(a, c)
  {
    if a != "" && a[0] == b[0] == c[0] {
      StringLeqTransitive(a[1..], b[1..], c[1..]);
    }
  }

  /** The order of strings: `a` ends inside `b`, or they differ first where `a` has the smaller
      character. */
  predicate Lexicographic(a: string, b: string) {
    exists p :: 0 <= p <= |a| && p <= |b| && a[..p] == b[..p]
                && (p == |a| || (p < |b| && a[p] < b[p]))
  }

  lemma {:induction false} StringLeqIff(a: string, b: string)
    ensures StringLeq(a, b) <==> Lexicographic(a, b)
  {
    if a == "" {
      assert a[..0] == b[..0];
    } else if b != "" {
      if a[0] != b[0] {
        assert a[..0] == b[..0];
        assert forall p :: 1 <= p <= |a| && p <= |b| ==> a[..p][0] != b[..p][0];
      } else {
        StringLeqIff(a[1..], b[1..]);
        LexicographicLater(a, b);
      }
    }
  }

  lemma LexicographicLater(a: string, b: string)
    requires a != "" && b != "" && a[0] == b[0]
    ensures Lexicographic(a, b) <==> Lexicographic(a[1..], b[1..])
  {
    if Lexicographic(a, b) {
      var p :| 0 <= p <= |a| && p <= |b| && a[..p] == b[..p] && (p == |a| || (p < |b| && a[p] < b[p]));
      assert a[1..][..p - 1] == a[..p][1..] && b[1..][..p - 1] == b[..p][1..];
    }
    if Lexicographic(a[1..], b[1..]) {
      var p :| 0 <= p <= |a[1..]| && p <= |b[1..]| && a[1..][..p] == b[1..][..p]
               && (p == |a[1..]| || (p < |b[1..]| && a[1..][p] < b[1..][p]));
      assert a[..p + 1] == [a[0]] + a[1..][..p] && b[..p + 1] == [b[0]] + b[1..][..p];
    }
  }
}
