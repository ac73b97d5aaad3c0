/** Filtered nearest-neighbour search by widening: `VectorRetriever._search_candidates` in
    src/zglab_rag/retrieval/vector.py.

    The store's answer for `k` candidates is the first `k` rows of one nearest-first ranking
    of the corpus; `allowed` is the visibility and scope filter applied to a row. */
module VectorSearch {
  import opened Numbers
  import opened Filtering
  import opened Sorting
  import Seqs

  datatype Row = Row(chunkId: string, distance: real)

  datatype Config = Config(candidateFactor: nat, minimumCandidateK: nat, maximumCandidateK: nat)

  predicate ValidConfig(config: Config) {
    2 <= config.candidateFactor && 0 < config.minimumCandidateK <= config.maximumCandidateK
  }

  ghost predicate NearestFirst(ranking: seq<Row>) {
    && (forall i, j :: 0 <= i < j < |ranking| ==> ranking[i].distance <= ranking[j].distance)
    && (forall i, j :: 0 <= i < j < |ranking| ==> ranking[i].chunkId != ranking[j].chunkId)
  }

  predicate RowLeq(a: Row, b: Row) {
    a.distance < b.distance || (a.distance == b.distance && StringLeq(a.chunkId, b.chunkId))
  }

  function Times(a: nat, b: nat): nat {
    a * b
  }

  /** The filtered and sorted answer from the `k` nearest vectors. */
  function Answer(ranking: seq<Row>, allowed: Row -> bool, k: nat): seq<Row>
    requires k <= |ranking|
  {
    Sort(Filter(ranking[..k], allowed), RowLeq)
  }

  /** The candidate count at which widening from `k` stops. */
  ghost function Widened(ranking: seq<Row>, allowed: Row -> bool, topK: nat, factor: nat, maximum: nat,
                         k: nat): (r: nat)
    requires k <= maximum <= |ranking|
    ensures k <= r <= maximum
    ensures topK <= |Filter(ranking[..r], allowed)| || r == maximum
    decreases maximum - k
  {
    if topK <= |Filter(ranking[..k], allowed)| || maximum <= k then k
    else Widened(ranking, allowed, topK, factor, maximum, Min(maximum, Max(k + 1, Times(k, factor))))
  }

  /** The candidate count of a search. */
  ghost function Candidates(ranking: seq<Row>, allowed: Row -> bool, topK: nat, config: Config): (k: nat)
    ensures k <= |ranking|
  {
    var maximum := Min(|ranking|, config.maximumCandidateK);
    var first := Min(maximum, Max(Times(topK, config.candidateFactor), config.minimumCandidateK));
    Widened(ranking, allowed, topK, config.candidateFactor, maximum, first)
  }

  method SearchCandidates(ranking: seq<Row>, allowed: Row -> bool, topK: nat, config: Config)
    returns (rows: seq<Row>, candidates: nat, filtered: nat)
    requires ValidConfig(config) && 0 < topK && NearestFirst(ranking)
    ensures var maximum := Min(|ranking|, config.maximumCandidateK);
            && candidates == Candidates(ranking, allowed, topK, config)
            && rows == Answer(ranking, allowed, candidates)
            && candidates == |rows| + filtered
            && (topK <= |rows| || candidates == maximum)
            && Distances(Take(rows, topK)) == Distances(Take(Answer(ranking, allowed, maximum), topK))
  {
    if |ranking| == 0 {
      assert ranking[..0] == [];
      return [], 0, 0;
    }
    var maximum := Min(|ranking|, config.maximumCandidateK);
    var k := Min(maximum, Max(Times(topK, config.candidateFactor), config.minimumCandidateK));
    ghost var first := k;
    while true
      invariant k <= maximum
      invariant Widened(ranking, allowed, topK, config.candidateFactor, maximum, k)
             == Widened(ranking, allowed, topK, config.candidateFactor, maximum, first)
      decreases maximum - k
    {
      var found := ranking[..k];
      var kept := Filter(found, allowed);
      rows := Sort(kept, RowLeq);
      SortKeepsElements(kept, RowLeq);
      candidates, filtered := |found|, |found| - |rows|;
      if |rows| >= topK || k >= maximum {
        break;
      }
      k := Min(maximum, Max(k + 1, Times(k, config.candidateFactor)));
    }
    TopDistances(ranking, allowed, topK, k, maximum);
  }

  lemma TopDistances(ranking: seq<Row>, allowed: Row -> bool, topK: nat, k: nat, maximum: nat)
    requires k <= maximum <= |ranking| && NearestFirst(ranking)
    requires topK <= |Answer(ranking, allowed, k)| || k == maximum
    ensures Distances(Take(Answer(ranking, allowed, k), topK))
         == Distances(Take(Answer(ranking, allowed, maximum), topK))
  {
    WideningKeepsDistances(ranking, allowed, k, maximum);
    var a, b := Answer(ranking, allowed, k), Answer(ranking, allowed, maximum);
    forall i | 0 <= i < |Take(a, topK)| ensures a[i].distance == b[i].distance {
      assert Distances(a)[i] == Distances(b)[i];
    }
  }

  // ----- the widened answer against the exhaustive one -----

  lemma RowOrder()
    ensures TotalPreorder(RowLeq)
    ensures forall a, b :: RowLeq(a, b) && RowLeq(b, a) ==> a == b
  {
    forall a, b ensures RowLeq(a, b) || RowLeq(b, a)
      ensures RowLeq(a, b) && RowLeq(b, a) ==> a == b
    {
      StringLeqTotal(a.chunkId, b.chunkId);
    }
    forall a, b, c | RowLeq(a, b) && RowLeq(b, c) ensures RowLeq(a, c) {
      if a.distance == b.distance == c.distance {
        StringLeqTransitive(a.chunkId, b.chunkId, c.chunkId);
      }
    }
  }

  function Distances(rows: seq<Row>): (d: seq<real>)
    ensures |d| == |rows|
  {
    seq(|rows|, i requires 0 <= i < |rows| => rows[i].distance)
  }

  ghost predicate Ascending(d: seq<real>) {
    SortedBy(d, (a: real, b: real) => a <= b)
  }

  lemma {:induction false} DistancesOfPermutation(a: seq<Row>, b: seq<Row>)
    requires multiset(a) == multiset(b)
    ensures multiset(Distances(a)) == multiset(Distances(b))
  {
    SameElements(a, b);
    if a != [] {
      var n := |a| - 1;
      assert a[n] in a;
      var i :| 0 <= i < |b| && b[i] == a[n];
      Seqs.RemoveAt(a, n);
      Seqs.RemoveAt(b, i);
      DistancesWithout(a, n);
      DistancesWithout(b, i);
      DistancesOfPermutation(a[..n] + a[n + 1..], b[..i] + b[i + 1..]);
    }
  }

  lemma DistancesWithout(b: seq<Row>, i: nat)
    requires i < |b|
    ensures multiset(Distances(b)) == multiset(Distances(b[..i] + b[i + 1..])) + multiset{b[i].distance}
  {
    Seqs.RemoveAt(Distances(b), i);
    assert Distances(b[..i] + b[i + 1..]) == Distances(b)[..i] + Distances(b)[i + 1..];
  }

  /** The rows the store has not been asked for, up to `maximum`. */
  function Unseen(ranking: seq<Row>, allowed: Row -> bool, k: nat, maximum: nat): seq<Row>
    requires k <= maximum <= |ranking|
  {
    Filter(ranking[k..maximum], allowed)
  }

  lemma SeenAndUnseen(ranking: seq<Row>, allowed: Row -> bool, k: nat, maximum: nat)
    requires k <= maximum <= |ranking| && NearestFirst(ranking)
    ensures Filter(ranking[..maximum], allowed) == Filter(ranking[..k], allowed) + Unseen(ranking, allowed, k, maximum)
    ensures forall x, y :: x in Filter(ranking[..k], allowed) && y in Unseen(ranking, allowed, k, maximum) ==>
      x.distance <= y.distance
    ensures forall x :: x in Filter(ranking[..k], allowed) ==> x !in Unseen(ranking, allowed, k, maximum)
  {
    var seen, unseen := ranking[..k], ranking[k..maximum];
    assert ranking[..maximum] == seen + unseen;
    FilterConcat(seen, unseen, allowed);
    FilterElements(seen, allowed);
    FilterElements(unseen, allowed);
    NearerComeFirst(ranking, k, maximum);
  }

  lemma NearerComeFirst(ranking: seq<Row>, k: nat, maximum: nat)
    requires k <= maximum <= |ranking| && NearestFirst(ranking)
    ensures forall x, y :: x in ranking[..k] && y in ranking[k..maximum] ==> x.distance <= y.distance && x != y
  {
  }

  lemma RowsAscend(rows: seq<Row>)
    requires SortedBy(rows, RowLeq)
    ensures Ascending(Distances(rows))
  {
  }

  /** The widened answer's distances are the first of the exhaustive answer's: widening never
      misses a nearer row. */
  lemma WideningKeepsDistances(ranking: seq<Row>, allowed: Row -> bool, k: nat, maximum: nat)
    requires k <= maximum <= |ranking| && NearestFirst(ranking)
    ensures Distances(Answer(ranking, allowed, k)) <= Distances(Answer(ranking, allowed, maximum))
  {
    var seen, unseen := Filter(ranking[..k], allowed), Unseen(ranking, allowed, k, maximum);
    var all := Filter(ranking[..maximum], allowed);
    SeenAndUnseen(ranking, allowed, k, maximum);
    SortedDistances(seen);
    SortedDistances(unseen);
    SortedDistances(all);
    var a, e, b := Sort(seen, RowLeq), Sort(unseen, RowLeq), Sort(all, RowLeq);
    assert multiset(a + e) == multiset(b);
    DistancesOfPermutation(a + e, b);
    JoinAscends(a, e, seen, unseen);
    DistancesConcat(a, e);
    SortedIsUnique(Distances(a + e), Distances(b), (x: real, y: real) => x <= y);
  }

  lemma DistancesConcat(a: seq<Row>, b: seq<Row>)
    ensures Distances(a + b) == Distances(a) + Distances(b)
  {
  }

  lemma SortedDistances(rows: seq<Row>)
    ensures Ascending(Distances(Sort(rows, RowLeq))) && multiset(Sort(rows, RowLeq)) == multiset(rows)
  {
    RowOrder();
    SortIsSorted(rows, RowLeq);
    RowsAscend(Sort(rows, RowLeq));
  }

  lemma JoinAscends(a: seq<Row>, e: seq<Row>, seen: seq<Row>, unseen: seq<Row>)
    requires Ascending(Distances(a)) && Ascending(Distances(e))
    requires multiset(a) == multiset(seen) && multiset(e) == multiset(unseen)
    requires forall x, y :: x in seen && y in unseen ==> x.distance <= y.distance
    ensures Ascending(Distances(a + e))
  {
    SameElements(a, seen);
    SameElements(e, unseen);
    forall i, j | 0 <= i < j < |a + e| ensures Distances(a + e)[i] <= Distances(a + e)[j] {
      if i < |a| <= j {
        assert a[i] in a && e[j - |a|] in e;
      } else if j < |a| {
        assert Distances(a)[i] <= Distances(a)[j];
      } else {
        assert Distances(e)[i - |a|] <= Distances(e)[j - |a|];
      }
    }
  }

  /** The rows that come no later than `row` in the order of the answer. */
  function UpTo(row: Row): Row -> bool {
    (r: Row) => RowLeq(r, row)
  }

  /** Every row that passes the filter but lies beyond the prefix comes after `topK` rows of it. */
  ghost predicate NoTieCutOff(ranking: seq<Row>, allowed: Row -> bool, topK: nat, k: nat, maximum: nat)
    requires k <= maximum <= |ranking|
  {
    forall e :: e in Unseen(ranking, allowed, k, maximum)
      ==> topK <= |Filter(Filter(ranking[..k], allowed), UpTo(e))|
  }

  /** Counting the rows up to `e` finds where it goes. */
  lemma UpToCounts(rows: seq<Row>, n: nat, e: Row)
    requires 0 < n <= |Sort(rows, RowLeq)|
    ensures RowLeq(Sort(rows, RowLeq)[n - 1], e) <==> n <= |Filter(rows, UpTo(e))|
  {
    RowOrder();
    SortIsSorted(rows, RowLeq);
    FilterOfPermutation(rows, Sort(rows, RowLeq), UpTo(e));
    FilterOfSorted(Sort(rows, RowLeq), n, e);
  }

  lemma {:induction false} FilterOfSorted(rows: seq<Row>, n: nat, e: Row)
    requires SortedBy(rows, RowLeq) && 0 < n <= |rows|
    ensures RowLeq(rows[n - 1], e) <==> n <= |Filter(rows, UpTo(e))|
  {
    var m := |rows| - 1;
    RowOrder();
    if RowLeq(rows[m], e) {
      assert forall i :: 0 <= i <= m ==> RowLeq(rows[i], rows[m]);
      FilterAll(rows, UpTo(e));
    } else if n <= m {
      FilterOfSorted(rows[..m], n, e);
    }
  }

  /** The `topK` rows returned are those of the exhaustive search exactly when no row that ties
      or precedes them was cut off by the prefix. */
  lemma WideningKeepsRowsUnlessTied(ranking: seq<Row>, allowed: Row -> bool, topK: nat, k: nat, maximum: nat)
    requires k <= maximum <= |ranking| && NearestFirst(ranking)
    requires 0 < topK <= |Filter(ranking[..k], allowed)|
    ensures Take(Answer(ranking, allowed, k), topK) == Take(Answer(ranking, allowed, maximum), topK)
        <==> NoTieCutOff(ranking, allowed, topK, k, maximum)
  {
    var seen, unseen := Filter(ranking[..k], allowed), Unseen(ranking, allowed, k, maximum);
    RowOrder();
    SeenAndUnseen(ranking, allowed, k, maximum);
    SortKeepsElements(seen, RowLeq);
    SameElements(Sort(seen, RowLeq), seen);
    FirstOfPart(seen, unseen, Filter(ranking[..maximum], allowed), topK, RowLeq);
    forall e | e in unseen
      ensures RowLeq(Sort(seen, RowLeq)[topK - 1], e) <==> topK <= |Filter(seen, UpTo(e))|
    {
      UpToCounts(seen, topK, e);
    }
  }

  /** With distinct distances there is nothing to tie, so the rows agree. */
  lemma DistinctDistancesNeverTie(ranking: seq<Row>, allowed: Row -> bool, topK: nat, k: nat, maximum: nat)
    requires k <= maximum <= |ranking| && NearestFirst(ranking)
    requires forall i, j :: 0 <= i < j < |ranking| ==> ranking[i].distance != ranking[j].distance
    requires 0 < topK <= |Filter(ranking[..k], allowed)|
    ensures Take(Answer(ranking, allowed, k), topK) == Take(Answer(ranking, allowed, maximum), topK)
  {
    var seen := Filter(ranking[..k], allowed);
    FilterElements(ranking[..k], allowed);
    FilterElements(ranking[k..maximum], allowed);
    forall e | e in Unseen(ranking, allowed, k, maximum) ensures topK <= |Filter(seen, UpTo(e))| {
      forall r | r in seen ensures RowLeq(r, e) {
        StrictlyNearer(ranking, k, maximum, r, e);
      }
      FilterAll(seen, UpTo(e));
    }
    WideningKeepsRowsUnlessTied(ranking, allowed, topK, k, maximum);
  }

  lemma StrictlyNearer(ranking: seq<Row>, k: nat, maximum: nat, r: Row, e: Row)
    requires k <= maximum <= |ranking| && NearestFirst(ranking)
    requires forall i, j :: 0 <= i < j < |ranking| ==> ranking[i].distance != ranking[j].distance
    requires r in ranking[..k] && e in ranking[k..maximum]
    ensures r.distance < e.distance
  {
  }

  lemma TiedPairSorts(first: Row, second: Row)
    requires first.distance == second.distance && first.chunkId != second.chunkId
    requires StringLeq(second.chunkId, first.chunkId)
    ensures Sort([first], RowLeq) == [first] && Sort([first, second], RowLeq) == [second, first]
  {
    RowOrder();
    SortOfSorted([first], RowLeq);
    assert multiset([first, second]) == multiset([second, first]);
    SortIsUnique([first, second], [second, first], RowLeq);
  }

  lemma TwoOfThree(hidden: Row, first: Row, second: Row, allowed: Row -> bool)
    requires !allowed(hidden) && allowed(first) && allowed(second)
    ensures Filter([hidden, first, second][..2], allowed) == [first]
    ensures Filter([hidden, first, second][..3], allowed) == [first, second]
  {
    assert [hidden, first, second][..2] == [hidden] + [first];
    assert [hidden, first, second][..3] == [hidden] + [first, second];
    NoneKept([hidden], allowed);
    FilterAll([first], allowed);
    FilterAll([first, second], allowed);
    FilterConcat([hidden], [first], allowed);
    FilterConcat([hidden], [first, second], allowed);
  }

  lemma TwoSuffice(ranking: seq<Row>, allowed: Row -> bool, config: Config)
    requires ValidConfig(config) && config.candidateFactor == 2
    requires config.minimumCandidateK <= 2 && config.maximumCandidateK >= 3
    requires |ranking| == 3 && |Filter(ranking[..2], allowed)| == 1
    ensures Candidates(ranking, allowed, 1, config) == 2
  {
    assert Times(1, 2) == 2;
  }

  /** Two visible rows at one distance behind a hidden one, the later first by id: a search for
      one row widens to two candidates and returns the one that the exhaustive search does not. */
  lemma TieAtTheLimitChangesTheRow(hidden: Row, first: Row, second: Row, allowed: Row -> bool, config: Config)
    requires ValidConfig(config) && config.candidateFactor == 2
    requires config.minimumCandidateK <= 2 && config.maximumCandidateK >= 3
    requires NearestFirst([hidden, first, second]) && !allowed(hidden) && allowed(first) && allowed(second)
    requires first.distance == second.distance && StringLeq(second.chunkId, first.chunkId)
    ensures var ranking := [hidden, first, second];
            && Candidates(ranking, allowed, 1, config) == 2
            && Answer(ranking, allowed, 2) == [first]
            && Take(Answer(ranking, allowed, 3), 1) == [second]
  {
    var ranking := [hidden, first, second];
    assert ranking[1].chunkId != ranking[2].chunkId;
    TwoOfThree(hidden, first, second, allowed);
    TwoSuffice(ranking, allowed, config);
    TiedPairSorts(first, second);
  }
}
