/** How far a filtered search widens and which rows it returns, said of the ranking alone:
    `_search_candidates` in src/zglab_rag/retrieval/vector.py. */
module SearchLaws {
  import opened Filtering
  import opened Numbers
  import opened Sorting
  import opened VectorSearch

  // ----- the rows -----

  /** The answer from `k` candidates holds exactly the allowed rows among the `k` nearest, ... */
  lemma AnswerHolds(ranking: seq<Row>, allowed: Row -> bool, k: nat, row: Row)
    requires k <= |ranking|
    ensures row in Answer(ranking, allowed, k) <==> allowed(row) && exists i :: 0 <= i < k && ranking[i] == row
    ensures multiset(Answer(ranking, allowed, k))[row] == if allowed(row) then multiset(ranking[..k])[row] else 0
  {
    var kept := Filter(ranking[..k], allowed);
    SortKeepsElements(kept, RowLeq);
    SameElements(Sort(kept, RowLeq), kept);
    FilterElements(ranking[..k], allowed);
    FilterCounts(ranking[..k], allowed, row);
  }

  /** ... the nearer first, and rows at one distance in the order of their chunk ids. */
  lemma AnswerIsOrdered(ranking: seq<Row>, allowed: Row -> bool, k: nat, i: nat, j: nat)
    requires k <= |ranking| && i < j < |Answer(ranking, allowed, k)|
    ensures var a, b := Answer(ranking, allowed, k)[i], Answer(ranking, allowed, k)[j];
            a.distance < b.distance || (a.distance == b.distance && Lexicographic(a.chunkId, b.chunkId))
  {
    RowOrder();
    SortIsSorted(Filter(ranking[..k], allowed), RowLeq);
    var a, b := Answer(ranking, allowed, k)[i], Answer(ranking, allowed, k)[j];
    assert RowLeq(a, b);
    StringLeqIff(a.chunkId, b.chunkId);
  }

  // ----- the candidate count -----

  /** `first` multiplied `n` times by the factor. */
  function Stage(first: nat, factor: nat, n: nat): nat {
    if n == 0 then first else Stage(first, factor, n - 1) * factor
  }

  lemma Grows(k: nat, factor: nat)
    requires k >= 1 && factor >= 2
    ensures k * factor >= k + 1
  {
  }

  /** Enough of the `k` nearest rows pass the filter. */
  predicate Suffices(ranking: seq<Row>, allowed: Row -> bool, topK: nat, k: nat) {
    k <= |ranking| && topK <= |Filter(ranking[..k], allowed)|
  }

  /** Widening stops at stage `m` or at the maximum, and every earlier stage was too small. */
  ghost predicate StopsAt(ranking: seq<Row>, allowed: Row -> bool, topK: nat, factor: nat, maximum: nat, first: nat,
                          n: nat, m: nat, k: nat)
  {
    && n <= m && k == Min(maximum, Stage(first, factor, m))
    && (Suffices(ranking, allowed, topK, k) || k == maximum)
    && forall j: nat :: n <= j < m ==>
         Stage(first, factor, j) < maximum && !Suffices(ranking, allowed, topK, Stage(first, factor, j))
  }

  lemma NextStage(first: nat, factor: nat, n: nat, maximum: nat, k: nat)
    requires factor >= 2 && k >= 1 && k == Stage(first, factor, n)
    ensures Max(k + 1, Times(k, factor)) == Stage(first, factor, n + 1)
  {
    Grows(k, factor);
  }

  lemma {:induction false} WidenedStops(ranking: seq<Row>, allowed: Row -> bool, topK: nat, factor: nat, maximum: nat,
                                        first: nat, n: nat, k: nat) returns (m: nat)
    requires factor >= 2 && 1 <= k <= maximum <= |ranking| && k == Min(maximum, Stage(first, factor, n))
    ensures StopsAt(ranking, allowed, topK, factor, maximum, first, n, m,
                    Widened(ranking, allowed, topK, factor, maximum, k))
    decreases maximum - k
  {
    if Suffices(ranking, allowed, topK, k) || maximum <= k {
      m := n;
    } else {
      NextStage(first, factor, n, maximum, k);
      m := WidenedStops(ranking, allowed, topK, factor, maximum, first, n + 1,
                        Min(maximum, Stage(first, factor, n + 1)));
    }
  }

  /** The candidate count of a search over a corpus that is not empty: starting from `topK` times
      the factor, or the configured minimum if that is more, it is multiplied by the factor until
      enough rows pass the filter or the maximum is reached. */
  lemma WidensByTheFactor(ranking: seq<Row>, allowed: Row -> bool, topK: nat, config: Config, maximum: nat, first: nat)
    returns (m: nat)
    requires ValidConfig(config) && ranking != []
    requires maximum == Min(|ranking|, config.maximumCandidateK)
    requires first == Max(topK * config.candidateFactor, config.minimumCandidateK)
    ensures StopsAt(ranking, allowed, topK, config.candidateFactor, maximum, first, 0, m,
                    Candidates(ranking, allowed, topK, config))
  {
    m := WidenedStops(ranking, allowed, topK, config.candidateFactor, maximum, first, 0, Min(maximum, first));
  }
}
