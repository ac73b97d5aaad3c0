/** What the reranked list and its metrics are, said of scores, ranks and fields alone:
    src/zglab_rag/reranking/service.py and src/zglab_rag/evaluation/retrieval.py. */
module RankingLaws {
  import opened Filtering
  import opened Numbers
  import opened Options
  import opened Reranking
  import opened Sorting
  import Seqs

  // ----- the reranked list -----

  /** A candidate with its own place and score; places count from one. */
  predicate Places(s: Scored, candidates: seq<Item>, scores: seq<real>)
    requires |scores| == |candidates|
  {
    && 1 <= s.originalRank <= |candidates|
    && s.score == scores[s.originalRank - 1] && s.item == candidates[s.originalRank - 1]
  }

  /** The list names candidates, none twice. */
  ghost predicate NamesPlaces(r: seq<Scored>, candidates: seq<Item>, scores: seq<real>)
    requires |scores| == |candidates|
  {
    && (forall k :: 0 <= k < |r| ==> Places(r[k], candidates, scores))
    && forall k, l :: 0 <= k < l < |r| ==> r[k].originalRank != r[l].originalRank
  }

  /** A reranked list is ordered by falling score, equal scores by rank. */
  ghost predicate FallsInScore(r: seq<Scored>) {
    forall k, l :: 0 <= k < l < |r| ==>
      r[k].score > r[l].score || (r[k].score == r[l].score && r[k].originalRank < r[l].originalRank)
  }

  lemma ZipNamesPlaces(candidates: seq<Item>, scores: seq<real>, s: Scored)
    requires |scores| == |candidates| && s in Zip(candidates, scores)
    ensures Places(s, candidates, scores)
  {
  }

  lemma ZipHolds(candidates: seq<Item>, scores: seq<real>, i: nat)
    requires |scores| == |candidates| && i < |candidates|
    ensures Scored(scores[i], i + 1, candidates[i]) in Zip(candidates, scores)
  {
    assert Zip(candidates, scores)[i] == Scored(scores[i], i + 1, candidates[i]);
  }

  lemma ZipIsDistinct(candidates: seq<Item>, scores: seq<real>)
    requires |scores| == |candidates|
    ensures Distinct(Zip(candidates, scores))
  {
    var zip := Zip(candidates, scores);
    assert forall i :: 0 <= i < |zip| ==> zip[i].originalRank == i + 1;
  }

  lemma RanksDiffer(candidates: seq<Item>, scores: seq<real>, k: nat, l: nat)
    requires |scores| == |candidates| && k < l < |Reranked(candidates, scores)|
    ensures Reranked(candidates, scores)[k].originalRank != Reranked(candidates, scores)[l].originalRank
  {
    var zip, r := Zip(candidates, scores), Reranked(candidates, scores);
    RerankingIsUndone(candidates, scores);
    SameElements(r, zip);
    assert r[k] in r && r[l] in r;
    ZipNamesPlaces(candidates, scores, r[k]);
    ZipNamesPlaces(candidates, scores, r[l]);
    if r[k].originalRank == r[l].originalRank {
      ZipIsDistinct(candidates, scores);
      DistinctOfPermutation(zip, r);
    }
  }

  lemma RerankedNamesPlaces(candidates: seq<Item>, scores: seq<real>)
    requires |scores| == |candidates|
    ensures |Reranked(candidates, scores)| == |candidates|
    ensures NamesPlaces(Reranked(candidates, scores), candidates, scores)
  {
    var zip, r := Zip(candidates, scores), Reranked(candidates, scores);
    RerankingIsUndone(candidates, scores);
    SameElements(r, zip);
    forall k | 0 <= k < |r| ensures Places(r[k], candidates, scores) {
      assert r[k] in r;
      ZipNamesPlaces(candidates, scores, r[k]);
    }
    forall k, l | 0 <= k < l < |r| ensures r[k].originalRank != r[l].originalRank {
      RanksDiffer(candidates, scores, k, l);
    }
  }

  lemma SortedFalls(r: seq<Scored>, k: nat, l: nat)
    requires SortedBy(r, BetterScore) && k < l < |r| && r[k].originalRank != r[l].originalRank
    ensures r[k].score > r[l].score || (r[k].score == r[l].score && r[k].originalRank < r[l].originalRank)
  {
    assert BetterScore(r[k], r[l]);
  }

  lemma RerankedFalls(candidates: seq<Item>, scores: seq<real>)
    requires |scores| == |candidates|
    ensures FallsInScore(Reranked(candidates, scores))
  {
    var r := Reranked(candidates, scores);
    RerankingIsUndone(candidates, scores);
    forall k, l | 0 <= k < l < |r|
      ensures r[k].score > r[l].score || (r[k].score == r[l].score && r[k].originalRank < r[l].originalRank)
    {
      RanksDiffer(candidates, scores, k, l);
      SortedFalls(r, k, l);
    }
  }

  /** Every place is named by the whole list. */
  lemma EveryPlaceIsNamed(candidates: seq<Item>, scores: seq<real>, i: nat) returns (k: nat)
    requires |scores| == |candidates| && i < |candidates|
    ensures k < |Reranked(candidates, scores)| && Reranked(candidates, scores)[k].originalRank == i + 1
    ensures Reranked(candidates, scores)[k].score == scores[i]
  {
    RerankingIsUndone(candidates, scores);
    SameElements(Reranked(candidates, scores), Zip(candidates, scores));
    ZipHolds(candidates, scores, i);
    k :| 0 <= k < |Reranked(candidates, scores)|
         && Reranked(candidates, scores)[k] == Scored(scores[i], i + 1, candidates[i]);
  }

  /** The list holds the best `n` places, or all there are. */
  ghost predicate IsTop(r: seq<Scored>, candidates: seq<Item>, scores: seq<real>, n: nat)
    requires |scores| == |candidates|
  {
    && |r| == Min(n, |candidates|) && NamesPlaces(r, candidates, scores) && FallsInScore(r)
    && forall i, k ::
         0 <= i < |candidates| && 0 <= k < |r| && (forall l :: 0 <= l < |r| ==> r[l].originalRank != i + 1) ==>
         r[k].score > scores[i] || (r[k].score == scores[i] && r[k].originalRank < i + 1)
  }

  /** RerankedRetriever.retrieve, the whole of it: it fails for a bad `topK` and for scores that
      do not match, and otherwise returns the best `topK` candidates by falling score, equal
      scores in vector order. */
  lemma RetrievesTheTop(candidates: seq<Item>, scores: seq<real>, topK: int, c: Config)
    ensures Retrieve(candidates, scores, topK, c).None? <==>
            !(1 <= topK <= Min(c.candidateK, c.maximumTopK)) || (candidates != [] && |scores| != |candidates|)
    ensures Retrieve(candidates, scores, topK, c).Some? && |scores| == |candidates| ==>
            IsTop(Retrieve(candidates, scores, topK, c).value, candidates, scores, topK)
    ensures Retrieve(candidates, scores, topK, c).Some? && candidates == [] ==>
            Retrieve(candidates, scores, topK, c).value == []
  {
    if Retrieve(candidates, scores, topK, c).Some? && |scores| == |candidates| && candidates != [] {
      TakenIsTop(candidates, scores, topK);
    }
  }

  lemma TakenIsTop(candidates: seq<Item>, scores: seq<real>, n: nat)
    requires |scores| == |candidates|
    ensures IsTop(Take(Reranked(candidates, scores), n), candidates, scores, n)
  {
    var all, r := Reranked(candidates, scores), Take(Reranked(candidates, scores), n);
    RerankedNamesPlaces(candidates, scores);
    RerankedFalls(candidates, scores);
    forall i, k | 0 <= i < |candidates| && 0 <= k < |r| && (forall l :: 0 <= l < |r| ==> r[l].originalRank != i + 1)
      ensures r[k].score > scores[i] || (r[k].score == scores[i] && r[k].originalRank < i + 1)
    {
      var place := EveryPlaceIsNamed(candidates, scores, i);
      assert place >= |r|;
      assert r[k] == all[k];
    }
  }

  // ----- the metrics -----

  /** The item is of the target's source and path, in the target's section or below it. */
  predicate Answers(item: Item, target: Target) {
    && item.sourceId == target.sourceId && item.path == target.path && |target.section| <= |item.section|
    && forall k :: 0 <= k < |target.section| ==> item.section[k] == target.section[k]
  }

  lemma MatchesIff(target: Target, item: Item)
    ensures Matches(target, item) <==> Answers(item, target)
  {
  }

  /** One of the first `cutoff` items answers the target. */
  predicate AnsweredBy(target: Target, ranking: seq<Item>, cutoff: nat) {
    exists i :: 0 <= i < |ranking| && i < cutoff && Answers(ranking[i], target)
  }

  lemma FoundIff(target: Target, ranking: seq<Item>, cutoff: nat)
    ensures Found(target, Take(ranking, cutoff)) <==> AnsweredBy(target, ranking, cutoff)
  {
    var few := Take(ranking, cutoff);
    if AnsweredBy(target, ranking, cutoff) {
      var i :| 0 <= i < |ranking| && i < cutoff && Answers(ranking[i], target);
      assert few[i] in few && Matches(target, few[i]);
    }
    if Found(target, few) {
      var item :| item in few && Matches(target, item);
      var i :| 0 <= i < |few| && few[i] == item;
      assert Answers(ranking[i], target);
    }
  }

  /** The places of the targets that the first `cutoff` items answer. */
  function Answered(targets: seq<Target>, ranking: seq<Item>, cutoff: nat): set<nat> {
    set j: nat | j < |targets| && AnsweredBy(targets[j], ranking, cutoff)
  }

  lemma {:induction false} RetrievedCounts(targets: seq<Target>, ranking: seq<Item>, cutoff: nat)
    ensures Retrieved(targets, Take(ranking, cutoff)) == |Answered(targets, ranking, cutoff)|
  {
    if targets != [] {
      var n := |targets| - 1;
      RetrievedCounts(targets[..n], ranking, cutoff);
      FoundIff(targets[n], ranking, cutoff);
      var before, all := Answered(targets[..n], ranking, cutoff), Answered(targets, ranking, cutoff);
      assert all == before + if AnsweredBy(targets[n], ranking, cutoff) then {n} else {};
    }
  }

  lemma Quotient(a: real, b: real)
    requires b != 0.0
    ensures a / b * b == a
  {
  }

  /** Recall is the share of the targets answered within the cutoff. */
  lemma RecallIsAShare(query: Query, ranking: seq<Item>, cutoff: nat)
    requires query.relevant != []
    ensures Recall(query, ranking, cutoff) * |query.relevant| as real
         == |Answered(query.relevant, ranking, cutoff)| as real
  {
    RetrievedCounts(query.relevant, ranking, cutoff);
    Quotient(Retrieved(query.relevant, Take(ranking, cutoff)) as real, |query.relevant| as real);
  }

  /** A hit is any target answered within the cutoff. */
  lemma HitIff(query: Query, ranking: seq<Item>, cutoff: nat)
    ensures Hit(query, ranking, cutoff)
         == if exists j :: 0 <= j < |query.relevant| && AnsweredBy(query.relevant[j], ranking, cutoff) then 1.0 else 0.0
  {
    RetrievedCounts(query.relevant, ranking, cutoff);
    var answered := Answered(query.relevant, ranking, cutoff);
    if j: nat :| j < |query.relevant| && AnsweredBy(query.relevant[j], ranking, cutoff) {
      assert j in answered;
    } else {
      assert answered == {};
    }
  }

  /** The item answers some target. */
  predicate IsAnswer(item: Item, query: Query) {
    exists j :: 0 <= j < |query.relevant| && Answers(item, query.relevant[j])
  }

  lemma RelevantIff(query: Query, item: Item)
    ensures IsRelevant(query, item) <==> IsAnswer(item, query)
  {
    if IsRelevant(query, item) {
      var target :| target in query.relevant && Matches(target, item);
      var j :| 0 <= j < |query.relevant| && query.relevant[j] == target;
      MatchesIff(target, item);
    }
    if IsAnswer(item, query) {
      var j :| 0 <= j < |query.relevant| && Answers(item, query.relevant[j]);
      MatchesIff(query.relevant[j], item);
    }
  }

  /** The first rank is the place of the first answer, 0 without one. */
  lemma RankOfFirst(query: Query, ranking: seq<Item>, i: nat)
    requires forall k :: 0 <= k < i && k < |ranking| ==> !IsAnswer(ranking[k], query)
    requires i >= |ranking| || IsAnswer(ranking[i], query)
    ensures FirstRank(query, ranking) == if i < |ranking| then i + 1 else 0
  {
    FirstRankIsFirst(query, ranking);
    forall k | 0 <= k < |ranking| ensures IsRelevant(query, ranking[k]) <==> IsAnswer(ranking[k], query) {
      RelevantIff(query, ranking[k]);
    }
    if FirstRank(query, ranking) > 0 {
      assert IsRelevant(query, ranking[FirstRank(query, ranking) - 1]);
    }
  }

  /** A rank times its reciprocal is 1; no rank has reciprocal 0. */
  lemma ReciprocalInverts(rank: nat)
    ensures rank > 0 ==> Reciprocal(rank) * rank as real == 1.0
    ensures rank == 0 ==> Reciprocal(rank) == 0.0
  {
    if rank > 0 {
      Quotient(1.0, rank as real);
    }
  }

  // ----- the means -----

  lemma MeansOf(m: Metrics, queries: seq<Query>, rankings: seq<seq<Item>>, cutoffs: seq<nat>, c: nat, n: real)
    requires |queries| == |rankings| > 0 && Scorable(queries) && Distinct(cutoffs) && n == |queries| as real
    requires AreMetrics(m, queries, rankings, cutoffs)
    ensures c in m.recallAt <==> c in cutoffs
    ensures c in m.hitAt <==> c in cutoffs
    ensures c in cutoffs ==> m.recallAt[c] == RecallSum(queries, rankings, c) / n
    ensures c in cutoffs ==> m.hitAt[c] == HitSum(queries, rankings, c) / n
    ensures m.mrr == ReciprocalSum(queries, rankings) / n
  {
    ListedOnce(cutoffs, c);
    OnceRepeated(RecallSum(queries, rankings, c));
    OnceRepeated(HitSum(queries, rankings, c));
  }

  lemma DividedByOne(x: real, n: real)
    requires n == 1.0
    ensures x / n == x
  {
  }

  lemma SumsOfOne(query: Query, ranking: seq<Item>, c: nat)
    requires query.relevant != []
    ensures Scorable([query])
    ensures RecallSum([query], [ranking], c) == Recall(query, ranking, c)
    ensures HitSum([query], [ranking], c) == Hit(query, ranking, c)
    ensures ReciprocalSum([query], [ranking]) == Reciprocal(FirstRank(query, ranking))
  {
    SumsMore([query], [ranking], 0);
    assert [query][..1] == [query] && [ranking][..1] == [ranking];
    assert [query][..0] == [] && [ranking][..0] == [];
  }

  /** With one query the metrics are those of the query. */
  lemma MetricsOfOne(m: Metrics, query: Query, ranking: seq<Item>, cutoffs: seq<nat>, c: nat)
    requires query.relevant != [] && Distinct(cutoffs) && AreMetrics(m, [query], [ranking], cutoffs)
    ensures c in m.recallAt <==> c in cutoffs
    ensures c in m.hitAt <==> c in cutoffs
    ensures c in cutoffs ==> m.recallAt[c] == Recall(query, ranking, c) && m.hitAt[c] == Hit(query, ranking, c)
    ensures m.mrr == Reciprocal(FirstRank(query, ranking))
  {
    MeansOf(m, [query], [ranking], cutoffs, c, 1.0);
    SumsOfOne(query, ranking, c);
    DividedByOne(RecallSum([query], [ranking], c), 1.0);
    DividedByOne(HitSum([query], [ranking], c), 1.0);
    DividedByOne(ReciprocalSum([query], [ranking]), 1.0);
  }

  /** `next` is the mean of n + 1 numbers when `mean` is that of the first n and `x` is the last. */
  predicate MeanMoves(mean: real, next: real, n: real, more: real, x: real) {
    next * more == mean * n + x
  }

  lemma MeanOfMore(mean: real, next: real, n: real, more: real, sum: real, total: real, x: real)
    requires n > 0.0 && more > 0.0 && mean == sum / n && next == total / more && total == sum + x
    ensures MeanMoves(mean, next, n, more, x)
  {
    Quotient(sum, n);
    Quotient(total, more);
  }

  lemma SumsOfMore(queries: seq<Query>, rankings: seq<seq<Item>>, query: Query, ranking: seq<Item>, c: nat)
    requires |queries| == |rankings| && Scorable(queries) && query.relevant != []
    ensures Scorable(queries + [query])
    ensures RecallSum(queries + [query], rankings + [ranking], c)
         == RecallSum(queries, rankings, c) + Recall(query, ranking, c)
    ensures HitSum(queries + [query], rankings + [ranking], c)
         == HitSum(queries, rankings, c) + Hit(query, ranking, c)
    ensures ReciprocalSum(queries + [query], rankings + [ranking])
         == ReciprocalSum(queries, rankings) + Reciprocal(FirstRank(query, ranking))
  {
    var qs, rs := queries + [query], rankings + [ranking];
    Seqs.DropLast(queries, query);
    Seqs.DropLast(rankings, ranking);
    SumsMore(qs, rs, |queries|);
    Seqs.TakeAll(qs);
    Seqs.TakeAll(rs);
  }

  /** One more query moves mean recall as a mean moves. */
  lemma RecallOfMore(m: Metrics, next: Metrics, queries: seq<Query>, rankings: seq<seq<Item>>, query: Query,
                     ranking: seq<Item>, cutoffs: seq<nat>, c: nat, n: real, more: real)
    requires |queries| == |rankings| > 0 && Scorable(queries) && query.relevant != [] && Distinct(cutoffs)
    requires n == |queries| as real && more == (|queries| + 1) as real && c in cutoffs
    requires AreMetrics(m, queries, rankings, cutoffs)
    requires Scorable(queries + [query]) && AreMetrics(next, queries + [query], rankings + [ranking], cutoffs)
    ensures c in m.recallAt && c in next.recallAt
    ensures MeanMoves(m.recallAt[c], next.recallAt[c], n, more, Recall(query, ranking, c))
  {
    MeansOf(m, queries, rankings, cutoffs, c, n);
    MeansOf(next, queries + [query], rankings + [ranking], cutoffs, c, more);
    SumsOfMore(queries, rankings, query, ranking, c);
    MeanOfMore(m.recallAt[c], next.recallAt[c], n, more, RecallSum(queries, rankings, c),
               RecallSum(queries + [query], rankings + [ranking], c), Recall(query, ranking, c));
  }

  /** ... and the hit rate, */
  lemma HitOfMore(m: Metrics, next: Metrics, queries: seq<Query>, rankings: seq<seq<Item>>, query: Query,
                  ranking: seq<Item>, cutoffs: seq<nat>, c: nat, n: real, more: real)
    requires |queries| == |rankings| > 0 && Scorable(queries) && query.relevant != [] && Distinct(cutoffs)
    requires n == |queries| as real && more == (|queries| + 1) as real && c in cutoffs
    requires AreMetrics(m, queries, rankings, cutoffs)
    requires Scorable(queries + [query]) && AreMetrics(next, queries + [query], rankings + [ranking], cutoffs)
    ensures c in m.hitAt && c in next.hitAt
    ensures MeanMoves(m.hitAt[c], next.hitAt[c], n, more, Hit(query, ranking, c))
  {
    MeansOf(m, queries, rankings, cutoffs, c, n);
    MeansOf(next, queries + [query], rankings + [ranking], cutoffs, c, more);
    SumsOfMore(queries, rankings, query, ranking, c);
    MeanOfMore(m.hitAt[c], next.hitAt[c], n, more, HitSum(queries, rankings, c),
               HitSum(queries + [query], rankings + [ranking], c), Hit(query, ranking, c));
  }

  /** ... and the mean reciprocal rank. */
  lemma ReciprocalOfMore(m: Metrics, next: Metrics, queries: seq<Query>, rankings: seq<seq<Item>>, query: Query,
                         ranking: seq<Item>, cutoffs: seq<nat>, n: real, more: real)
    requires |queries| == |rankings| > 0 && Scorable(queries) && query.relevant != [] && Distinct(cutoffs)
    requires n == |queries| as real && more == (|queries| + 1) as real
    requires AreMetrics(m, queries, rankings, cutoffs)
    requires Scorable(queries + [query]) && AreMetrics(next, queries + [query], rankings + [ranking], cutoffs)
    ensures MeanMoves(m.mrr, next.mrr, n, more, Reciprocal(FirstRank(query, ranking)))
  {
    MeansOf(m, queries, rankings, cutoffs, 0, n);
    MeansOf(next, queries + [query], rankings + [ranking], cutoffs, 0, more);
    SumsOfMore(queries, rankings, query, ranking, 0);
    MeanOfMore(m.mrr, next.mrr, n, more, ReciprocalSum(queries, rankings),
               ReciprocalSum(queries + [query], rankings + [ranking]), Reciprocal(FirstRank(query, ranking)));
  }
}
