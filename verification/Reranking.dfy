/** Reranking and its evaluation: src/zglab_rag/reranking/service.py, and
    src/zglab_rag/evaluation/reranker_compare.py and retrieval.py.  Scores are real numbers. */
module Reranking {
  import opened Numbers
  import opened Filtering
  import opened Options
  import opened Sorting
  import Seqs

  datatype Item = Item(chunkId: string, sourceId: string, path: string, section: seq<string>)

  /** A candidate with its rank in the vector result and its reranker score. */
  datatype Scored = Scored(score: real, originalRank: nat, item: Item)

  datatype Config = Config(maximumTopK: int, candidateK: int)

  predicate ValidConfig(c: Config) {
    c.candidateK in {10, 20, 30} && 0 < c.maximumTopK <= c.candidateK
  }

  // ----- the service -----

  /** The sort key (-score, original rank, chunk id). */
  predicate BetterScore(a: Scored, b: Scored) {
    a.score > b.score || (a.score == b.score && EarlierRank(a, b))
  }

  /** The sort key (original rank, chunk id). */
  predicate EarlierRank(a: Scored, b: Scored) {
    a.originalRank < b.originalRank || (a.originalRank == b.originalRank && StringLeq(a.item.chunkId, b.item.chunkId))
  }

  lemma RanksAreOrdered()
    ensures TotalPreorder(EarlierRank)
  {
    forall a: Scored, b: Scored ensures EarlierRank(a, b) || EarlierRank(b, a) {
      StringLeqTotal(a.item.chunkId, b.item.chunkId);
    }
    forall a: Scored, b: Scored, c: Scored | EarlierRank(a, b) && EarlierRank(b, c) ensures EarlierRank(a, c) {
      if StringLeq(a.item.chunkId, b.item.chunkId) && StringLeq(b.item.chunkId, c.item.chunkId) {
        StringLeqTransitive(a.item.chunkId, b.item.chunkId, c.item.chunkId);
      }
    }
  }

  lemma ScoresAreOrdered()
    ensures TotalPreorder(BetterScore)
  {
    RanksAreOrdered();
    forall a: Scored, b: Scored, c: Scored | BetterScore(a, b) && BetterScore(b, c) ensures BetterScore(a, c) {
      if EarlierRank(a, b) && EarlierRank(b, c) {
        assert EarlierRank(a, c);
      }
    }
  }

  /** The candidates in vector order, ranks counting from one. */
  function Zip(candidates: seq<Item>, scores: seq<real>): (r: seq<Scored>)
    requires |scores| == |candidates|
    ensures |r| == |candidates|
  {
    seq(|candidates|, i requires 0 <= i < |candidates| => Scored(scores[i], i + 1, candidates[i]))
  }

  function Reranked(candidates: seq<Item>, scores: seq<real>): seq<Scored>
    requires |scores| == |candidates|
  {
    Sort(Zip(candidates, scores), BetterScore)
  }

  lemma TakeWhole<T>(s: seq<T>, n: nat)
    requires |s| <= n
    ensures Take(s, n) == s
  {
  }

  /** RerankedRetriever.retrieve; nothing stands for the ValueError of a bad `topK` or of
      scores that do not match the candidates. */
  function Retrieve(candidates: seq<Item>, scores: seq<real>, topK: int, c: Config): Option<seq<Scored>> {
    if topK <= 0 || topK > c.candidateK || topK > c.maximumTopK then None
    else if candidates == [] then Some([])
    else if |scores| != |candidates| then None
    else Some(Take(Reranked(candidates, scores), topK))
  }

  /** The evaluation's way back to the vector order. */
  function Original(reranked: seq<Scored>): seq<Scored> {
    Sort(reranked, EarlierRank)
  }

  lemma ZipIsRanked(candidates: seq<Item>, scores: seq<real>)
    requires |scores| == |candidates|
    ensures SortedBy(Zip(candidates, scores), EarlierRank) && StrictOn(Zip(candidates, scores), EarlierRank)
  {
    var zip := Zip(candidates, scores);
    forall x, y | x in zip && y in zip && EarlierRank(x, y) && EarlierRank(y, x) ensures x == y {
      var i :| 0 <= i < |zip| && zip[i] == x;
      var j :| 0 <= j < |zip| && zip[j] == y;
      assert i == j;
    }
  }

  /** Reranking permutes the candidates, and sorting by original rank undoes it. */
  lemma RerankingIsUndone(candidates: seq<Item>, scores: seq<real>)
    requires |scores| == |candidates|
    ensures multiset(Reranked(candidates, scores)) == multiset(Zip(candidates, scores))
    ensures SortedBy(Reranked(candidates, scores), BetterScore)
    ensures Original(Reranked(candidates, scores)) == Zip(candidates, scores)
  {
    var zip, reranked := Zip(candidates, scores), Reranked(candidates, scores);
    ScoresAreOrdered();
    RanksAreOrdered();
    SortIsSorted(zip, BetterScore);
    ZipIsRanked(candidates, scores);
    SameElements(reranked, zip);
    SortOfPermutation(zip, reranked, EarlierRank);
    SortOfSorted(zip, EarlierRank);
  }

  // ----- metrics -----

  datatype Target = Target(sourceId: string, path: string, section: seq<string>)

  datatype Query = Query(relevant: seq<Target>)

  predicate Matches(target: Target, item: Item) {
    item.sourceId == target.sourceId && item.path == target.path && target.section <= item.section
  }

  /** Some item matches the target. */
  predicate Found(target: Target, items: seq<Item>) {
    exists item :: item in items && Matches(target, item)
  }

  /** How many of the targets some item matches. */
  function Retrieved(targets: seq<Target>, items: seq<Item>): (n: nat)
    ensures n <= |targets|
  {
    if targets == [] then 0
    else Retrieved(targets[..|targets| - 1], items) + if Found(targets[|targets| - 1], items) then 1 else 0
  }

  function Recall(query: Query, ranking: seq<Item>, cutoff: nat): real
    requires query.relevant != []
  {
    Retrieved(query.relevant, Take(ranking, cutoff)) as real / |query.relevant| as real
  }

  function Hit(query: Query, ranking: seq<Item>, cutoff: nat): real {
    if Retrieved(query.relevant, Take(ranking, cutoff)) > 0 then 1.0 else 0.0
  }

  lemma {:induction false} MoreItemsFindMore(targets: seq<Target>, few: seq<Item>, many: seq<Item>)
    requires forall item :: item in few ==> item in many
    ensures Retrieved(targets, few) <= Retrieved(targets, many)
  {
    if targets != [] {
      MoreItemsFindMore(targets[..|targets| - 1], few, many);
    }
  }

  lemma DivideKeepsOrder(a: real, b: real, n: real)
    requires a <= b && n > 0.0
    ensures a / n <= b / n
  {
  }

  lemma Whole(n: real)
    requires n > 0.0
    ensures n / n == 1.0 && 0.0 / n == 0.0
  {
  }

  /** Recall does not fall when the cutoff grows. */
  lemma RecallGrowsWithCutoff(query: Query, ranking: seq<Item>, small: nat, large: nat)
    requires query.relevant != [] && small <= large
    ensures Recall(query, ranking, small) <= Recall(query, ranking, large)
  {
    var few, many := Take(ranking, small), Take(ranking, large);
    assert forall i :: 0 <= i < |few| ==> few[i] == many[i];
    MoreItemsFindMore(query.relevant, few, many);
    DivideKeepsOrder(Retrieved(query.relevant, few) as real, Retrieved(query.relevant, many) as real,
                     |query.relevant| as real);
  }

  /** Recall never exceeds the hit rate. */
  lemma RecallAtMostHit(query: Query, ranking: seq<Item>, cutoff: nat)
    requires query.relevant != []
    ensures 0.0 <= Recall(query, ranking, cutoff) <= Hit(query, ranking, cutoff) <= 1.0
  {
    var found, n := Retrieved(query.relevant, Take(ranking, cutoff)) as real, |query.relevant| as real;
    DivideKeepsOrder(found, n, n);
    DivideKeepsOrder(0.0, found, n);
    Whole(n);
  }

  /** Recall at a cutoff that covers the whole list does not depend on its order. */
  lemma CoveringRecallIgnoresOrder(query: Query, a: seq<Item>, b: seq<Item>, cutoff: nat)
    requires query.relevant != [] && multiset(a) == multiset(b) && |a| <= cutoff
    ensures Recall(query, a, cutoff) == Recall(query, b, cutoff)
  {
    SameElements(a, b);
    assert Take(a, cutoff) == a && Take(b, cutoff) == b;
    MoreItemsFindMore(query.relevant, a, b);
    MoreItemsFindMore(query.relevant, b, a);
  }

  // ----- metrics over all queries -----

  predicate Scorable(queries: seq<Query>) {
    forall i :: 0 <= i < |queries| ==> queries[i].relevant != []
  }

  function RecallSum(queries: seq<Query>, rankings: seq<seq<Item>>, cutoff: nat): real
    requires |queries| == |rankings| && Scorable(queries)
  {
    if queries == [] then 0.0
    else
      var n := |queries| - 1;
      RecallSum(queries[..n], rankings[..n], cutoff) + Recall(queries[n], rankings[n], cutoff)
  }

  function HitSum(queries: seq<Query>, rankings: seq<seq<Item>>, cutoff: nat): real
    requires |queries| == |rankings|
  {
    if queries == [] then 0.0
    else
      var n := |queries| - 1;
      HitSum(queries[..n], rankings[..n], cutoff) + Hit(queries[n], rankings[n], cutoff)
  }

  /** The rank of the first item that matches a target, or 0. */
  function FirstRank(query: Query, ranking: seq<Item>): (rank: nat)
    ensures rank <= |ranking|
  {
    if ranking == [] then 0
    else
      var before := FirstRank(query, ranking[..|ranking| - 1]);
      if before > 0 then before else if IsRelevant(query, ranking[|ranking| - 1]) then |ranking| else 0
  }

  predicate IsRelevant(query: Query, item: Item) {
    exists target :: target in query.relevant && Matches(target, item)
  }

  lemma {:induction false} FirstRankIsFirst(query: Query, ranking: seq<Item>)
    ensures forall i :: 0 <= i < |ranking| ==> (i + 1 == FirstRank(query, ranking) ==> IsRelevant(query, ranking[i]))
    ensures forall i :: 0 <= i < |ranking| && IsRelevant(query, ranking[i]) ==> 0 < FirstRank(query, ranking) <= i + 1
  {
    if ranking != [] {
      FirstRankIsFirst(query, ranking[..|ranking| - 1]);
    }
  }

  function Reciprocal(rank: nat): real {
    if rank == 0 then 0.0 else 1.0 / rank as real
  }

  function ReciprocalSum(queries: seq<Query>, rankings: seq<seq<Item>>): real
    requires |queries| == |rankings|
  {
    if queries == [] then 0.0
    else
      var n := |queries| - 1;
      ReciprocalSum(queries[..n], rankings[..n]) + Reciprocal(FirstRank(queries[n], rankings[n]))
  }

  datatype Metrics = Metrics(recallAt: map<nat, real>, hitAt: map<nat, real>, mrr: real)

  /** How often a cutoff is listed. */
  function Repeats(cutoffs: seq<nat>, c: nat): nat {
    if cutoffs == [] then 0 else Repeats(cutoffs[..|cutoffs| - 1], c) + if cutoffs[|cutoffs| - 1] == c then 1 else 0
  }

  /** `x` added up `n` times. */
  function Repeated(n: nat, x: real): real {
    if n == 0 then 0.0 else Repeated(n - 1, x) + x
  }

  lemma {:induction false} RepeatedSum(n: nat, x: real, y: real)
    ensures Repeated(n, x + y) == Repeated(n, x) + Repeated(n, y) && Repeated(n, 0.0) == 0.0
  {
    if n > 0 {
      RepeatedSum(n - 1, x, y);
    }
  }

  lemma RepeatsMore(cutoffs: seq<nat>, i: nat, c: nat, x: real)
    requires i < |cutoffs|
    ensures Repeated(Repeats(cutoffs[..i + 1], c), x)
         == Repeated(Repeats(cutoffs[..i], c), x) + if cutoffs[i] == c then x else 0.0
  {
    Seqs.TakeNext(cutoffs, i);
    Seqs.DropLast(cutoffs[..i], cutoffs[i]);
  }

  lemma {:induction false} ListedOnce(cutoffs: seq<nat>, c: nat)
    requires Distinct(cutoffs)
    ensures Repeats(cutoffs, c) == if c in cutoffs then 1 else 0
  {
    if cutoffs != [] {
      var front, last := cutoffs[..|cutoffs| - 1], cutoffs[|cutoffs| - 1];
      assert cutoffs == front + [last];
      assert forall i :: 0 <= i < |front| ==> front[i] == cutoffs[i] != last;
      ListedOnce(front, c);
    }
  }

  /** The means over all queries at each cutoff, counted as often as the cutoff is listed. */
  ghost predicate AreMetrics(m: Metrics, queries: seq<Query>, rankings: seq<seq<Item>>, cutoffs: seq<nat>)
    requires |queries| == |rankings| > 0 && Scorable(queries)
  {
    && (forall c :: c in m.recallAt <==> c in cutoffs) && (forall c :: c in m.hitAt <==> c in cutoffs)
    && (forall c :: c in cutoffs ==>
          && c in m.recallAt
          && m.recallAt[c] == Repeated(Repeats(cutoffs, c), RecallSum(queries, rankings, c)) / |queries| as real)
    && (forall c :: c in cutoffs ==>
          && c in m.hitAt
          && m.hitAt[c] == Repeated(Repeats(cutoffs, c), HitSum(queries, rankings, c)) / |queries| as real)
    && m.mrr == ReciprocalSum(queries, rankings) / |queries| as real
  }

  /** What one query adds at a cutoff. */
  function RecallTimes(query: Query, ranking: seq<Item>, cutoffs: seq<nat>, c: nat): real
    requires query.relevant != []
  {
    Repeated(Repeats(cutoffs, c), Recall(query, ranking, c))
  }

  function HitTimes(query: Query, ranking: seq<Item>, cutoffs: seq<nat>, c: nat): real {
    Repeated(Repeats(cutoffs, c), Hit(query, ranking, c))
  }

  /** The sums over all queries at each cutoff. */
  ghost predicate AreSums(recall: map<nat, real>, hit: map<nat, real>, queries: seq<Query>, rankings: seq<seq<Item>>,
                          cutoffs: seq<nat>)
    requires |queries| == |rankings| && Scorable(queries)
  {
    && (forall c :: (c in recall <==> c in cutoffs) && (c in hit <==> c in cutoffs))
    && (forall c :: c in cutoffs ==>
          && recall[c] == Repeated(Repeats(cutoffs, c), RecallSum(queries, rankings, c))
          && hit[c] == Repeated(Repeats(cutoffs, c), HitSum(queries, rankings, c)))
  }

  lemma NoSums(recall: map<nat, real>, hit: map<nat, real>, cutoffs: seq<nat>)
    requires forall c :: (c in recall <==> c in cutoffs) && (c in hit <==> c in cutoffs)
    requires forall c :: c in cutoffs ==> recall[c] == 0.0 == hit[c]
    ensures AreSums(recall, hit, [], [], cutoffs)
  {
    forall c: nat ensures Repeated(Repeats(cutoffs, c), 0.0) == 0.0 {
      RepeatedSum(Repeats(cutoffs, c), 0.0, 0.0);
    }
  }

  /** Adding what one more query adds. */
  lemma SumsNext(recall: map<nat, real>, hit: map<nat, real>, more: map<nat, real>, moreHits: map<nat, real>,
                 queries: seq<Query>, rankings: seq<seq<Item>>, i: nat, m: nat, cutoffs: seq<nat>)
    requires |queries| == |rankings| && m == i + 1 <= |queries| && Scorable(queries[..i]) && queries[i].relevant != []
    requires AreSums(recall, hit, queries[..i], rankings[..i], cutoffs)
    requires more.Keys == recall.Keys && moreHits.Keys == hit.Keys
    requires forall c :: c in cutoffs ==>
      && more[c] == recall[c] + RecallTimes(queries[i], rankings[i], cutoffs, c)
      && moreHits[c] == hit[c] + HitTimes(queries[i], rankings[i], cutoffs, c)
    ensures Scorable(queries[..m]) && AreSums(more, moreHits, queries[..m], rankings[..m], cutoffs)
  {
    SumsMore(queries, rankings, i);
    forall c | c in cutoffs
      ensures more[c] == Repeated(Repeats(cutoffs, c), RecallSum(queries[..m], rankings[..m], c))
      ensures moreHits[c] == Repeated(Repeats(cutoffs, c), HitSum(queries[..m], rankings[..m], c))
    {
      RepeatedSum(Repeats(cutoffs, c), RecallSum(queries[..i], rankings[..i], c), Recall(queries[i], rankings[i], c));
      RepeatedSum(Repeats(cutoffs, c), HitSum(queries[..i], rankings[..i], c), Hit(queries[i], rankings[i], c));
    }
  }

  method AddQuery(query: Query, ranking: seq<Item>, cutoffs: seq<nat>, recall: map<nat, real>, hit: map<nat, real>)
    returns (recall': map<nat, real>, hit': map<nat, real>)
    requires query.relevant != [] && forall c :: c in cutoffs ==> c in recall && c in hit
    ensures recall'.Keys == recall.Keys && hit'.Keys == hit.Keys
    ensures forall c :: c in cutoffs ==>
      && recall'[c] == recall[c] + RecallTimes(query, ranking, cutoffs, c)
      && hit'[c] == hit[c] + HitTimes(query, ranking, cutoffs, c)
  {
    recall', hit' := recall, hit;
    for i := 0 to |cutoffs|
      invariant recall'.Keys == recall.Keys && hit'.Keys == hit.Keys
      invariant forall c :: c in cutoffs ==>
        && recall'[c] == recall[c] + RecallTimes(query, ranking, cutoffs[..i], c)
        && hit'[c] == hit[c] + HitTimes(query, ranking, cutoffs[..i], c)
    {
      forall c | c in cutoffs
        ensures RecallTimes(query, ranking, cutoffs[..i + 1], c)
             == RecallTimes(query, ranking, cutoffs[..i], c)
                + if cutoffs[i] == c then Recall(query, ranking, c) else 0.0
        ensures HitTimes(query, ranking, cutoffs[..i + 1], c)
             == HitTimes(query, ranking, cutoffs[..i], c) + if cutoffs[i] == c then Hit(query, ranking, c) else 0.0
      {
        RepeatsMore(cutoffs, i, c, Recall(query, ranking, c));
        RepeatsMore(cutoffs, i, c, Hit(query, ranking, c));
      }
      var cutoff := cutoffs[i];
      assert cutoff in cutoffs;
      recall' := recall'[cutoff := recall'[cutoff] + Recall(query, ranking, cutoff)];
      hit' := hit'[cutoff := hit'[cutoff] + Hit(query, ranking, cutoff)];
    }
    Seqs.TakeAll(cutoffs);
  }

  /** compute_ranked_retrieval_metrics; nothing stands for its ValueErrors. */
  method ComputeMetrics(queries: seq<Query>, rankings: seq<seq<Item>>, cutoffs: seq<nat>) returns (m: Option<Metrics>)
    ensures m.None? <==> |queries| != |rankings| || queries == [] || !Scorable(queries)
    ensures m.Some? ==> AreMetrics(m.value, queries, rankings, cutoffs)
  {
    if |queries| != |rankings| || queries == [] {
      return None;
    }
    var ok, recall, hit, reciprocal := Sums(queries, rankings, cutoffs);
    if !ok {
      return None;
    }
    var n := |queries| as real;
    m := Some(Metrics(map c | c in recall :: recall[c] / n, map c | c in hit :: hit[c] / n, reciprocal / n));
  }

  method Sums(queries: seq<Query>, rankings: seq<seq<Item>>, cutoffs: seq<nat>)
    returns (ok: bool, recall: map<nat, real>, hit: map<nat, real>, reciprocal: real)
    requires |queries| == |rankings|
    ensures ok <==> Scorable(queries)
    ensures ok ==> AreSums(recall, hit, queries, rankings, cutoffs) && reciprocal == ReciprocalSum(queries, rankings)
  {
    ok, reciprocal := true, 0.0;
    recall := map c | c in cutoffs :: 0.0;
    hit := map c | c in cutoffs :: 0.0;
    NoSums(recall, hit, cutoffs);
    for i := 0 to |queries|
      invariant Scorable(queries[..i]) && AreSums(recall, hit, queries[..i], rankings[..i], cutoffs)
      invariant reciprocal == ReciprocalSum(queries[..i], rankings[..i])
    {
      if queries[i].relevant == [] {
        ok := false;
        return;
      }
      var more, moreHits := AddQuery(queries[i], rankings[i], cutoffs, recall, hit);
      SumsNext(recall, hit, more, moreHits, queries, rankings, i, i + 1, cutoffs);
      SumsMore(queries, rankings, i);
      recall, hit := more, moreHits;
      reciprocal := reciprocal + Reciprocal(FirstRank(queries[i], rankings[i]));
    }
    Seqs.TakeAll(queries);
    Seqs.TakeAll(rankings);
  }

  lemma SumsMore(queries: seq<Query>, rankings: seq<seq<Item>>, i: nat)
    requires |queries| == |rankings| && i < |queries| && Scorable(queries[..i]) && queries[i].relevant != []
    ensures Scorable(queries[..i + 1])
    ensures forall c: nat :: RecallSum(queries[..i + 1], rankings[..i + 1], c)
                          == RecallSum(queries[..i], rankings[..i], c) + Recall(queries[i], rankings[i], c)
    ensures forall c: nat :: HitSum(queries[..i + 1], rankings[..i + 1], c)
                          == HitSum(queries[..i], rankings[..i], c) + Hit(queries[i], rankings[i], c)
    ensures ReciprocalSum(queries[..i + 1], rankings[..i + 1])
         == ReciprocalSum(queries[..i], rankings[..i]) + Reciprocal(FirstRank(queries[i], rankings[i]))
  {
    Seqs.TakeNext(queries, i);
    Seqs.TakeNext(rankings, i);
    Seqs.DropLast(queries[..i], queries[i]);
    Seqs.DropLast(rankings[..i], rankings[i]);
  }

  lemma {:induction false} SumsAreOrdered(queries: seq<Query>, rankings: seq<seq<Item>>, small: nat, large: nat)
    requires |queries| == |rankings| && Scorable(queries) && small <= large
    ensures 0.0 <= RecallSum(queries, rankings, small) <= RecallSum(queries, rankings, large)
    ensures RecallSum(queries, rankings, large) <= HitSum(queries, rankings, large) <= |queries| as real
  {
    if queries != [] {
      var n := |queries| - 1;
      SumsAreOrdered(queries[..n], rankings[..n], small, large);
      RecallGrowsWithCutoff(queries[n], rankings[n], small, large);
      RecallAtMostHit(queries[n], rankings[n], small);
      RecallAtMostHit(queries[n], rankings[n], large);
    }
  }

  /** With no cutoff listed twice, mean recall does not fall as the cutoff grows, and never
      exceeds the hit rate. */
  lemma MetricsAreOrdered(m: Metrics, queries: seq<Query>, rankings: seq<seq<Item>>, cutoffs: seq<nat>, small: nat,
                          large: nat)
    requires |queries| == |rankings| > 0 && Scorable(queries) && AreMetrics(m, queries, rankings, cutoffs)
    requires Distinct(cutoffs) && small in cutoffs && large in cutoffs && small <= large
    ensures 0.0 <= m.recallAt[small] <= m.recallAt[large] <= m.hitAt[large] <= 1.0
  {
    ListedOnce(cutoffs, small);
    ListedOnce(cutoffs, large);
    OnceRepeated(RecallSum(queries, rankings, small));
    OnceRepeated(RecallSum(queries, rankings, large));
    OnceRepeated(HitSum(queries, rankings, large));
    SumsAreOrdered(queries, rankings, small, large);
    MeansAreOrdered(RecallSum(queries, rankings, small), RecallSum(queries, rankings, large),
                    HitSum(queries, rankings, large), |queries| as real);
  }

  lemma OnceRepeated(x: real)
    ensures Repeated(1, x) == x
  {
    assert Repeated(1, x) == Repeated(0, x) + x;
  }

  lemma MeansAreOrdered(a: real, b: real, h: real, n: real)
    requires 0.0 <= a <= b <= h <= n && n > 0.0
    ensures 0.0 <= a / n <= b / n <= h / n <= 1.0
  {
    DivideKeepsOrder(0.0, a, n);
    DivideKeepsOrder(a, b, n);
    DivideKeepsOrder(b, h, n);
    DivideKeepsOrder(h, n, n);
    Whole(n);
  }

  // ----- the run-time check of evaluate_candidate_k -----

  function Items(scored: seq<Scored>): (r: seq<Item>)
    ensures |r| == |scored|
  {
    seq(|scored|, i requires 0 <= i < |scored| => scored[i].item)
  }

  lemma ItemsWithout(scored: seq<Scored>, i: nat)
    requires i < |scored|
    ensures multiset(Items(scored)) == multiset(Items(scored[..i] + scored[i + 1..])) + multiset{scored[i].item}
  {
    Seqs.RemoveAt(Items(scored), i);
    assert Items(scored[..i] + scored[i + 1..]) == Items(scored)[..i] + Items(scored)[i + 1..];
  }

  lemma {:induction false} ItemsOfPermutation(a: seq<Scored>, b: seq<Scored>)
    requires multiset(a) == multiset(b)
    ensures multiset(Items(a)) == multiset(Items(b))
  {
    SameElements(a, b);
    if a != [] {
      assert a[0] in b;
      var i :| 0 <= i < |b| && b[i] == a[0];
      Seqs.RemoveAt(a, 0);
      Seqs.RemoveAt(b, i);
      ItemsOfPermutation(a[..0] + a[1..], b[..i] + b[i + 1..]);
      ItemsWithout(a, 0);
      ItemsWithout(b, i);
    }
  }

  lemma RerankingKeepsRecall(query: Query, candidates: seq<Item>, scores: seq<real>, cutoff: nat)
    requires query.relevant != [] && |scores| == |candidates| <= cutoff
    ensures Items(Original(Reranked(candidates, scores))) == candidates
    ensures Recall(query, Items(Original(Reranked(candidates, scores))), cutoff)
         == Recall(query, Items(Reranked(candidates, scores)), cutoff)
  {
    var reranked := Reranked(candidates, scores);
    RerankingIsUndone(candidates, scores);
    ItemsOfPermutation(Original(reranked), reranked);
    assert Items(Zip(candidates, scores)) == candidates;
    CoveringRecallIgnoresOrder(query, candidates, Items(reranked), cutoff);
  }

  lemma {:induction false} SameRecallSum(queries: seq<Query>, a: seq<seq<Item>>, b: seq<seq<Item>>, cutoff: nat)
    requires |queries| == |a| == |b| && Scorable(queries)
    requires forall i :: 0 <= i < |queries| ==> Recall(queries[i], a[i], cutoff) == Recall(queries[i], b[i], cutoff)
    ensures RecallSum(queries, a, cutoff) == RecallSum(queries, b, cutoff)
  {
    if queries != [] {
      var n := |queries| - 1;
      SameRecallSum(queries[..n], a[..n], b[..n], cutoff);
    }
  }

  const CUTOFFS: seq<nat> := [1, 3, 5, 10, 20, 30]

  lemma CandidateKIsACutoff(c: Config)
    requires ValidConfig(c)
    ensures c.candidateK in CUTOFFS
  {
    assert CUTOFFS[3] == 10 && CUTOFFS[4] == 20 && CUTOFFS[5] == 30;
  }

  /** What the vector search found for one query, and the reranker's scores. */
  datatype Run = Run(candidates: seq<Item>, scores: seq<real>)

  /** `Broken` stands for the RuntimeError of the recall check, `Failed` for any ValueError. */
  datatype Evaluation = Failed | Broken | Evaluated(vector: Metrics, reranked: Metrics)

  /** The reranker gave one score to each candidate. */
  predicate Matched(run: Run) {
    run.candidates == [] || |run.scores| == |run.candidates|
  }

  /** The whole list of one query, reranked. */
  function RerankedItems(run: Run): (r: seq<Item>)
    requires Matched(run)
  {
    if run.candidates == [] then [] else Items(Reranked(run.candidates, run.scores))
  }

  /** Each query's ranking in vector order and reranked; not `ok` after a ValueError. */
  method Rankings(queries: seq<Query>, found: seq<Run>, c: Config)
    returns (ok: bool, vector: seq<seq<Item>>, reranked: seq<seq<Item>>)
    requires ValidConfig(c) && |found| == |queries|
    requires forall i :: 0 <= i < |found| ==> |found[i].candidates| <= c.candidateK
    ensures ok <==> queries == []
                    || (c.maximumTopK == c.candidateK && forall i :: 0 <= i < |found| ==> Matched(found[i]))
    ensures ok ==> |vector| == |reranked| == |queries|
    ensures ok ==> forall j :: 0 <= j < |found| ==>
      vector[j] == found[j].candidates && Matched(found[j]) && reranked[j] == RerankedItems(found[j])
  {
    ok, vector, reranked := true, [], [];
    for i := 0 to |queries|
      invariant |vector| == |reranked| == i
      invariant i > 0 ==> c.maximumTopK == c.candidateK
      invariant forall j :: 0 <= j < i ==>
        vector[j] == found[j].candidates && Matched(found[j]) && reranked[j] == RerankedItems(found[j])
    {
      var response := Retrieve(found[i].candidates, found[i].scores, c.candidateK, c);
      if response.None? {
        ok := false;
        return;
      }
      RetrieveAll(found[i], c);
      vector := vector + [Items(Original(response.value))];
      reranked := reranked + [Items(response.value)];
    }
  }

  /** Retrieving as many as there may be candidates returns all of them, in the new order, and
      sorting by original rank gives back the candidates. */
  lemma RetrieveAll(run: Run, c: Config)
    requires ValidConfig(c) && |run.candidates| <= c.candidateK
    requires Retrieve(run.candidates, run.scores, c.candidateK, c).Some?
    ensures Matched(run) && c.maximumTopK == c.candidateK
    ensures var retrieved := Retrieve(run.candidates, run.scores, c.candidateK, c).value;
            Items(retrieved) == RerankedItems(run) && Items(Original(retrieved)) == run.candidates
  {
    if run.candidates == [] {
      assert Original([]) == [];
    } else {
      RerankingIsUndone(run.candidates, run.scores);
      SortKeepsElements(Zip(run.candidates, run.scores), BetterScore);
      TakeWhole(Reranked(run.candidates, run.scores), c.candidateK);
      assert Items(Zip(run.candidates, run.scores)) == run.candidates;
    }
  }

  lemma RerankedKeepsRecall(query: Query, run: Run, cutoff: nat)
    requires query.relevant != [] && Matched(run) && |run.candidates| <= cutoff
    ensures Recall(query, run.candidates, cutoff) == Recall(query, RerankedItems(run), cutoff)
  {
    if run.candidates != [] {
      RerankingKeepsRecall(query, run.candidates, run.scores, cutoff);
    }
  }

  /** The candidates of each query, in vector order. */
  function Candidates(found: seq<Run>): (r: seq<seq<Item>>)
    ensures |r| == |found|
  {
    seq(|found|, i requires 0 <= i < |found| => found[i].candidates)
  }

  function AllReranked(found: seq<Run>): (r: seq<seq<Item>>)
    requires forall i :: 0 <= i < |found| ==> Matched(found[i])
    ensures |r| == |found|
  {
    seq(|found|, i requires 0 <= i < |found| => RerankedItems(found[i]))
  }

  /** evaluate_candidate_k.  The vector search returns at most `candidateK` candidates.  The
      metrics are those of the candidates as found and as reranked, and the check on recall at
      `candidateK` never fires. */
  method EvaluateCandidateK(queries: seq<Query>, found: seq<Run>, c: Config) returns (result: Evaluation)
    requires ValidConfig(c) && |found| == |queries|
    requires forall i :: 0 <= i < |found| ==> |found[i].candidates| <= c.candidateK
    ensures !result.Broken?
    ensures result.Evaluated? <==> queries != [] && Scorable(queries) && c.maximumTopK == c.candidateK
                                   && forall i :: 0 <= i < |found| ==> Matched(found[i])
    ensures result.Evaluated? ==>
      && AreMetrics(result.vector, queries, Candidates(found), CUTOFFS)
      && AreMetrics(result.reranked, queries, AllReranked(found), CUTOFFS)
      && c.candidateK in CUTOFFS
      && result.vector.recallAt[c.candidateK] == result.reranked.recallAt[c.candidateK]
  {
    var ok, vector, reranked := Rankings(queries, found, c);
    if !ok {
      return Failed;
    }
    CandidateKIsACutoff(c);
    var vectorMetrics := ComputeMetrics(queries, vector, CUTOFFS);
    var rerankedMetrics := ComputeMetrics(queries, reranked, CUTOFFS);
    if vectorMetrics.None? || rerankedMetrics.None? {
      return Failed;
    }
    assert vector == Candidates(found) && reranked == AllReranked(found);
    forall i | 0 <= i < |queries|
      ensures Recall(queries[i], vector[i], c.candidateK) == Recall(queries[i], reranked[i], c.candidateK)
    {
      RerankedKeepsRecall(queries[i], found[i], c.candidateK);
    }
    SameRecallSum(queries, vector, reranked, c.candidateK);
    var check := if c.candidateK <= 30 then c.candidateK else 30;
    if vectorMetrics.value.recallAt[check] != rerankedMetrics.value.recallAt[check] {
      return Broken;
    }
    return Evaluated(vectorMetrics.value, rerankedMetrics.value);
  }
}
