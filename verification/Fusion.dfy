/** Reciprocal rank fusion: src/zglab_rag/retrieval/hybrid.py (two lists) and intelligent.py
    (three lists).  A list is its chunk ids in rank order; scores are real numbers. */
module Fusion {
  import opened Filtering
  import opened Options
  import opened Sorting
  import Seqs

  /** The 1-based rank of the last occurrence, or 0: the rank a dictionary keeps. */
  function RankIn(ids: seq<string>, id: string): (rank: nat)
    ensures rank <= |ids|
  {
    if ids == [] then 0
    else if ids[|ids| - 1] == id then |ids|
    else RankIn(ids[..|ids| - 1], id)
  }

  lemma {:induction false} RankedIffListed(ids: seq<string>, id: string)
    ensures RankIn(ids, id) > 0 <==> id in ids
  {
    if ids != [] {
      RankedIffListed(ids[..|ids| - 1], id);
      SplitLast(ids);
    }
  }

  /** One list's contribution to a score. */
  function Share(weight: real, k: int, rank: nat): real
    requires k > 0
  {
    if rank == 0 then 0.0 else weight / (k + rank) as real
  }

  function Score(lists: seq<seq<string>>, weights: seq<real>, k: int, id: string): real
    requires k > 0 && |weights| == |lists|
  {
    if lists == [] then 0.0
    else
      var n := |lists| - 1;
      Score(lists[..n], weights[..n], k, id) + Share(weights[n], k, RankIn(lists[n], id))
  }

  /** The smaller of two ranks, 0 standing for none. */
  function Better(a: nat, b: nat): nat {
    if a == 0 then b else if b == 0 then a else if a <= b then a else b
  }

  function Best(lists: seq<seq<string>>, id: string): nat {
    if lists == [] then 0 else Better(Best(lists[..|lists| - 1], id), RankIn(lists[|lists| - 1], id))
  }

  predicate Listed(lists: seq<seq<string>>, id: string) {
    exists j :: 0 <= j < |lists| && id in lists[j]
  }

  datatype Entry = Entry(score: real, best: nat, id: string)

  datatype Ranked = Ranked(rank: nat, entry: Entry)

  /** The sort key (-score, best rank, id). */
  predicate Precedes(a: Entry, b: Entry) {
    a.score > b.score || (a.score == b.score && (a.best < b.best || (a.best == b.best && StringLeq(a.id, b.id))))
  }

  lemma EntriesAreOrdered()
    ensures TotalPreorder(Precedes) && forall a, b :: Precedes(a, b) && Precedes(b, a) ==> a == b
  {
    forall a: Entry, b: Entry ensures Precedes(a, b) || Precedes(b, a) {
      StringLeqTotal(a.id, b.id);
    }
    forall a: Entry, b: Entry | Precedes(a, b) && Precedes(b, a) ensures a == b {
      StringLeqTotal(a.id, b.id);
    }
    forall a: Entry, b: Entry, c: Entry | Precedes(a, b) && Precedes(b, c) ensures Precedes(a, c) {
      if StringLeq(a.id, b.id) && StringLeq(b.id, c.id) {
        StringLeqTransitive(a.id, b.id, c.id);
      }
    }
  }

  function EntryOf(lists: seq<seq<string>>, weights: seq<real>, k: int, id: string): Entry
    requires k > 0 && |weights| == |lists|
  {
    Entry(Score(lists, weights, k, id), Best(lists, id), id)
  }

  /** Every listed id once, with its score and best rank, in the order of the sort key. */
  ghost predicate IsFusion(fused: seq<Entry>, lists: seq<seq<string>>, weights: seq<real>, k: int)
    requires k > 0 && |weights| == |lists|
  {
    && SortedBy(fused, Precedes) && Distinct(fused)
    && forall e :: e in fused <==> Listed(lists, e.id) && e == EntryOf(lists, weights, k, e.id)
  }

  /** The result is determined: it cannot depend on the order in which a dictionary is read. */
  lemma FusionIsUnique(a: seq<Entry>, b: seq<Entry>, lists: seq<seq<string>>, weights: seq<real>, k: int)
    requires k > 0 && |weights| == |lists| && IsFusion(a, lists, weights, k) && IsFusion(b, lists, weights, k)
    ensures a == b
  {
    SameMembers(a, b);
    EntriesAreOrdered();
    SortedIsUnique(a, b, Precedes);
  }

  /** No id appears twice. */
  lemma FusedIdsAreDistinct(fused: seq<Entry>, lists: seq<seq<string>>, weights: seq<real>, k: int)
    requires k > 0 && |weights| == |lists| && IsFusion(fused, lists, weights, k)
    ensures forall i, j :: 0 <= i < j < |fused| ==> fused[i].id != fused[j].id
  {
    forall i, j | 0 <= i < j < |fused| ensures fused[i].id != fused[j].id {
      assert fused[i] in fused && fused[j] in fused;
    }
  }

  // ----- an empty list changes nothing -----

  lemma EmptyListAddsNothing(lists: seq<seq<string>>, weights: seq<real>, extra: real, k: int, id: string)
    requires k > 0 && |weights| == |lists|
    ensures EntryOf(lists + [[]], weights + [extra], k, id) == EntryOf(lists, weights, k, id)
    ensures Listed(lists + [[]], id) == Listed(lists, id)
  {
    Seqs.DropLast(lists, []);
    Seqs.DropLast(weights, extra);
    if Listed(lists, id) {
      var j :| 0 <= j < |lists| && id in lists[j];
      assert (lists + [[]])[j] == lists[j];
    }
    if Listed(lists + [[]], id) {
      var j :| 0 <= j < |lists| + 1 && id in (lists + [[]])[j];
      assert id in lists[j];
    }
  }

  /** Fusing two lists is fusing them with an empty third one: same ids, order and scores. */
  lemma TwoListsAreThree(two: seq<Entry>, three: seq<Entry>, lists: seq<seq<string>>, weights: seq<real>, extra: real,
                         k: int)
    requires k > 0 && |weights| == |lists|
    requires IsFusion(two, lists, weights, k) && IsFusion(three, lists + [[]], weights + [extra], k)
    ensures two == three
  {
    forall e ensures e in two <==> e in three {
      EmptyListAddsNothing(lists, weights, extra, k, e.id);
    }
    SameMembers(two, three);
    EntriesAreOrdered();
    SortedIsUnique(two, three, Precedes);
  }

  // ----- dominance -----

  lemma ShareFalls(weight: real, x: real, y: real)
    requires weight >= 0.0 && 0.0 < x <= y
    ensures weight / x >= weight / y >= 0.0
  {
    var p, q := weight / x, weight / y;
    assert p * x == weight && q * y == weight;
    assert q >= 0.0;
    assert q * x <= q * y;
    if p < q {
      assert p * x < q * x;
    }
  }

  /** `a` is ranked before `b` wherever `b` is ranked. */
  predicate BeatsIn(ids: seq<string>, a: string, b: string) {
    RankIn(ids, b) > 0 ==> 0 < RankIn(ids, a) < RankIn(ids, b)
  }

  lemma ShareOfBetter(weight: real, k: int, ids: seq<string>, a: string, b: string)
    requires k > 0 && weight >= 0.0 && BeatsIn(ids, a, b)
    ensures Share(weight, k, RankIn(ids, a)) >= Share(weight, k, RankIn(ids, b))
  {
    var ra, rb := RankIn(ids, a), RankIn(ids, b);
    if ra > 0 {
      ShareFalls(weight, (k + ra) as real, (k + ra + rb) as real);
    }
    if rb > 0 {
      ShareFalls(weight, (k + ra) as real, (k + rb) as real);
    }
  }

  lemma {:induction false} BetterScore(lists: seq<seq<string>>, weights: seq<real>, k: int, a: string, b: string)
    requires k > 0 && |weights| == |lists|
    requires forall j :: 0 <= j < |lists| ==> weights[j] >= 0.0 && BeatsIn(lists[j], a, b)
    ensures Score(lists, weights, k, a) >= Score(lists, weights, k, b)
    ensures Best(lists, b) > 0 ==> 0 < Best(lists, a) < Best(lists, b)
  {
    if lists != [] {
      var n := |lists| - 1;
      BetterScore(lists[..n], weights[..n], k, a, b);
      ShareOfBetter(weights[n], k, lists[n], a, b);
    }
  }

  lemma {:induction false} ListedHasBest(lists: seq<seq<string>>, id: string)
    ensures Best(lists, id) > 0 <==> Listed(lists, id)
  {
    if lists != [] {
      var front, last := lists[..|lists| - 1], lists[|lists| - 1];
      ListedHasBest(front, id);
      RankedIffListed(last, id);
      if Listed(front, id) {
        var j :| 0 <= j < |front| && id in front[j];
        assert lists[j] == front[j];
      }
      if Listed(lists, id) && id !in last {
        var j :| 0 <= j < |lists| && id in lists[j];
        assert front[j] == lists[j];
      }
      if id in last {
        assert id in lists[|lists| - 1];
      }
    }
  }

  /** With non-negative weights, an id that beats another in every list holding the other comes
      before it. */
  lemma DominantComesFirst(fused: seq<Entry>, lists: seq<seq<string>>, weights: seq<real>, k: int, i: nat, j: nat)
    requires k > 0 && |weights| == |lists| && IsFusion(fused, lists, weights, k) && i < |fused| && j < |fused|
    requires forall l :: 0 <= l < |lists| ==> weights[l] >= 0.0 && BeatsIn(lists[l], fused[i].id, fused[j].id)
    ensures i < j
  {
    var a, b := fused[i], fused[j];
    assert a in fused && b in fused;
    BetterScore(lists, weights, k, a.id, b.id);
    ListedHasBest(lists, b.id);
    assert !Precedes(b, a);
  }

  // ----- the loops -----

  /** The rank dictionary of one list. */
  method RankList(ids: seq<string>) returns (ranks: map<string, nat>)
    ensures RanksOf(ranks, ids)
  {
    ranks := map[];
    for i := 0 to |ids|
      invariant RanksOf(ranks, ids[..i])
    {
      RankMore(ids[..i], ids[i]);
      Seqs.TakeNext(ids, i);
      ranks := ranks[ids[i] := i + 1];
    }
    Seqs.TakeAll(ids);
  }

  lemma RankMore(ids: seq<string>, last: string)
    ensures forall id :: RankIn(ids + [last], id) == if id == last then |ids| + 1 else RankIn(ids, id)
  {
    Seqs.DropLast(ids, last);
  }

  lemma ScoreMore(lists: seq<seq<string>>, weights: seq<real>, k: int, ids: seq<string>, weight: real, id: string)
    requires k > 0 && |weights| == |lists|
    ensures Score(lists + [ids], weights + [weight], k, id)
         == Score(lists, weights, k, id) + Share(weight, k, RankIn(ids, id))
    ensures Best(lists + [ids], id) == Better(Best(lists, id), RankIn(ids, id))
  {
    Seqs.DropLast(lists, ids);
    Seqs.DropLast(weights, weight);
  }

  lemma TwoLists(a: seq<string>, b: seq<string>, wa: real, wb: real, k: int, id: string)
    requires k > 0
    ensures Score([a, b], [wa, wb], k, id) == Share(wa, k, RankIn(a, id)) + Share(wb, k, RankIn(b, id))
    ensures Best([a, b], id) == Better(RankIn(a, id), RankIn(b, id))
    ensures Listed([a, b], id) <==> id in a || id in b
  {
    ScoreMore([], [], k, a, wa, id);
    ScoreMore([a], [wa], k, b, wb, id);
    assert [] + [a] == [a] && [] + [wa] == [wa] && [a] + [b] == [a, b] && [wa] + [wb] == [wa, wb];
    assert [a, b][0] == a && [a, b][1] == b;
  }

  lemma ThreeLists(a: seq<string>, b: seq<string>, c: seq<string>, wa: real, wb: real, wc: real, k: int, id: string)
    requires k > 0
    ensures Score([a, b, c], [wa, wb, wc], k, id)
         == Share(wa, k, RankIn(a, id)) + Share(wb, k, RankIn(b, id)) + Share(wc, k, RankIn(c, id))
    ensures Best([a, b, c], id) == Better(Better(RankIn(a, id), RankIn(b, id)), RankIn(c, id))
    ensures Listed([a, b, c], id) <==> id in a || id in b || id in c
  {
    TwoLists(a, b, wa, wb, k, id);
    ScoreMore([a, b], [wa, wb], k, c, wc, id);
    assert [a, b] + [c] == [a, b, c] && [wa, wb] + [wc] == [wa, wb, wc];
    assert [a, b, c][0] == a && [a, b, c][1] == b && [a, b, c][2] == c;
  }

  /** The entries of the ids in `done`, each once. */
  ghost predicate Holds(entries: seq<Entry>, done: set<string>, lists: seq<seq<string>>, weights: seq<real>, k: int)
    requires k > 0 && |weights| == |lists|
  {
    Distinct(entries) && forall e :: e in entries <==> e.id in done && e == EntryOf(lists, weights, k, e.id)
  }

  lemma HoldsMore(entries: seq<Entry>, done: set<string>, lists: seq<seq<string>>, weights: seq<real>, k: int, e: Entry)
    requires k > 0 && |weights| == |lists| && Holds(entries, done, lists, weights, k)
    requires e.id !in done && e == EntryOf(lists, weights, k, e.id)
    ensures Holds(entries + [e], done + {e.id}, lists, weights, k)
  {
    forall i | 0 <= i < |entries| ensures entries[i] != e {
      assert entries[i] in entries;
    }
  }

  lemma SortedHoldsIsFusion(entries: seq<Entry>, done: set<string>, lists: seq<seq<string>>, weights: seq<real>, k: int)
    requires k > 0 && |weights| == |lists| && Holds(entries, done, lists, weights, k)
    requires forall id :: id in done <==> Listed(lists, id)
    ensures IsFusion(Sort(entries, Precedes), lists, weights, k)
  {
    EntriesAreOrdered();
    SortIsSorted(entries, Precedes);
    SameElements(Sort(entries, Precedes), entries);
    DistinctOfPermutation(entries, Sort(entries, Precedes));
  }

  function Numbered(entries: seq<Entry>): (r: seq<Ranked>)
    ensures |r| == |entries|
  {
    seq(|entries|, i requires 0 <= i < |entries| => Ranked(i + 1, entries[i]))
  }

  function Entries(results: seq<Ranked>): (r: seq<Entry>)
    ensures |r| == |results|
  {
    seq(|results|, i requires 0 <= i < |results| => results[i].entry)
  }

  lemma NumberedEntries(entries: seq<Entry>)
    ensures Entries(Numbered(entries)) == entries
  {
  }

  /** `ranks` is the rank dictionary of `ids`. */
  ghost predicate RanksOf(ranks: map<string, nat>, ids: seq<string>) {
    forall id :: (id in ranks <==> RankIn(ids, id) > 0) && (id in ranks ==> ranks[id] == RankIn(ids, id))
  }

  /** Adds one list's share to a score and its rank to the best rank. */
  method AddList(score: real, best: nat, weight: real, k: int, ranks: map<string, nat>, ghost ids: seq<string>,
                 id: string)
    returns (score': real, best': nat)
    requires k > 0 && RanksOf(ranks, ids)
    ensures score' == score + Share(weight, k, RankIn(ids, id)) && best' == Better(best, RankIn(ids, id))
  {
    score', best' := score, best;
    if id in ranks {
      score' := score + weight / (k + ranks[id]) as real;
      best' := if best == 0 || ranks[id] < best then ranks[id] else best;
    }
  }

  method TwoListEntry(vector: map<string, nat>, lexical: map<string, nat>, ghost a: seq<string>, ghost b: seq<string>,
                      wa: real, wb: real, k: int, id: string) returns (e: Entry)
    requires k > 0 && RanksOf(vector, a) && RanksOf(lexical, b)
    ensures e == EntryOf([a, b], [wa, wb], k, id)
  {
    var score, best := AddList(0.0, 0, wa, k, vector, a, id);
    score, best := AddList(score, best, wb, k, lexical, b, id);
    TwoLists(a, b, wa, wb, k, id);
    e := Entry(score, best, id);
  }

  method ThreeListEntry(hybrid: map<string, nat>, hierarchical: map<string, nat>, graph: map<string, nat>,
                        ghost a: seq<string>, ghost b: seq<string>, ghost c: seq<string>,
                        wa: real, wb: real, wc: real, k: int, id: string) returns (e: Entry)
    requires k > 0 && RanksOf(hybrid, a) && RanksOf(hierarchical, b) && RanksOf(graph, c)
    ensures e == EntryOf([a, b, c], [wa, wb, wc], k, id)
  {
    var score, best := AddList(0.0, 0, wa, k, hybrid, a, id);
    score, best := AddList(score, best, wb, k, hierarchical, b, id);
    score, best := AddList(score, best, wc, k, graph, c, id);
    ThreeLists(a, b, c, wa, wb, wc, k, id);
    e := Entry(score, best, id);
  }

  lemma TwoKeys(a: seq<string>, b: seq<string>, ra: map<string, nat>, rb: map<string, nat>)
    requires RanksOf(ra, a) && RanksOf(rb, b)
    ensures forall id :: id in ra.Keys + rb.Keys <==> Listed([a, b], id)
  {
    forall id ensures id in ra.Keys + rb.Keys <==> Listed([a, b], id) {
      TwoLists(a, b, 0.0, 0.0, 1, id);
      RankedIffListed(a, id);
      RankedIffListed(b, id);
    }
  }

  lemma ThreeKeys(a: seq<string>, b: seq<string>, c: seq<string>, ra: map<string, nat>, rb: map<string, nat>,
                  rc: map<string, nat>)
    requires RanksOf(ra, a) && RanksOf(rb, b) && RanksOf(rc, c)
    ensures forall id :: id in ra.Keys + rb.Keys + rc.Keys <==> Listed([a, b, c], id)
  {
    forall id ensures id in ra.Keys + rb.Keys + rc.Keys <==> Listed([a, b, c], id) {
      ThreeLists(a, b, c, 0.0, 0.0, 0.0, 1, id);
      RankedIffListed(a, id);
      RankedIffListed(b, id);
      RankedIffListed(c, id);
    }
  }

  /** The sort and the final numbering. */
  method Finish(entries: seq<Entry>, ghost all: set<string>, ghost lists: seq<seq<string>>, ghost weights: seq<real>,
                ghost k: int)
    returns (results: seq<Ranked>)
    requires k > 0 && |weights| == |lists| && Holds(entries, all, lists, weights, k)
    requires forall id :: id in all <==> Listed(lists, id)
    ensures IsFusion(Entries(results), lists, weights, k)
    ensures forall i :: 0 <= i < |results| ==> results[i].rank == i + 1
  {
    SortedHoldsIsFusion(entries, all, lists, weights, k);
    NumberedEntries(Sort(entries, Precedes));
    results := Numbered(Sort(entries, Precedes));
  }

  /** reciprocal_rank_fusion; nothing stands for the ValueError of a constant that is not
      positive.  The ids of the dictionary are read in any order. */
  method ReciprocalRankFusion(vector: seq<string>, lexical: seq<string>, k: int, vectorWeight: real,
                              lexicalWeight: real)
    returns (results: Option<seq<Ranked>>)
    ensures results.None? <==> k <= 0
    ensures results.Some? ==> IsFusion(Entries(results.value), [vector, lexical], [vectorWeight, lexicalWeight], k)
    ensures results.Some? ==> forall i :: 0 <= i < |results.value| ==> results.value[i].rank == i + 1
  {
    if k <= 0 {
      return None;
    }
    var vectorRanks := RankList(vector);
    var lexicalRanks := RankList(lexical);
    ghost var lists, weights := [vector, lexical], [vectorWeight, lexicalWeight];
    var left, entries := vectorRanks.Keys + lexicalRanks.Keys, [];
    TwoKeys(vector, lexical, vectorRanks, lexicalRanks);
    ghost var all, done := left, {};
    while left != {}
      invariant left !! done && left + done == all
      invariant Holds(entries, done, lists, weights, k)
      decreases |left|
    {
      var id :| id in left;
      var e := TwoListEntry(vectorRanks, lexicalRanks, vector, lexical, vectorWeight, lexicalWeight, k, id);
      HoldsMore(entries, done, lists, weights, k, e);
      entries := entries + [e];
      left, done := left - {id}, done + {id};
    }
    assert done == all;
    var numbered := Finish(entries, all, lists, weights, k);
    results := Some(numbered);
  }

  /** intelligent_rrf; its configuration keeps the constant positive. */
  method IntelligentRrf(hybrid: seq<string>, hierarchical: seq<string>, graph: seq<string>,
                        hybridWeight: real, hierarchicalWeight: real, graphWeight: real, k: int)
    returns (results: seq<Ranked>)
    requires k > 0
    ensures IsFusion(Entries(results), [hybrid, hierarchical, graph],
                     [hybridWeight, hierarchicalWeight, graphWeight], k)
    ensures forall i :: 0 <= i < |results| ==> results[i].rank == i + 1
  {
    var hybridRanks := RankList(hybrid);
    var hierarchicalRanks := RankList(hierarchical);
    var graphRanks := RankList(graph);
    ghost var lists, weights := [hybrid, hierarchical, graph], [hybridWeight, hierarchicalWeight, graphWeight];
    var all := hybridRanks.Keys + hierarchicalRanks.Keys + graphRanks.Keys;
    ThreeKeys(hybrid, hierarchical, graph, hybridRanks, hierarchicalRanks, graphRanks);
    var entries := ThreeListEntries(all, hybridRanks, hierarchicalRanks, graphRanks, hybrid, hierarchical, graph,
                                    hybridWeight, hierarchicalWeight, graphWeight, k, lists, weights);
    results := Finish(entries, all, lists, weights, k);
  }

  method ThreeListEntries(all: set<string>, hybrid: map<string, nat>, hierarchical: map<string, nat>,
                          graph: map<string, nat>,
                          ghost a: seq<string>, ghost b: seq<string>, ghost c: seq<string>,
                          wa: real, wb: real, wc: real, k: int, ghost lists: seq<seq<string>>, ghost weights: seq<real>)
    returns (entries: seq<Entry>)
    requires k > 0 && RanksOf(hybrid, a) && RanksOf(hierarchical, b) && RanksOf(graph, c)
    requires lists == [a, b, c] && weights == [wa, wb, wc]
    ensures Holds(entries, all, lists, weights, k)
  {
    var left := all;
    entries := [];
    ghost var done := {};
    while left != {}
      invariant left !! done && left + done == all && Holds(entries, done, lists, weights, k)
      decreases |left|
    {
      var id :| id in left;
      var e := ThreeListEntry(hybrid, hierarchical, graph, a, b, c, wa, wb, wc, k, id);
      HoldsMore(entries, done, lists, weights, k, e);
      entries := entries + [e];
      left, done := left - {id}, done + {id};
    }
    assert done == all;
  }
}
