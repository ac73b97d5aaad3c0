/** What the fused list is, said of positions in the lists alone: src/zglab_rag/retrieval/hybrid.py
    and intelligent.py. */
module FusionLaws {
  import opened Fusion
  import opened Sorting

  /** The last place of `id` in the list. */
  predicate LastAt(ids: seq<string>, id: string, i: nat) {
    i < |ids| && ids[i] == id && forall j :: i < j < |ids| ==> ids[j] != id
  }

  lemma {:induction false} RankIsLast(ids: seq<string>, id: string, i: nat)
    requires LastAt(ids, id, i)
    ensures RankIn(ids, id) == i + 1
  {
    var n := |ids| - 1;
    if i < n {
      RankIsLast(ids[..n], id, i);
    }
  }

  lemma Unlisted(ids: seq<string>, id: string)
    requires id !in ids
    ensures RankIn(ids, id) == 0
  {
    RankedIffListed(ids, id);
  }

  lemma Inverse(weight: real, n: real)
    requires n != 0.0
    ensures weight / n * n == weight
  {
  }

  /** The share of a listed id, times the constant plus the rank of its last place, is the weight. */
  lemma ShareOfListed(weight: real, k: int, ids: seq<string>, id: string, i: nat, n: real)
    requires k > 0 && LastAt(ids, id, i) && n == (k + i + 1) as real
    ensures Share(weight, k, RankIn(ids, id)) * n == weight
  {
    RankIsLast(ids, id, i);
    Inverse(weight, n);
  }

  lemma ShareOfUnlisted(weight: real, k: int, ids: seq<string>, id: string)
    requires k > 0 && id !in ids
    ensures Share(weight, k, RankIn(ids, id)) == 0.0
  {
    Unlisted(ids, id);
  }

  /** An id in no list scores nothing. */
  lemma NoListNoScore(k: int, id: string)
    requires k > 0
    ensures EntryOf([], [], k, id) == Entry(0.0, 0, id)
  {
  }

  /** One more list that does not hold the id changes nothing. */
  lemma EntryOfUnlisted(lists: seq<seq<string>>, weights: seq<real>, k: int, ids: seq<string>, weight: real, id: string)
    requires k > 0 && |weights| == |lists| && id !in ids
    ensures EntryOf(lists + [ids], weights + [weight], k, id) == EntryOf(lists, weights, k, id)
  {
    ScoreMore(lists, weights, k, ids, weight, id);
    ShareOfUnlisted(weight, k, ids, id);
    Unlisted(ids, id);
  }

  /** One more list that holds the id adds weight / (constant + rank) to the score, and the best
      rank is the smaller one. */
  lemma EntryOfListed(lists: seq<seq<string>>, weights: seq<real>, k: int, ids: seq<string>, weight: real, id: string,
                      i: nat)
    requires k > 0 && |weights| == |lists| && LastAt(ids, id, i)
    ensures var before := EntryOf(lists, weights, k, id);
            EntryOf(lists + [ids], weights + [weight], k, id)
            == Entry(before.score + weight / (k + i + 1) as real,
                     if before.best == 0 || before.best > i + 1 then i + 1 else before.best, id)
  {
    ScoreMore(lists, weights, k, ids, weight, id);
    RankIsLast(ids, id, i);
  }

  /** The fused list falls in score; equal scores go by best rank, and then by id. */
  lemma FusedFalls(fused: seq<Entry>, lists: seq<seq<string>>, weights: seq<real>, k: int, i: nat, j: nat)
    requires k > 0 && |weights| == |lists| && IsFusion(fused, lists, weights, k) && i < j < |fused|
    ensures
      || fused[i].score > fused[j].score
      || (fused[i].score == fused[j].score && fused[i].best < fused[j].best)
      || (fused[i].score == fused[j].score && fused[i].best == fused[j].best && fused[i].id != fused[j].id
          && Lexicographic(fused[i].id, fused[j].id))
  {
    FusedIdsAreDistinct(fused, lists, weights, k);
    StringLeqIff(fused[i].id, fused[j].id);
    assert Precedes(fused[i], fused[j]);
  }

  /** An id is in the fused list exactly when some list holds it. */
  lemma FusedIff(fused: seq<Entry>, lists: seq<seq<string>>, weights: seq<real>, k: int, id: string)
    requires k > 0 && |weights| == |lists| && IsFusion(fused, lists, weights, k)
    ensures (exists i :: 0 <= i < |fused| && fused[i].id == id) <==> exists j :: 0 <= j < |lists| && id in lists[j]
  {
    if i :| 0 <= i < |fused| && fused[i].id == id {
      assert fused[i] in fused;
    }
    if Listed(lists, id) {
      assert EntryOf(lists, weights, k, id) in fused;
    }
  }
}
