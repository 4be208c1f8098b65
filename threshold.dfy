/**
 * The decision threshold of `log_records`: sort all scores, take the one at
 * index `int(0.99 * len(scores))` as the cutoff and the first as the minimum.
 */
module Threshold {
  import opened Base
  import opened Sorting

  /**
   * `int(0.99 * n)`, computed exactly as `(99 * n) / 100`; for every n ≥ 1
   * it is a valid index into a list of n scores.
   */
  function CutIndex(n: nat): (k: nat)
    ensures n >= 1 ==> k < n
    ensures k <= n
  {
    (99 * n) / 100
  }

  /** The minimum score and the cutoff, both taken from the sorted scores. */
  datatype ScoreThreshold = ScoreThreshold(min: real, cut: real)

  /**
   * `score_thresh` and `score_min` of `log_records`: the sorted scores at
   * index `int(0.99 * n)` and at index 0. With no scores, indexing the
   * empty sorted list fails, which is `None` here.
   */
  function Estimate(scores: seq<real>): (r: Option<ScoreThreshold>)
    ensures r.None? <==> scores == []
    ensures r.Some? ==> r.value.min in scores && r.value.cut in scores
    ensures r.Some? ==> forall x :: x in scores ==> r.value.min <= x
    ensures r.Some? ==> r.value.min <= r.value.cut
    ensures r.Some? ==> CountAbove(scores, r.value.cut) <= |scores| - 1 - CutIndex(|scores|)
    ensures r.Some? ==> CountBelow(scores, r.value.cut) <= CutIndex(|scores|)
  {
    var sorted := Sort(scores);
    assert |sorted| == |multiset(sorted)| == |multiset(scores)| == |scores|;
    if |sorted| == 0 then None
    else
      var k := CutIndex(|sorted|);
      assert sorted[0] in multiset(scores) && sorted[k] in multiset(scores);
      assert forall x :: x in scores ==> x in multiset(sorted);
      SortedHeadIsLeastAll(sorted);
      CountAboveSorted(sorted, k);
      CountAbovePerm(sorted, scores, sorted[k]);
      CountBelowSorted(sorted, k);
      CountBelowPerm(sorted, scores, sorted[k]);
      Some(ScoreThreshold(sorted[0], sorted[k]))
  }

  lemma SortedHeadIsLeastAll(s: seq<real>)
    requires SortedAsc(s) && s != []
    ensures forall x :: x in multiset(s) ==> s[0] <= x
  {
    forall x | x in multiset(s) ensures s[0] <= x {
      SortedHeadIsLeast(s, x);
    }
  }

  /**
   * At least one score is never above the cutoff, so at least one entry of
   * every report is NO.
   */
  lemma SomeScoreNotAbove(scores: seq<real>)
    requires scores != []
    ensures Estimate(scores).Some?
    ensures CountAbove(scores, Estimate(scores).value.cut) < |scores|
  {
  }

  /**
   * With at most 100 scores the cutoff index is the last one, so the
   * cutoff is the largest score and no score is strictly above it.
   */
  lemma SmallRunHasNoAbove(scores: seq<real>)
    requires 1 <= |scores| <= 100
    ensures CutIndex(|scores|) == |scores| - 1
    ensures CountAbove(scores, Estimate(scores).value.cut) == 0
  {
  }

  /** The threshold depends only on which scores arrived, not on their order. */
  lemma EstimateOrderFree(a: seq<real>, b: seq<real>)
    requires multiset(a) == multiset(b)
    ensures Estimate(a) == Estimate(b)
  {
    SortOrderFree(a, b);
  }

  /**
   * Two pairs with DTW costs 0.0 and 2.0 give the scores 0.0 and -2.0; the
   * cutoff index is 1, so the cutoff is 0.0 and the minimum -2.0.
   */
  lemma TwoScoreExample()
    ensures CutIndex(2) == 1
    ensures Estimate([0.0, -2.0]) == Some(ScoreThreshold(-2.0, 0.0))
  {
    assert SortedAsc([-2.0, 0.0]);
    assert [0.0, -2.0] == [0.0] + [-2.0];
    assert multiset([0.0, -2.0]) == multiset([-2.0, 0.0]);
    SortedUnique(Sort([0.0, -2.0]), [-2.0, 0.0]);
  }

  /**
   * The rank conditions of `Estimate` pin the cutoff down: it is element
   * `int(0.99 * n)` of the sorted scores, the 99th percentile.
   */
  lemma CutIsPercentile(scores: seq<real>)
    requires scores != []
    ensures Estimate(scores).Some?
    ensures |Sort(scores)| == |scores|
    ensures Estimate(scores).value.cut == Sort(scores)[CutIndex(|scores|)]
    ensures Estimate(scores).value.min == Sort(scores)[0]
  {
    var s, n, t := Sort(scores), |scores|, Estimate(scores).value.cut;
    assert |s| == |multiset(s)| == |multiset(scores)| == n;
    CountAbovePerm(s, scores, t);
    CountBelowPerm(s, scores, t);
    SortedRank(s, CutIndex(n), t);
    assert s[0] in multiset(scores);
    SortedHeadIsLeastAll(s);
  }
}
