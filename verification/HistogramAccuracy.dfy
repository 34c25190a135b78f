/**
 * How far an estimated quantile can be from the true one: a histogram of real observations,
 * compared with the nearest-rank percentile of the same observations.
 */
module HistogramAccuracy {
  import opened Seqs
  import opened Sorting
  import opened OrderStatistics
  import opened Quantiles
  import opened QuantileProperties

  /** Positive bounds, each above the one before. */
  ghost predicate Layout(bounds: seq<real>) {
    bounds != [] && (forall i :: 0 <= i < |bounds| ==> 0.0 < bounds[i])
    && forall i, j :: 0 <= i < j < |bounds| ==> bounds[i] < bounds[j]
  }

  /** The buckets an exporter reports for the observations. */
  function Observed(bounds: seq<real>, obs: seq<real>): (r: seq<Bucket>)
    ensures |r| == |bounds| + 1
  {
    Map((b: real) => (Finite(b), AtMost(obs, b) as real), bounds) + [(PosInf, |obs| as real)]
  }

  /** The bucket a value is counted in first: the number of bounds below it. */
  function BucketOf(bounds: seq<real>, x: real): nat {
    if bounds == [] || x <= bounds[0] then 0 else 1 + BucketOf(bounds[1..], x)
  }

  lemma {:induction false} BucketOfIs(bounds: seq<real>, x: real, i: nat)
    requires i <= |bounds| && (forall j :: 0 <= j < i ==> bounds[j] < x) && (i < |bounds| ==> x <= bounds[i])
    ensures BucketOf(bounds, x) == i
    decreases i
  {
    if i > 0 {
      BucketOfIs(bounds[1..], x, i - 1);
    }
  }

  function LowerEdge(bounds: seq<real>, i: nat): real
    requires i <= |bounds|
  {
    if i == 0 then 0.0 else bounds[i - 1]
  }

  lemma ObservedGrows(bounds: seq<real>, obs: seq<real>)
    requires Layout(bounds)
    ensures var r := Observed(bounds, obs);
      && (forall i, j :: 0 <= i <= j < |r| ==> r[i].1 <= r[j].1)
      && (forall i :: 0 <= i < |r| ==> 0.0 <= r[i].1)
      && Sorted(r, BucketLe) && OneSeries(r)
  {
    var r := Observed(bounds, obs);
    forall i, j | 0 <= i <= j < |r| ensures r[i].1 <= r[j].1 {
      if j < |bounds| {
        CountMonotone(v => v <= bounds[i], v => v <= bounds[j], obs);
      } else if i < |bounds| {
        CountMonotone(v => v <= bounds[i], v => v <= bounds[i], obs);
      }
    }
  }

  /** The counts as observed are cumulative already, and the last one counts everything. */
  lemma ObservedCounts(bounds: seq<real>, obs: seq<real>)
    requires Layout(bounds)
    ensures var r := Observed(bounds, obs);
      var counts := Clamped(r, 0.0);
      (forall i :: 0 <= i < |r| ==> counts[i] == r[i].1) && Growing(counts) && Total(r) == |obs| as real
  {
    var r := Observed(bounds, obs);
    ObservedGrows(bounds, obs);
    ClampedFixed(r, 0.0);
    ClampedGrows(r, 0.0);
  }

  lemma ShareIsRank(pct: real, n: nat)
    ensures Share(pct, n) == Rank(Fraction(pct), n as real)
  {}

  /** The estimate is taken at the same share of the observations as the percentile. */
  lemma ObservedQuantile(bounds: seq<real>, obs: seq<real>, pct: real)
    requires Layout(bounds) && obs != [] && 0.0 < pct <= 100.0
    ensures var r, share := Observed(bounds, obs), Share(pct, |obs|);
      && 0.0 < share <= |obs| as real
      && Quantile(r, Fraction(pct)) == AtRank(r, Clamped(r, 0.0), share)
  {
    var r := Observed(bounds, obs);
    ObservedGrows(bounds, obs);
    ObservedCounts(bounds, obs);
    SortFixed(r, BucketLe);
    ShareInRange(pct, |obs|);
    ShareIsRank(pct, |obs|);
    TakenAtRank(r, Fraction(pct), Share(pct, |obs|));
  }

  /** The rank falls in the bucket that holds the true percentile. */
  lemma RankFallsWithPercentile(bounds: seq<real>, obs: seq<real>, pct: real)
    requires Layout(bounds) && obs != [] && 0.0 < pct <= 100.0
    ensures Percentile(obs, pct).Some?
    ensures Reaching(Clamped(Observed(bounds, obs), 0.0), Share(pct, |obs|)) == BucketOf(bounds, Percentile(obs, pct).value)
  {
    ObservedCounts(bounds, obs);
    var r, share := Observed(bounds, obs), Share(pct, |obs|);
    var counts := Clamped(r, 0.0);
    var i := Reaching(counts, share);
    PercentileBelow(obs, pct, 0.0);
    var x := Percentile(obs, pct).value;
    forall j | 0 <= j < |bounds| ensures x <= bounds[j] <==> counts[j] >= share {
      PercentileBelow(obs, pct, bounds[j]);
      assert counts[j] == r[j].1 == AtMost(obs, bounds[j]) as real;
    }
    BucketOfIs(bounds, x, i);
  }

  lemma {:induction false} BucketEdges(bounds: seq<real>, x: real)
    ensures var i := BucketOf(bounds, x);
      && i <= |bounds| && (i < |bounds| ==> x <= bounds[i]) && (i > 0 ==> bounds[i - 1] < x)
  {
    if bounds != [] && x > bounds[0] {
      BucketEdges(bounds[1..], x);
    }
  }

  /** One series over these bounds, with its counts. */
  ghost predicate Over(bounds: seq<real>, r: seq<Bucket>, counts: seq<real>) {
    && OneSeries(r) && |r| == |counts| == |bounds| + 1 && Growing(counts) && 0.0 <= counts[0]
    && forall j :: 0 <= j < |bounds| ==> r[j].0 == Finite(bounds[j])
  }

  lemma ObservedOver(bounds: seq<real>, obs: seq<real>)
    requires Layout(bounds)
    ensures Over(bounds, Observed(bounds, obs), Clamped(Observed(bounds, obs), 0.0))
    ensures Clamped(Observed(bounds, obs), 0.0)[|bounds|] == |obs| as real
  {
    ObservedGrows(bounds, obs);
    ObservedCounts(bounds, obs);
  }

  /** The estimate is inside the bucket its rank falls in, above its lower edge, or the highest finite bound. */
  lemma EstimateEdges(bounds: seq<real>, r: seq<Bucket>, counts: seq<real>, share: real, i: nat) returns (estimate: real)
    requires Layout(bounds) && Over(bounds, r, counts) && 0.0 < share <= counts[|bounds|] && i == Reaching(counts, share)
    ensures AtRank(r, counts, share).Value? && AtRank(r, counts, share).r == estimate
    ensures i < |bounds| ==> LowerEdge(bounds, i) < estimate <= bounds[i]
    ensures i == |bounds| ==> estimate == bounds[|bounds| - 1]
  {
    AnswerInBucket(r, counts, share);
    estimate := AtRank(r, counts, share).r;
    assert i > 0 ==> r[i - 1].0 == Finite(bounds[i - 1]);
    assert i < |bounds| ==> r[i].0 == Finite(bounds[i]) && Lower(r, i) == LowerEdge(bounds, i) < bounds[i];
  }

  /**
   * The estimate and the true percentile lie in the same bucket, so they differ by at most its
   * width; beyond the highest finite bound the estimate is that bound, and the truth is above it.
   */
  lemma SameBucket(bounds: seq<real>, obs: seq<real>, pct: real)
    requires Layout(bounds) && obs != [] && 0.0 < pct <= 100.0
    requires forall i :: 0 <= i < |obs| ==> 0.0 <= obs[i]
    ensures Percentile(obs, pct).Some? && Quantile(Observed(bounds, obs), Fraction(pct)).Value?
    ensures var x, estimate := Percentile(obs, pct).value, Quantile(Observed(bounds, obs), Fraction(pct)).r;
      var i := BucketOf(bounds, x);
      && i <= |bounds|
      && (i < |bounds| ==> LowerEdge(bounds, i) <= x <= bounds[i] && LowerEdge(bounds, i) < estimate <= bounds[i])
      && (i > 0 ==> LowerEdge(bounds, i) < x)
      && (i == |bounds| ==> estimate == bounds[|bounds| - 1] < x)
  {
    ObservedQuantile(bounds, obs, pct);
    RankFallsWithPercentile(bounds, obs, pct);
    var x := Percentile(obs, pct).value;
    var i := BucketOf(bounds, x);
    ObservedOver(bounds, obs);
    var estimate := EstimateEdges(bounds, Observed(bounds, obs), Clamped(Observed(bounds, obs), 0.0), Share(pct, |obs|), i);
    PercentileIsAValue(obs, pct);
    BucketEdges(bounds, x);
  }
}
