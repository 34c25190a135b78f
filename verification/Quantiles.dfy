/**
 * Quantiles estimated from cumulative bucket counts (observability/histograms.py,
 * `quantile_from_buckets`), over exact arithmetic.
 */
module Quantiles {
  import opened Seqs
  import opened Sorting

  datatype Bound = Finite(r: real) | PosInf

  /** Upper bound (inclusive) and cumulative count. */
  type Bucket = (Bound, real)

  /** The answer: a number, infinity, not-a-number, `None`, or the `ValueError` for a bad `q`. */
  datatype Answer = Value(r: real) | Infinite | NotANumber | NoAnswer | BadQuantile

  predicate BoundLe(a: Bound, b: Bound) {
    b.PosInf? || (a.Finite? && a.r <= b.r)
  }

  /** Python compares tuples left to right. */
  predicate BucketLe(a: Bucket, b: Bucket) {
    if a.0 == b.0 then a.1 <= b.1 else BoundLe(a.0, b.0)
  }

  lemma BucketOrder()
    ensures TotalPreorder(BucketLe) && Antisymmetric(BucketLe)
  {}

  /** The counts with every one raised to the largest before it. */
  function Clamped(ordered: seq<Bucket>, running: real): (counts: seq<real>)
    ensures |counts| == |ordered|
  {
    if ordered == [] then []
    else
      var top := if ordered[0].1 > running then ordered[0].1 else running;
      [top] + Clamped(ordered[1..], top)
  }

  method Clamp(ordered: seq<Bucket>) returns (counts: seq<real>)
    ensures counts == Clamped(ordered, 0.0)
  {
    counts := [];
    var running := 0.0;
    for k := 0 to |ordered|
      invariant Clamped(ordered, 0.0) == counts + Clamped(ordered[k..], running)
    {
      running := if ordered[k].1 > running then ordered[k].1 else running;
      counts := counts + [running];
      assert ordered[k..][1..] == ordered[k + 1..];
    }
  }

  /** Index of the first count that reaches `rank`, else the last index. */
  function Reaching(counts: seq<real>, rank: real): (index: nat)
    requires counts != []
    ensures index < |counts| && (forall i :: 0 <= i < index ==> counts[i] < rank)
    ensures index < |counts| - 1 ==> counts[index] >= rank
  {
    if counts[0] >= rank || |counts| == 1 then 0 else 1 + Reaching(counts[1..], rank)
  }

  method FirstReaching(counts: seq<real>, rank: real) returns (index: nat)
    requires counts != []
    ensures index == Reaching(counts, rank)
  {
    index := 0;
    while index < |counts| - 1 && counts[index] < rank
      invariant index < |counts| && Reaching(counts, rank) == index + Reaching(counts[index..], rank)
    {
      assert counts[index..][1..] == counts[index + 1..];
      index := index + 1;
    }
  }

  function Reported(b: Bound): Answer {
    if b.Finite? then Value(b.r) else Infinite
  }

  function Interpolated(start: real, end: real, fraction: real): real {
    start + (end - start) * fraction
  }

  function Ratio(part: real, whole: real): real
    requires whole > 0.0
  {
    part / whole
  }

  /** `start + (end - start) * fraction` with IEEE infinities, for `start <= end` and `0 <= fraction`. */
  function Between(start: Bound, end: Bound, fraction: real): Answer {
    if start.PosInf? then NotANumber
    else if end.Finite? then Value(Interpolated(start.r, end.r, fraction))
    else if fraction > 0.0 then Infinite
    else NotANumber
  }

  /** The estimate in bucket `index`. */
  function InBucket(bounds: seq<Bound>, counts: seq<real>, index: nat, rank: real): Answer
    requires 2 <= |bounds| == |counts| && index < |counts|
  {
    if index == |counts| - 1 then Reported(bounds[|bounds| - 2])
    else if index == 0 && bounds[0].Finite? && bounds[0].r <= 0.0 then Reported(bounds[0])
    else
      var start := if index == 0 then Finite(0.0) else bounds[index - 1];
      var below := if index == 0 then 0.0 else counts[index - 1];
      var population := counts[index] - below;
      if population <= 0.0 then Reported(bounds[index])
      else Between(start, bounds[index], Ratio(rank - below, population))
  }

  function BoundsOf(ordered: seq<Bucket>): (bounds: seq<Bound>)
    ensures |bounds| == |ordered|
  {
    Map((b: Bucket) => b.0, ordered)
  }

  /** How many observations lie at or below the quantile. */
  function Rank(q: real, observations: real): real {
    q * observations
  }

  predicate Answerable(ordered: seq<Bucket>) {
    |ordered| >= 2 && ordered[|ordered| - 1].0.PosInf?
  }

  function AtRank(ordered: seq<Bucket>, counts: seq<real>, rank: real): Answer
    requires 2 <= |ordered| == |counts|
  {
    InBucket(BoundsOf(ordered), counts, Reaching(counts, rank), rank)
  }

  /** The number of observations: the last clamped count. */
  function Total(ordered: seq<Bucket>): real
    requires ordered != []
  {
    Clamped(ordered, 0.0)[|ordered| - 1]
  }

  function OfSorted(ordered: seq<Bucket>, q: real): Answer {
    if !(0.0 <= q <= 1.0) then BadQuantile
    else if !Answerable(ordered) then NoAnswer
    else
      var observations := Total(ordered);
      if observations <= 0.0 then NoAnswer else AtRank(ordered, Clamped(ordered, 0.0), Rank(q, observations))
  }

  function Quantile(buckets: seq<Bucket>, q: real): Answer {
    OfSorted(Sort(buckets, BucketLe), q)
  }

  method QuantileFromBuckets(buckets: seq<Bucket>, q: real) returns (answer: Answer)
    ensures answer == Quantile(buckets, q)
  {
    if !(0.0 <= q <= 1.0) {
      return BadQuantile;
    }
    var ordered := Sort(buckets, BucketLe);
    if !Answerable(ordered) {
      return NoAnswer;
    }
    var counts := Clamp(ordered);
    var observations := counts[|counts| - 1];
    if observations <= 0.0 {
      return NoAnswer;
    }
    answer := EstimateAtRank(ordered, counts, Rank(q, observations));
  }

  method EstimateAtRank(ordered: seq<Bucket>, counts: seq<real>, rank: real) returns (answer: Answer)
    requires 2 <= |ordered| == |counts|
    ensures answer == AtRank(ordered, counts, rank)
  {
    var index := FirstReaching(counts, rank);
    answer := InBucket(BoundsOf(ordered), counts, index, rank);
  }
}
