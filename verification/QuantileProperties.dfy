/** What the estimated quantile promises, for any counts and for counts of real observations. */
module QuantileProperties {
  import opened Seqs
  import opened Sorting
  import opened Quantiles
  import RealMul

  // ----- the input order does not matter ---------------------------------------

  lemma OrderFree(a: seq<Bucket>, b: seq<Bucket>, q: real)
    requires multiset(a) == multiset(b)
    ensures Quantile(a, q) == Quantile(b, q)
  {
    BucketOrder();
    SortOrderFree(a, b, BucketLe);
  }

  // ----- arithmetic of one bucket ------------------------------------------------

  lemma RatioInRange(part: real, whole: real)
    requires 0.0 <= part <= whole && 0.0 < whole
    ensures 0.0 <= Ratio(part, whole) <= 1.0
    ensures part > 0.0 ==> Ratio(part, whole) > 0.0
  {}

  lemma RatioMonotone(a: real, b: real, whole: real)
    requires a <= b && 0.0 < whole
    ensures Ratio(a, whole) <= Ratio(b, whole)
  {}

  lemma RatioScales(part: real, whole: real, k: real)
    requires 0.0 < whole && 0.0 < k
    ensures 0.0 < k * whole && Ratio(k * part, k * whole) == Ratio(part, whole)
  {
    assert k * whole > 0.0;
    var r := part / whole;
    assert part == r * whole;
    assert k * part == r * (k * whole);
  }

  lemma InterpolatedInRange(start: real, end: real, f: real)
    requires start <= end && 0.0 <= f <= 1.0
    ensures start <= Interpolated(start, end, f) <= end
  {
    RealMul.NonNegative(end - start, f);
    RealMul.Shrinks(end - start, f);
  }

  lemma InterpolatedAbove(start: real, end: real, f: real)
    requires start < end && 0.0 < f
    ensures start < Interpolated(start, end, f)
  {
    RealMul.Positive(end - start, f);
  }

  lemma InterpolatedMonotone(start: real, end: real, f: real, g: real)
    requires start <= end && f <= g
    ensures Interpolated(start, end, f) <= Interpolated(start, end, g)
  {
    RealMul.Monotone(f, g, end - start);
  }

  // ----- the clamped counts -------------------------------------------------------

  ghost predicate Growing(counts: seq<real>) {
    forall i, j :: 0 <= i <= j < |counts| ==> counts[i] <= counts[j]
  }

  lemma {:induction false} ClampedGrows(ordered: seq<Bucket>, running: real)
    ensures Growing(Clamped(ordered, running))
    ensures forall i :: 0 <= i < |ordered| ==> running <= Clamped(ordered, running)[i]
    ensures forall i :: 0 <= i < |ordered| ==> ordered[i].1 <= Clamped(ordered, running)[i]
    decreases |ordered|
  {
    if ordered != [] {
      var top := if ordered[0].1 > running then ordered[0].1 else running;
      ClampedGrows(ordered[1..], top);
    }
  }

  /** Counts that already grow are left alone. */
  lemma {:induction false} ClampedFixed(ordered: seq<Bucket>, running: real)
    requires forall i, j :: 0 <= i <= j < |ordered| ==> ordered[i].1 <= ordered[j].1
    requires forall i :: 0 <= i < |ordered| ==> running <= ordered[i].1
    ensures forall i :: 0 <= i < |ordered| ==> Clamped(ordered, running)[i] == ordered[i].1
    decreases |ordered|
  {
    if ordered != [] {
      ClampedFixed(ordered[1..], ordered[0].1);
    }
  }

  // ----- the bucket the answer lies in ---------------------------------------------

  /** Sorted buckets with finite bounds and one `+Inf` bucket at the end: one histogram series. */
  ghost predicate OneSeries(ordered: seq<Bucket>) {
    && |ordered| >= 2 && ordered[|ordered| - 1].0.PosInf?
    && (forall i :: 0 <= i < |ordered| - 1 ==> ordered[i].0.Finite?)
    && (forall i, j :: 0 <= i <= j < |ordered| - 1 ==> ordered[i].0.r <= ordered[j].0.r)
  }

  /** A set of buckets with exactly one `+Inf` among at least two. */
  ghost predicate OneInfinity(buckets: seq<Bucket>) {
    |buckets| >= 2 && Count((b: Bucket) => b.0.PosInf?, buckets) == 1
  }

  lemma SortedSeries(buckets: seq<Bucket>)
    requires OneInfinity(buckets)
    ensures OneSeries(Sort(buckets, BucketLe))
  {
    var s := Sort(buckets, BucketLe);
    var p := (b: Bucket) => b.0.PosInf?;
    BucketOrder();
    SortPermutes(buckets, BucketLe);
    SortSorts(buckets, BucketLe);
    CountPermuted(p, s, buckets);
    var last := |s| - 1;
    if s[last].0.Finite? {
      forall i | 0 <= i < |s| ensures !p(s[i]) {
        assert i < last ==> BucketLe(s[i], s[last]);
      }
      CountNone(p, s);
    }
    forall i | 0 <= i < last ensures s[i].0.Finite? {
      if p(s[i]) {
        CountTwice(p, s, i, last);
      }
    }
    forall i, j | 0 <= i <= j < last ensures s[i].0.r <= s[j].0.r {
      assert i < j ==> BucketLe(s[i], s[j]);
    }
  }

  /** The lower edge used for bucket `i`. */
  function Lower(ordered: seq<Bucket>, i: nat): real
    requires i < |ordered| && (i > 0 ==> ordered[i - 1].0.Finite?)
  {
    if i == 0 then 0.0 else ordered[i - 1].0.r
  }

  /** Which bucket a rank falls in, and that the answer stays between that bucket's edges. */
  lemma AnswerInBucket(ordered: seq<Bucket>, counts: seq<real>, rank: real)
    requires OneSeries(ordered) && |counts| == |ordered| && Growing(counts)
    requires 0.0 <= counts[0] && 0.0 <= rank <= counts[|counts| - 1] && 0.0 < counts[|counts| - 1]
    ensures AtRank(ordered, counts, rank).Value?
    ensures var i, last, r := Reaching(counts, rank), |counts| - 1, AtRank(ordered, counts, rank).r;
      && (i == last ==> r == ordered[last - 1].0.r)
      && (i == 0 && ordered[0].0.r <= 0.0 ==> r == ordered[0].0.r)
      && (i < last && (i > 0 || ordered[0].0.r > 0.0) ==> Lower(ordered, i) <= r <= ordered[i].0.r)
      && (i < last && rank > 0.0 && Lower(ordered, i) < ordered[i].0.r ==> Lower(ordered, i) < r)
  {
    var i, last := Reaching(counts, rank), |counts| - 1;
    var bounds := BoundsOf(ordered);
    if i < last && (i > 0 || ordered[0].0.r > 0.0) {
      var below := if i == 0 then 0.0 else counts[i - 1];
      var population := counts[i] - below;
      if population > 0.0 {
        RatioInRange(rank - below, population);
        InterpolatedInRange(Lower(ordered, i), ordered[i].0.r, Ratio(rank - below, population));
        if rank > below && Lower(ordered, i) < ordered[i].0.r {
          InterpolatedAbove(Lower(ordered, i), ordered[i].0.r, Ratio(rank - below, population));
        }
      }
    }
  }

  /** The edges of a bucket, and the counts there. */
  function Below(counts: seq<real>, i: nat): real
    requires i <= |counts|
  {
    if i == 0 then 0.0 else counts[i - 1]
  }

  lemma ProportionalIn(start: real, end: real, part: real, whole: real)
    requires whole > 0.0
    ensures (Interpolated(start, end, Ratio(part, whole)) - start) * whole == part * (end - start)
  {
    var f := Ratio(part, whole);
    assert f * whole == part;
    assert (end - start) * f * whole == (end - start) * (f * whole);
  }

  /**
   * The value `x` for a rank in bucket `i`. Where the bucket has observations of its own it divides
   * the width as the rank divides these: the cumulative count, drawn as straight lines through the
   * edges, takes the value of the rank there. Without them it is the upper edge; past the finite
   * bounds, the highest of these; and a first bucket that ends at or below zero has no width.
   */
  predicate Drawn(ordered: seq<Bucket>, counts: seq<real>, i: nat, rank: real, x: real)
    requires OneSeries(ordered) && |counts| == |ordered| && i < |ordered|
  {
    if i == |ordered| - 1 then x == ordered[i - 1].0.r
    else if i == 0 && ordered[0].0.r <= 0.0 then x == ordered[0].0.r
    else if counts[i] <= Below(counts, i) then x == ordered[i].0.r
    else (x - Lower(ordered, i)) * (counts[i] - Below(counts, i)) == (rank - Below(counts, i)) * (ordered[i].0.r - Lower(ordered, i))
  }

  lemma InBucketDrawn(ordered: seq<Bucket>, counts: seq<real>, rank: real, i: nat)
    requires OneSeries(ordered) && |counts| == |ordered| && i < |counts|
    ensures var answer := InBucket(BoundsOf(ordered), counts, i, rank);
      answer.Value? && Drawn(ordered, counts, i, rank, answer.r)
  {
    var below := Below(counts, i);
    if i < |counts| - 1 && counts[i] > below {
      ProportionalIn(Lower(ordered, i), ordered[i].0.r, rank - below, counts[i] - below);
    }
  }

  lemma {:induction false} ReachingIs(counts: seq<real>, rank: real, i: nat)
    requires i < |counts| && counts[i] >= rank && forall j :: 0 <= j < i ==> counts[j] < rank
    ensures Reaching(counts, rank) == i
  {
    if i > 0 {
      ReachingIs(counts[1..], rank, i - 1);
    }
  }

  lemma OrderedExactly(ordered: seq<Bucket>, counts: seq<real>, q: real, i: nat, rank: real)
    requires OneSeries(ordered) && counts == Clamped(ordered, 0.0) && i < |counts| && counts[|counts| - 1] > 0.0
    requires 0.0 <= q <= 1.0 && rank == Rank(q, counts[|counts| - 1])
    requires counts[i] >= rank && forall j :: 0 <= j < i ==> counts[j] < rank
    ensures OfSorted(ordered, q).Value? && Drawn(ordered, counts, i, rank, OfSorted(ordered, q).r)
  {
    ReachingIs(counts, rank, i);
    InBucketDrawn(ordered, counts, rank, i);
    OfSortedIs(ordered, counts, q, rank);
  }

  lemma RankIs(q: real, n: real)
    ensures Rank(q, n) == q * n
  {}

  lemma OfSortedIs(ordered: seq<Bucket>, counts: seq<real>, q: real, rank: real)
    requires OneSeries(ordered) && counts == Clamped(ordered, 0.0) && counts[|counts| - 1] > 0.0 && 0.0 <= q <= 1.0
    requires rank == Rank(q, counts[|counts| - 1])
    ensures OfSorted(ordered, q) == InBucket(BoundsOf(ordered), counts, Reaching(counts, rank), rank)
  {
    assert Answerable(ordered) && Total(ordered) == counts[|counts| - 1];
    assert AtRank(ordered, counts, rank) == InBucket(BoundsOf(ordered), counts, Reaching(counts, rank), rank);
  }

  lemma QuantileIs(buckets: seq<Bucket>, q: real)
    ensures Quantile(buckets, q) == OfSorted(Sort(buckets, BucketLe), q)
  {}

  /**
   * With several `+Inf` buckets, as IEEE arithmetic has it: infinity minus infinity is not a number, nor
   * is nothing of infinity, and anything more of it is infinite.
   */
  lemma InfinityDrawn(ordered: seq<Bucket>, counts: seq<real>, rank: real, i: nat, m: nat)
    requires InfiniteFrom(ordered, m) && m < |ordered| - 1 && |counts| == |ordered| && m <= i < |ordered|
    requires i == 0 ==> counts[0] >= 0.0
    ensures InBucket(BoundsOf(ordered), counts, i, rank) ==
      if i == |ordered| - 1 || counts[i] <= Below(counts, i) then Infinite
      else if i == m && rank > Below(counts, i) then Infinite
      else NotANumber
  {
    if i < |ordered| - 1 && counts[i] > Below(counts, i) {
      SignOf(rank - Below(counts, i), counts[i] - Below(counts, i));
    }
  }

  lemma SignOf(part: real, whole: real)
    requires whole > 0.0
    ensures Ratio(part, whole) > 0.0 <==> part > 0.0
  {
    var r := Ratio(part, whole);
    assert r * whole == part;
    if r > 0.0 {
      RealMul.Positive(r, whole);
    } else {
      RealMul.Monotone(r, 0.0, whole);
    }
  }

  lemma QuantileDrawn(buckets: seq<Bucket>, q: real, i: nat, ordered: seq<Bucket>, counts: seq<real>, rank: real)
    requires OneInfinity(buckets) && 0.0 <= q <= 1.0
    requires ordered == Sort(buckets, BucketLe) && counts == Clamped(ordered, 0.0) && i < |counts| && counts[|counts| - 1] > 0.0
    requires rank == Rank(q, counts[|counts| - 1]) && counts[i] >= rank && forall j :: 0 <= j < i ==> counts[j] < rank
    ensures OneSeries(ordered) && Quantile(buckets, q).Value? && Drawn(ordered, counts, i, rank, Quantile(buckets, q).r)
  {
    SortedSeries(buckets);
    OrderedExactly(ordered, counts, q, i, rank);
    QuantileIs(buckets, q);
  }

  /** What the estimate is: the rank is `q` of all observations, and its bucket the first that reaches it. */
  lemma QuantileExactly(buckets: seq<Bucket>, q: real, i: nat, ordered: seq<Bucket>, counts: seq<real>, n: real)
    requires OneInfinity(buckets) && 0.0 <= q <= 1.0 && n > 0.0
    requires ordered == Sort(buckets, BucketLe) && counts == Clamped(ordered, 0.0) && i < |counts| && counts[|counts| - 1] == n
    requires counts[i] >= q * n && forall j :: 0 <= j < i ==> counts[j] < q * n
    ensures OneSeries(ordered) && Quantile(buckets, q).Value? && Drawn(ordered, counts, i, q * n, Quantile(buckets, q).r)
  {
    RankIs(q, n);
    QuantileDrawn(buckets, q, i, ordered, counts, q * n);
  }

  // ----- growing with q -------------------------------------------------------------

  lemma ReachingMonotone(counts: seq<real>, a: real, b: real)
    requires counts != [] && a <= b
    ensures Reaching(counts, a) <= Reaching(counts, b)
  {}

  lemma SameBucketMonotone(ordered: seq<Bucket>, counts: seq<real>, a: real, b: real)
    requires OneSeries(ordered) && |counts| == |ordered| && Growing(counts)
    requires 0.0 <= counts[0] && 0.0 <= a <= b <= counts[|counts| - 1] && 0.0 < counts[|counts| - 1]
    requires Reaching(counts, a) == Reaching(counts, b)
    ensures AtRank(ordered, counts, a).Value? && AtRank(ordered, counts, b).Value?
    ensures AtRank(ordered, counts, a).r <= AtRank(ordered, counts, b).r
  {
    AnswerInBucket(ordered, counts, a);
    AnswerInBucket(ordered, counts, b);
    var i, last := Reaching(counts, a), |counts| - 1;
    if i < last && (i > 0 || ordered[0].0.r > 0.0) {
      var below := if i == 0 then 0.0 else counts[i - 1];
      var population := counts[i] - below;
      if population > 0.0 {
        RatioMonotone(a - below, b - below, population);
        InterpolatedMonotone(Lower(ordered, i), ordered[i].0.r, Ratio(a - below, population), Ratio(b - below, population));
      }
    }
  }

  lemma AtRankMonotone(ordered: seq<Bucket>, counts: seq<real>, a: real, b: real)
    requires OneSeries(ordered) && |counts| == |ordered| && Growing(counts)
    requires 0.0 <= counts[0] && 0.0 <= a <= b <= counts[|counts| - 1] && 0.0 < counts[|counts| - 1]
    ensures AtRank(ordered, counts, a).Value? && AtRank(ordered, counts, b).Value?
    ensures AtRank(ordered, counts, a).r <= AtRank(ordered, counts, b).r
  {
    ReachingMonotone(counts, a, b);
    if Reaching(counts, a) == Reaching(counts, b) {
      SameBucketMonotone(ordered, counts, a, b);
    } else {
      AnswerInBucket(ordered, counts, a);
      AnswerInBucket(ordered, counts, b);
    }
  }

  lemma RankBetween(p: real, q: real, n: real)
    requires 0.0 <= p <= q <= 1.0 && 0.0 < n
    ensures 0.0 <= Rank(p, n) <= Rank(q, n) <= n
    ensures 0.0 < q ==> 0.0 < Rank(q, n)
  {
    RealMul.NonNegative(p, n);
    RealMul.Monotone(p, q, n);
    RealMul.Monotone(q, 1.0, n);
    if 0.0 < q {
      RealMul.Positive(q, n);
    }
  }

  // ----- any set of buckets -------------------------------------------------------------

  /** A larger quantile is never a smaller answer; infinity is the largest, and not-a-number compares with nothing. */
  predicate AnswerLe(a: Answer, b: Answer) {
    if a.NoAnswer? || b.NoAnswer? then a == b
    else a.NotANumber? || b.NotANumber? || b.Infinite? || (a.Value? && b.Value? && a.r <= b.r)
  }

  /** Past the finite bounds: the first `m` buckets have finite bounds in order, the others have none. */
  ghost predicate InfiniteFrom(ordered: seq<Bucket>, m: nat) {
    && m < |ordered|
    && (forall i :: 0 <= i < m ==> ordered[i].0.Finite?)
    && (forall i :: m <= i < |ordered| ==> ordered[i].0.PosInf?)
    && (forall i, j :: 0 <= i <= j < m ==> ordered[i].0.r <= ordered[j].0.r)
  }

  lemma SomeInfinity(ordered: seq<Bucket>) returns (m: nat)
    requires Sorted(ordered, BucketLe) && Answerable(ordered)
    ensures InfiniteFrom(ordered, m)
  {
    m := |ordered| - 1;
    while m > 0 && ordered[m - 1].0.PosInf?
      invariant m < |ordered| && forall i :: m <= i < |ordered| ==> ordered[i].0.PosInf?
    {
      m := m - 1;
    }
    forall i | 0 <= i < m ensures ordered[i].0.Finite? {
      assert i < m - 1 ==> BucketLe(ordered[i], ordered[m - 1]);
    }
    forall i, j | 0 <= i <= j < m ensures ordered[i].0.r <= ordered[j].0.r {
      assert i < j ==> BucketLe(ordered[i], ordered[j]);
    }
  }

  /** Landing in or past the first of several infinite buckets never gives a number. */
  lemma NoNumberPast(ordered: seq<Bucket>, counts: seq<real>, m: nat, rank: real)
    requires InfiniteFrom(ordered, m) && m < |ordered| - 1 && |counts| == |ordered| && m <= Reaching(counts, rank)
    ensures AtRank(ordered, counts, rank).Infinite? || AtRank(ordered, counts, rank).NotANumber?
  {
    var i := Reaching(counts, rank);
    var bounds := BoundsOf(ordered);
    assert bounds[i] == ordered[i].0 && bounds[|bounds| - 2] == ordered[|ordered| - 2].0;
  }

  lemma ReachingInPrefix(counts: seq<real>, k: nat, rank: real)
    requires 0 < k <= |counts| && Reaching(counts, rank) + 1 < k
    ensures Reaching(counts[..k], rank) == Reaching(counts, rank)
  {
    var front := counts[..k];
    assert forall x :: 0 <= x < k ==> front[x] == counts[x];
    var i, j := Reaching(counts, rank), Reaching(front, rank);
  }

  /** Before them, the answer is that of the series up to the first. */
  lemma SameInPrefix(ordered: seq<Bucket>, counts: seq<real>, m: nat, rank: real)
    requires InfiniteFrom(ordered, m) && m < |ordered| - 1 && |counts| == |ordered| && Reaching(counts, rank) < m
    ensures AtRank(ordered, counts, rank) == AtRank(ordered[..m + 1], counts[..m + 1], rank)
  {
    ReachingInPrefix(counts, m + 1, rank);
    var i := Reaching(counts, rank);
    var bounds, fewer := BoundsOf(ordered), BoundsOf(ordered[..m + 1]);
    assert fewer[i] == bounds[i] && (i > 0 ==> fewer[i - 1] == bounds[i - 1]);
    assert fewer[0] == bounds[0];
  }

  lemma AtRankLe(ordered: seq<Bucket>, counts: seq<real>, m: nat, a: real, b: real)
    requires InfiniteFrom(ordered, m) && 2 <= |ordered| == |counts| && Growing(counts)
    requires 0.0 <= counts[0] && 0.0 <= a <= b <= counts[|counts| - 1] && 0.0 < counts[|counts| - 1]
    ensures AnswerLe(AtRank(ordered, counts, a), AtRank(ordered, counts, b))
    ensures m == |ordered| - 1 ==> AtRank(ordered, counts, a).Value? && AtRank(ordered, counts, b).Value?
  {
    ReachingMonotone(counts, a, b);
    if m == |ordered| - 1 {
      AtRankMonotone(ordered, counts, a, b);
    } else if Reaching(counts, b) >= m {
      NoNumberPast(ordered, counts, m, b);
      NeverNoAnswer(ordered, counts, a);
    } else {
      AtRankLeBefore(ordered, counts, m, a, b);
    }
  }

  lemma PrefixIsSeries(ordered: seq<Bucket>, counts: seq<real>, m: nat)
    requires InfiniteFrom(ordered, m) && 0 < m < |ordered| - 1 && |counts| == |ordered| && Growing(counts)
    ensures OneSeries(ordered[..m + 1]) && Growing(counts[..m + 1])
    ensures counts[..m + 1][0] == counts[0] && counts[..m + 1][m] == counts[m]
  {
    forall x | 0 <= x <= m ensures counts[..m + 1][x] == counts[x] && ordered[..m + 1][x] == ordered[x] {}
  }

  lemma AtRankLeBefore(ordered: seq<Bucket>, counts: seq<real>, m: nat, a: real, b: real)
    requires InfiniteFrom(ordered, m) && 2 <= |ordered| == |counts| && Growing(counts) && m < |ordered| - 1
    requires 0.0 <= counts[0] && 0.0 <= a <= b && Reaching(counts, b) < m
    ensures AtRank(ordered, counts, a).Value? && AtRank(ordered, counts, b).Value?
    ensures AtRank(ordered, counts, a).r <= AtRank(ordered, counts, b).r
  {
    ReachingMonotone(counts, a, b);
    if a == b {
      NumberBefore(ordered, counts, m, a);
    } else {
      SameInPrefix(ordered, counts, m, a);
      SameInPrefix(ordered, counts, m, b);
      assert counts[m] >= counts[Reaching(counts, b)] >= b;
      PrefixIsSeries(ordered, counts, m);
      AtRankMonotone(ordered[..m + 1], counts[..m + 1], a, b);
    }
  }

  lemma NeverNoAnswer(ordered: seq<Bucket>, counts: seq<real>, rank: real)
    requires 2 <= |ordered| == |counts|
    ensures !AtRank(ordered, counts, rank).NoAnswer? && !AtRank(ordered, counts, rank).BadQuantile?
  {}

  lemma NumberBefore(ordered: seq<Bucket>, counts: seq<real>, m: nat, rank: real)
    requires InfiniteFrom(ordered, m) && m < |ordered| - 1 && |counts| == |ordered| && Reaching(counts, rank) < m
    ensures AtRank(ordered, counts, rank).Value?
  {
    var i := Reaching(counts, rank);
    var bounds := BoundsOf(ordered);
    assert bounds[i] == ordered[i].0 && (i > 0 ==> bounds[i - 1] == ordered[i - 1].0);
  }

  /**
   * For any buckets and arbitrary counts, however far from cumulative: a larger quantile is never a
   * smaller answer. Not-a-number can come only of several `+Inf` buckets.
   */
  lemma MonotoneInQ(buckets: seq<Bucket>, p: real, q: real)
    requires 0.0 <= p <= q <= 1.0
    ensures AnswerLe(Quantile(buckets, p), Quantile(buckets, q))
    ensures OneInfinity(buckets) ==> !Quantile(buckets, p).NotANumber? && !Quantile(buckets, p).Infinite?
  {
    BucketOrder();
    SortSorts(buckets, BucketLe);
    if OneInfinity(buckets) {
      SortedSeries(buckets);
    }
    OrderedMonotone(Sort(buckets, BucketLe), p, q);
  }

  lemma OrderedMonotone(ordered: seq<Bucket>, p: real, q: real)
    requires Sorted(ordered, BucketLe) && 0.0 <= p <= q <= 1.0
    ensures AnswerLe(OfSorted(ordered, p), OfSorted(ordered, q))
    ensures OneSeries(ordered) ==> !OfSorted(ordered, p).NotANumber? && !OfSorted(ordered, p).Infinite?
  {
    if Answerable(ordered) && Total(ordered) > 0.0 {
      var m := SomeInfinity(ordered);
      OnlyLastInfinite(ordered, m);
      SortedMonotone(ordered, m, p, q);
    } else {
      NoneMonotone(ordered, p, q);
    }
  }

  lemma OnlyLastInfinite(ordered: seq<Bucket>, m: nat)
    requires InfiniteFrom(ordered, m)
    ensures OneSeries(ordered) ==> m == |ordered| - 1
  {
    assert ordered[m].0.PosInf?;
  }

  lemma NoneMonotone(ordered: seq<Bucket>, p: real, q: real)
    requires 0.0 <= p <= q <= 1.0 && !(Answerable(ordered) && Total(ordered) > 0.0)
    ensures AnswerLe(OfSorted(ordered, p), OfSorted(ordered, q)) && OfSorted(ordered, p).NoAnswer?
  {
    SortedAnswers(ordered, p);
    SortedAnswers(ordered, q);
  }

  lemma SortedAnswers(ordered: seq<Bucket>, q: real)
    requires 0.0 <= q <= 1.0
    ensures OfSorted(ordered, q).NoAnswer? <==> !Answerable(ordered) || Total(ordered) <= 0.0
  {
    if Answerable(ordered) && Total(ordered) > 0.0 {
      var rank := Rank(q, Total(ordered));
      TakenAtRank(ordered, q, rank);
      NeverNoAnswer(ordered, Clamped(ordered, 0.0), rank);
    }
  }

  lemma SortedMonotone(ordered: seq<Bucket>, m: nat, p: real, q: real)
    requires InfiniteFrom(ordered, m) && |ordered| >= 2 && Total(ordered) > 0.0 && 0.0 <= p <= q <= 1.0
    ensures AnswerLe(OfSorted(ordered, p), OfSorted(ordered, q))
    ensures m == |ordered| - 1 ==> OfSorted(ordered, p).Value? && OfSorted(ordered, q).Value?
  {
    var n := Total(ordered);
    var low, high := Rank(p, n), Rank(q, n);
    ClampedGrows(ordered, 0.0);
    RankBetween(p, q, n);
    TakenAtRank(ordered, p, low);
    TakenAtRank(ordered, q, high);
    AtRankLe(ordered, Clamped(ordered, 0.0), m, low, high);
  }

  lemma TakenAtRank(ordered: seq<Bucket>, q: real, rank: real)
    requires Answerable(ordered) && Total(ordered) > 0.0 && 0.0 <= q <= 1.0 && rank == Rank(q, Total(ordered))
    ensures OfSorted(ordered, q) == AtRank(ordered, Clamped(ordered, 0.0), rank)
  {}

  /** There is no answer exactly when there are too few buckets, none of them `+Inf`, or no positive count. */
  lemma NoAnswerExactly(buckets: seq<Bucket>, q: real)
    requires 0.0 <= q <= 1.0
    ensures Quantile(buckets, q).NoAnswer? <==>
      || |buckets| < 2 || (forall b :: b in buckets ==> b.0.Finite?) || (forall b :: b in buckets ==> b.1 <= 0.0)
  {
    SortedAnswers(Sort(buckets, BucketLe), q);
    NothingToAnswer(buckets);
  }

  lemma NothingToAnswer(buckets: seq<Bucket>)
    ensures !Answerable(Sort(buckets, BucketLe)) || Total(Sort(buckets, BucketLe)) <= 0.0 <==>
      || |buckets| < 2 || (forall b :: b in buckets ==> b.0.Finite?) || (forall b :: b in buckets ==> b.1 <= 0.0)
  {
    var ordered := Sort(buckets, BucketLe);
    BucketOrder();
    SortSorts(buckets, BucketLe);
    SortPermutes(buckets, BucketLe);
    if ordered != [] {
      InfinityLast(ordered);
      TotalPositive(ordered);
    }
  }

  lemma InfinityLast(ordered: seq<Bucket>)
    requires ordered != [] && Sorted(ordered, BucketLe)
    ensures ordered[|ordered| - 1].0.PosInf? <==> exists b :: b in ordered && b.0.PosInf?
  {
    var last := ordered[|ordered| - 1];
    assert last in ordered;
    if b :| b in ordered && b.0.PosInf? {
      var i :| 0 <= i < |ordered| && ordered[i] == b;
      assert i < |ordered| - 1 ==> BucketLe(ordered[i], last);
    }
  }

  lemma TotalPositive(ordered: seq<Bucket>)
    requires ordered != []
    ensures Total(ordered) <= 0.0 <==> forall b :: b in ordered ==> b.1 <= 0.0
  {
    ClampedGrows(ordered, 0.0);
    ClampedIsReached(ordered, 0.0, |ordered| - 1);
    var counts, n := Clamped(ordered, 0.0), Total(ordered);
    if n > 0.0 {
      var i :| 0 <= i < |ordered| && ordered[i].1 == n;
      assert ordered[i] in ordered;
    } else {
      forall b | b in ordered ensures b.1 <= 0.0 {
        var i :| 0 <= i < |ordered| && ordered[i] == b;
        assert ordered[i].1 <= counts[i] <= n;
      }
    }
  }

  /** Every clamped count is the running start or one of the counts so far. */
  lemma {:induction false} ClampedIsReached(ordered: seq<Bucket>, running: real, k: nat)
    requires k < |ordered|
    ensures var c := Clamped(ordered, running)[k];
      c == running || exists i :: 0 <= i <= k && ordered[i].1 == c
    decreases |ordered|
  {
    var c := Clamped(ordered, running)[k];
    var top := if ordered[0].1 > running then ordered[0].1 else running;
    if k > 0 {
      ClampedIsReached(ordered[1..], top, k - 1);
      if c != top {
        var i :| 0 <= i <= k - 1 && ordered[1..][i].1 == c;
        assert ordered[i + 1].1 == c;
      }
    }
  }

  /** A clamped count is the largest of the counts so far, and of zero. */
  lemma ClampedIsLargest(ordered: seq<Bucket>, k: nat)
    requires k < |ordered|
    ensures var c := Clamped(ordered, 0.0)[k];
      && 0.0 <= c && (forall i :: 0 <= i <= k ==> ordered[i].1 <= c)
      && (c == 0.0 || exists i :: 0 <= i <= k && ordered[i].1 == c)
  {
    ClampedGrows(ordered, 0.0);
    ClampedIsReached(ordered, 0.0, k);
    forall i | 0 <= i <= k ensures ordered[i].1 <= Clamped(ordered, 0.0)[k] {
      assert ordered[i].1 <= Clamped(ordered, 0.0)[i];
    }
  }

  /** An empty bucket is landed in only by `q = 0`, and only when the first bucket is the empty one. */
  lemma EmptyBucketOnlyAtZero(buckets: seq<Bucket>, q: real)
    requires 0.0 <= q <= 1.0 && exists b :: b in buckets && b.1 > 0.0
    ensures buckets != []
    ensures var counts := Clamped(Sort(buckets, BucketLe), 0.0);
      && |counts| == |buckets|
      && var i := Reaching(counts, Rank(q, counts[|counts| - 1]));
         i < |counts| - 1 ==>
           (counts[i] - (if i == 0 then 0.0 else counts[i - 1]) <= 0.0 <==> q == 0.0 && counts[0] == 0.0)
  {
    var ordered := Sort(buckets, BucketLe);
    SortPermutes(buckets, BucketLe);
    TotalPositive(ordered);
    ClampedGrows(ordered, 0.0);
    var counts := Clamped(ordered, 0.0);
    RankBetween(q, q, counts[|counts| - 1]);
    if q == 0.0 {
      assert Rank(q, counts[|counts| - 1]) == 0.0;
      assert Reaching(counts, 0.0) == 0;
    }
  }

  // ----- scaling the counts ------------------------------------------------------------

  function Scaled(b: Bucket, k: real): Bucket {
    (b.0, Rank(k, b.1))
  }

  function ScaledAll(buckets: seq<Bucket>, k: real): seq<Bucket> {
    Map((b: Bucket) => Scaled(b, k), buckets)
  }

  lemma ScaleOrder(a: real, b: real, k: real)
    requires 0.0 < k
    ensures a <= b <==> Rank(k, a) <= Rank(k, b)
    ensures a <= 0.0 <==> Rank(k, a) <= 0.0
  {
    if a < b {
      RealMul.StrictlyMonotone(a, b, k);
    } else if b < a {
      RealMul.StrictlyMonotone(b, a, k);
    }
    if 0.0 < a {
      RealMul.Positive(k, a);
    } else {
      RealMul.NonNegative(k, -a);
      assert k * -a == -(k * a);
    }
  }

  lemma ScaledSort(buckets: seq<Bucket>, k: real)
    requires 0.0 < k
    ensures Sort(ScaledAll(buckets, k), BucketLe) == ScaledAll(Sort(buckets, BucketLe), k)
  {
    var f := (b: Bucket) => Scaled(b, k);
    forall i, j | 0 <= i < |buckets| && 0 <= j < |buckets|
      ensures BucketLe(buckets[i], buckets[j]) == BucketLe(f(buckets[i]), f(buckets[j]))
    {
      ScaleOrder(buckets[i].1, buckets[j].1, k);
    }
    SortMap(f, buckets, BucketLe, BucketLe);
  }

  lemma {:induction false} ScaledClamped(ordered: seq<Bucket>, running: real, k: real)
    requires 0.0 < k
    ensures forall i :: 0 <= i < |ordered| ==>
      Clamped(ScaledAll(ordered, k), Rank(k, running))[i] == Rank(k, Clamped(ordered, running)[i])
    decreases |ordered|
  {
    if ordered != [] {
      var top := if ordered[0].1 > running then ordered[0].1 else running;
      ScaleOrder(ordered[0].1, running, k);
      assert ScaledAll(ordered, k)[1..] == ScaledAll(ordered[1..], k);
      ScaledClamped(ordered[1..], top, k);
    }
  }

  lemma ScaledReaching(counts: seq<real>, scaled: seq<real>, rank: real, k: real)
    requires counts != [] && |scaled| == |counts| && 0.0 < k
    requires forall i :: 0 <= i < |counts| ==> scaled[i] == Rank(k, counts[i])
    ensures Reaching(scaled, Rank(k, rank)) == Reaching(counts, rank)
  {
    var i, j := Reaching(counts, rank), Reaching(scaled, Rank(k, rank));
    ScaleOrder(rank, counts[i], k);
    ScaleOrder(rank, counts[j], k);
  }

  lemma ScaledInBucket(bounds: seq<Bound>, counts: seq<real>, scaled: seq<real>, index: nat, rank: real, k: real)
    requires 2 <= |bounds| == |counts| == |scaled| && index < |counts| && 0.0 < k
    requires forall i :: 0 <= i < |counts| ==> scaled[i] == Rank(k, counts[i])
    ensures InBucket(bounds, scaled, index, Rank(k, rank)) == InBucket(bounds, counts, index, rank)
  {
    var below := if index == 0 then 0.0 else counts[index - 1];
    var population := counts[index] - below;
    assert scaled[index] - (if index == 0 then 0.0 else scaled[index - 1]) == k * population;
    assert Rank(k, rank) - (if index == 0 then 0.0 else scaled[index - 1]) == k * (rank - below);
    ScaleOrder(population, 0.0, k);
    if population > 0.0 {
      RatioScales(rank - below, population, k);
    }
  }

  /** Only the proportions of the counts matter, so a window of twice the length gives the same quantiles. */
  lemma ScaleFree(buckets: seq<Bucket>, q: real, k: real)
    requires 0.0 < k
    ensures Quantile(ScaledAll(buckets, k), q) == Quantile(buckets, q)
  {
    ScaledSort(buckets, k);
    ScaledSorted(Sort(buckets, BucketLe), q, k);
  }

  lemma ScaledSorted(ordered: seq<Bucket>, q: real, k: real)
    requires 0.0 < k
    ensures OfSorted(ScaledAll(ordered, k), q) == OfSorted(ordered, q)
  {
    if 0.0 <= q <= 1.0 && Answerable(ordered) {
      var more := ScaledAll(ordered, k);
      var n, total := Total(ordered), Total(more);
      assert Rank(k, 0.0) == 0.0;
      ScaledClamped(ordered, 0.0, k);
      assert total == Rank(k, n);
      ScaleOrder(n, 0.0, k);
      if n > 0.0 {
        var rank, scaledRank := Rank(q, n), Rank(q, total);
        ScaleRank(q, n, k);
        TakenAtRank(ordered, q, rank);
        TakenAtRank(more, q, scaledRank);
        ScaledAtRank(ordered, Clamped(ordered, 0.0), Clamped(more, 0.0), rank, k);
      }
    }
  }

  lemma ScaleRank(q: real, n: real, k: real)
    ensures Rank(q, Rank(k, n)) == Rank(k, Rank(q, n))
  {
    assert q * (k * n) == k * (q * n);
  }

  lemma ScaledAtRank(ordered: seq<Bucket>, counts: seq<real>, scaled: seq<real>, rank: real, k: real)
    requires 2 <= |ordered| == |counts| == |scaled| && 0.0 < k
    requires forall i :: 0 <= i < |counts| ==> scaled[i] == Rank(k, counts[i])
    ensures AtRank(ScaledAll(ordered, k), scaled, Rank(k, rank)) == AtRank(ordered, counts, rank)
  {
    assert BoundsOf(ScaledAll(ordered, k)) == BoundsOf(ordered);
    ScaledReaching(counts, scaled, rank, k);
    ScaledInBucket(BoundsOf(ordered), counts, scaled, Reaching(counts, rank), rank, k);
  }
}
