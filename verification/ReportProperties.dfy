/** What the summaries and the curve promise, over any records. */
module ReportProperties {
  import opened Seqs
  import opened Sorting
  import opened OrderStatistics
  import opened Requests
  import opened Report
  import RealMul

  // ----- health implies the latency target ------------------------------------------

  /** Every request that met the level counts one first-token time within the target. */
  lemma {:induction false} MetAreWithin(records: seq<RequestRecord>, slo: ServiceLevel)
    ensures |Met(records, slo)| <= AtMost(Ttfts(Filter((r: RequestRecord) => r.ok, records)), slo.ttft)
    ensures |Met(records, slo)| <= |Filter((r: RequestRecord) => r.ok, records)|
    ensures |Ttfts(Filter((r: RequestRecord) => r.ok, records))| <= |records|
  {
    if records != [] {
      MetAreWithin(records[1..], slo);
      var r := records[0];
      var rest := Filter((r: RequestRecord) => r.ok, records[1..]);
      if r.ok {
        assert ([r] + rest)[1..] == rest;
        TtftsCons(r, rest, slo.ttft);
      }
    }
  }

  lemma TtftsCons(r: RequestRecord, rest: seq<RequestRecord>, t: real)
    ensures |Ttfts([r] + rest)| == |Ttfts(rest)| + (if r.TtftFromSchedule().Some? then 1 else 0)
    ensures AtMost(Ttfts([r] + rest), t)
         == AtMost(Ttfts(rest), t) + (if r.TtftFromSchedule().Some? && r.TtftFromSchedule().value <= t then 1 else 0)
  {
    assert ([r] + rest)[1..] == rest;
    if r.TtftFromSchedule().Some? {
      var x := r.TtftFromSchedule().value;
      assert Ttfts([r] + rest) == [x] + Ttfts(rest);
      assert ([x] + Ttfts(rest))[1..] == Ttfts(rest);
    }
  }

  lemma PartAtLeast(k: nat, n: nat, f: real)
    requires n > 0
    ensures Part(k, n) >= f <==> k as real >= f * n as real
  {
    var q := Part(k, n);
    assert q * n as real == k as real;
    if q >= f {
      RealMul.Monotone(f, q, n as real);
    } else {
      RealMul.StrictlyMonotone(q, f, n as real);
    }
  }

  lemma PartMonotone(j: nat, k: nat, n: nat)
    requires n > 0 && j <= k
    ensures Part(j, n) <= Part(k, n)
  {
    PartAtLeast(j, n, Part(j, n));
    PartAtLeast(k, n, Part(j, n));
  }

  /** Enough of the sent requests met the level, so enough of the measured times are within the target. */
  lemma EnoughWithin(met: nat, sent: nat, measured: nat, within: nat)
    requires 0 < sent && Part(met, sent) >= KEEPING_UP
    requires met <= within <= measured <= sent
    ensures measured > 0 && within as real >= Share(95.0, measured)
  {
    PartAtLeast(met, sent, KEEPING_UP);
    RealMul.Monotone(measured as real, sent as real, KEEPING_UP);
    assert Fraction(95.0) == KEEPING_UP;
    RealMul.Positive(KEEPING_UP, sent as real);
  }

  /** A healthy step answered something, and its p50, p90 and p95 on the schedule clock are within the target. */
  lemma HealthyWithinTarget(result: LoadResult, slo: ServiceLevel)
    requires Summarise(result, slo).Healthy()
    ensures var s := Summarise(result, slo);
      && s.sent > 0 && s.ttftP50.Some? && s.ttftP90.Some? && s.ttftP95.Some?
      && s.ttftP50.value <= s.ttftP90.value <= s.ttftP95.value <= slo.ttft
  {
    var ttfts := Ttfts(result.Completed());
    var within := AtMost(ttfts, slo.ttft);
    MetAreWithin(result.records, slo);
    CountAtMost(ttfts, slo.ttft);
    EnoughWithin(|Met(result.records, slo)|, |result.records|, |ttfts|, within);
    PercentileBelow(ttfts, 95.0, slo.ttft);
    PercentileMonotone(ttfts, 50.0, 90.0);
    PercentileMonotone(ttfts, 90.0, 95.0);
  }

  lemma CountAtMost(values: seq<real>, t: real)
    ensures AtMost(values, t) <= |values|
  {
    CountMonotone((v: real) => v <= t, (v: real) => v <= t, values);
  }

  /** Attainment alone decides health: a request that met the level came back. */
  lemma KeepingUpIsImplied(result: LoadResult, slo: ServiceLevel)
    ensures var s := Summarise(result, slo); s.Healthy() <==> s.Attainment() >= KEEPING_UP
  {
    var s := Summarise(result, slo);
    MetAreWithin(result.records, slo);
    if s.sent > 0 {
      PartMonotone(s.metSlo, s.completed, s.sent);
    }
  }

  /** The figures of one summary belong together. */
  lemma SummaryConsistent(result: LoadResult, slo: ServiceLevel)
    requires Window(result) > 0.0
    ensures var s := Summarise(result, slo);
      && s.sent == s.completed + s.failed && s.metSlo <= s.completed
      && s.goodput <= s.completedRate
      && (s.ttftP95.Some? <==> s.ttftP99.Some?) && (s.tpotP50.Some? <==> s.tpotP99.Some?)
      && (s.e2eP50.Some? <==> s.completed > 0) && (s.e2eP99.Some? <==> s.completed > 0)
      && (s.ttftP99.Some? ==> s.ttftP95.value <= s.ttftP99.value)
      && (s.tpotP99.Some? ==> s.tpotP50.value <= s.tpotP99.value)
      && (s.e2eP99.Some? ==> s.e2eP50.value <= s.e2eP99.value)
  {
    var completed := result.Completed();
    Split(result.records);
    MetAreWithin(result.records, slo);
    MetInWindow(result.records, slo, Window(result));
    PerSecondMonotone(|InWindow(Met(result.records, slo), Window(result))|, |InWindow(completed, Window(result))|, Window(result));
    SomeOrdered(Ttfts(completed), 95.0, 99.0);
    SomeOrdered(Tpots(completed), 50.0, 99.0);
    SomeOrdered(E2es(completed), 50.0, 99.0);
  }

  lemma SomeOrdered(values: seq<real>, low: real, high: real)
    requires 0.0 < low <= high <= 100.0
    ensures Percentile(values, low).Some? <==> values != []
    ensures Percentile(values, high).Some? <==> values != []
    ensures values != [] ==> Percentile(values, low).value <= Percentile(values, high).value
  {
    if values != [] {
      PercentileMonotone(values, low, high);
    }
  }

  lemma {:induction false} Split(records: seq<RequestRecord>)
    ensures |records| == |Filter((r: RequestRecord) => r.ok, records)| + |Filter((r: RequestRecord) => !r.ok, records)|
  {
    if records != [] {
      Split(records[1..]);
    }
  }

  lemma {:induction false} MetInWindow(records: seq<RequestRecord>, slo: ServiceLevel, window: real)
    ensures |InWindow(Met(records, slo), window)| <= |InWindow(Filter((r: RequestRecord) => r.ok, records), window)|
  {
    if records != [] {
      MetInWindow(records[1..], slo, window);
      var r, met, ok := records[0], Met(records[1..], slo), Filter((r: RequestRecord) => r.ok, records[1..]);
      InWindowCons(r, met, window);
      InWindowCons(r, ok, window);
    }
  }

  lemma InWindowCons(r: RequestRecord, rest: seq<RequestRecord>, window: real)
    ensures |InWindow([r] + rest, window)| == |InWindow(rest, window)| + (if r.finishedAt <= window then 1 else 0)
  {
    assert ([r] + rest)[1..] == rest;
  }

  lemma PerSecondMonotone(a: int, b: int, window: real)
    requires a <= b && window > 0.0
    ensures PerSecond(a, window) <= PerSecond(b, window)
  {
    var x, y := PerSecond(a, window), PerSecond(b, window);
    assert x * window == a as real && y * window == b as real;
    if y < x {
      RealMul.StrictlyMonotone(y, x, window);
    }
  }

  // ----- what the figures mean, request by request --------------------------------------

  lemma {:induction false} FilterTwice(p: RequestRecord -> bool, q: RequestRecord -> bool, both: RequestRecord -> bool, s: seq<RequestRecord>)
    requires forall r :: both(r) == (p(r) && q(r))
    ensures |Filter(q, Filter(p, s))| == Count(both, s)
  {
    if s != [] {
      FilterTwice(p, q, both, s[1..]);
      if p(s[0]) {
        assert ([s[0]] + Filter(p, s[1..]))[1..] == Filter(p, s[1..]);
      }
    }
  }

  function GoodInWindow(slo: ServiceLevel, window: real): RequestRecord -> bool {
    (r: RequestRecord) => slo.MetBy(r) && r.finishedAt <= window
  }

  function BackInWindow(window: real): RequestRecord -> bool {
    (r: RequestRecord) => r.ok && r.finishedAt <= window
  }

  lemma GoodCount(records: seq<RequestRecord>, slo: ServiceLevel, window: real)
    ensures |InWindow(Met(records, slo), window)| == Count(GoodInWindow(slo, window), records)
  {
    FilterTwice((r: RequestRecord) => slo.MetBy(r), (r: RequestRecord) => r.finishedAt <= window, GoodInWindow(slo, window), records);
  }

  lemma BackCount(records: seq<RequestRecord>, window: real)
    ensures |InWindow(Filter((r: RequestRecord) => r.ok, records), window)| == Count(BackInWindow(window), records)
  {
    FilterTwice((r: RequestRecord) => r.ok, (r: RequestRecord) => r.finishedAt <= window, BackInWindow(window), records);
  }

  /** The rates are the requests that came back in the window, and those of them that met the level, per second of it. */
  lemma RatesCountRequests(result: LoadResult, slo: ServiceLevel)
    ensures var s, window := Summarise(result, slo), Window(result);
      && s.goodput == PerSecond(Count(GoodInWindow(slo, window), result.records), window)
      && s.completedRate == PerSecond(Count(BackInWindow(window), result.records), window)
      && s.metSlo == Count((r: RequestRecord) => slo.MetBy(r), result.records)
  {
    GoodCount(result.records, slo, Window(result));
    BackCount(result.records, Window(result));
    FilterElements((r: RequestRecord) => slo.MetBy(r), result.records);
  }

  /** Answered with a first token, within `t` of when the request was due. */
  function FirstTokenWithin(t: real): RequestRecord -> bool {
    (r: RequestRecord) => r.ok && r.TtftFromSchedule().Some? && r.TtftFromSchedule().value <= t
  }

  function FirstToken(r: RequestRecord): bool {
    r.ok && r.ttft.Some?
  }

  lemma {:induction false} TtftsCount(records: seq<RequestRecord>, t: real)
    ensures var ttfts := Ttfts(Filter((r: RequestRecord) => r.ok, records));
      |ttfts| == Count(FirstToken, records) && AtMost(ttfts, t) == Count(FirstTokenWithin(t), records)
  {
    if records != [] {
      TtftsCount(records[1..], t);
      if records[0].ok {
        TtftsCons(records[0], Filter((r: RequestRecord) => r.ok, records[1..]), t);
      }
    }
  }

  /** The tail is at most `t` exactly when that share of the answered requests had a first token within `t`. */
  lemma TailMeans(result: LoadResult, slo: ServiceLevel, t: real)
    requires Count(FirstToken, result.records) > 0
    ensures var s, n, within := Summarise(result, slo), Count(FirstToken, result.records), Count(FirstTokenWithin(t), result.records);
      && s.ttftP50.Some? && (s.ttftP50.value <= t <==> within as real >= Share(50.0, n))
      && s.ttftP90.Some? && (s.ttftP90.value <= t <==> within as real >= Share(90.0, n))
      && s.ttftP95.Some? && (s.ttftP95.value <= t <==> within as real >= Share(95.0, n))
      && s.ttftP99.Some? && (s.ttftP99.value <= t <==> within as real >= Share(99.0, n))
  {
    var ttfts := Ttfts(result.Completed());
    TtftsCount(result.records, t);
    PercentileBelow(ttfts, 50.0, t);
    PercentileBelow(ttfts, 90.0, t);
    PercentileBelow(ttfts, 95.0, t);
    PercentileBelow(ttfts, 99.0, t);
  }

  lemma {:induction false} SendClockEarlier(records: seq<RequestRecord>, t: real)
    ensures |Ttfts(records)| == |TtftsSend(records)| && AtMost(Ttfts(records), t) <= AtMost(TtftsSend(records), t)
  {
    if records != [] {
      SendClockEarlier(records[1..], t);
      var r, rest := records[0], records[1..];
      assert [r] + rest == records;
      TtftsCons(r, rest, t);
      if r.ttft.Some? {
        assert TtftsSend(records) == [r.ttft.value] + TtftsSend(rest);
        assert ([r.ttft.value] + TtftsSend(rest))[1..] == TtftsSend(rest);
      }
    }
  }

  /** Measured from the send, the tail never looks worse than what users waited: lateness of the generator hides in the gap. */
  lemma SendClockHidesLag(result: LoadResult, slo: ServiceLevel)
    ensures var s := Summarise(result, slo);
      && s.ttftP99SendClock.Some? == s.ttftP99.Some?
      && (s.ttftP99.Some? ==> s.ttftP99SendClock.value <= s.ttftP99.value)
  {
    var completed := result.Completed();
    SendClockEarlier(completed, 0.0);
    if Ttfts(completed) != [] {
      PercentileBelow(Ttfts(completed), 99.0, 0.0);
      var t := Percentile(Ttfts(completed), 99.0).value;
      SendClockEarlier(completed, t);
      PercentileBelow(Ttfts(completed), 99.0, t);
      PercentileBelow(TtftsSend(completed), 99.0, t);
    }
  }

  // ----- the curve ----------------------------------------------------------------------

  lemma RateOrder()
    ensures TotalPreorder(RateLe)
  {}

  lemma {:induction false} SustainedIsLastHealthy(ordered: seq<StepSummary>, best: Option<real>) returns (k: nat)
    ensures k <= |ordered| && (forall i :: 0 <= i < k ==> ordered[i].Healthy()) && (k < |ordered| ==> !ordered[k].Healthy())
    ensures Sustained(ordered, best) == if k == 0 then best else Some(ordered[k - 1].offeredRate)
  {
    k := 0;
    if ordered != [] && ordered[0].Healthy() {
      k := SustainedIsLastHealthy(ordered[1..], Some(ordered[0].offeredRate));
      k := k + 1;
    }
  }

  /**
   * A capacity: the rate of a healthy step below which every step is healthy, and every healthy
   * step beyond it lies at or past an unhealthy one. No capacity: every healthy step does.
   */
  ghost predicate IsCapacity(steps: seq<StepSummary>, best: Option<real>) {
    && (best.Some? ==>
          && (exists s :: s in steps && s.Healthy() && s.offeredRate == best.value)
          && (forall s :: s in steps && s.offeredRate < best.value ==> s.Healthy()))
    && (forall s :: s in steps && s.Healthy() && (best.Some? ==> s.offeredRate > best.value) ==> MissedBefore(steps, s, best))
  }

  /** Some unhealthy step comes no later than `s`, and not below the capacity. */
  ghost predicate MissedBefore(steps: seq<StepSummary>, s: StepSummary, best: Option<real>) {
    exists u :: u in steps && !u.Healthy() && u.offeredRate <= s.offeredRate && (best.Some? ==> best.value <= u.offeredRate)
  }

  lemma OrderedCapacity(ordered: seq<StepSummary>)
    requires Sorted(ordered, RateLe)
    ensures IsCapacity(ordered, Sustained(ordered, None))
  {
    var k := SustainedIsLastHealthy(ordered, None);
    var best := Sustained(ordered, None);
    if k > 0 {
      assert ordered[k - 1] in ordered;
      forall s | s in ordered && s.offeredRate < best.value ensures s.Healthy() {
        var i :| 0 <= i < |ordered| && ordered[i] == s;
        assert i >= k ==> RateLe(ordered[k - 1], ordered[i]);
      }
    }
    forall s | s in ordered && s.Healthy() && (best.Some? ==> s.offeredRate > best.value) ensures MissedBefore(ordered, s, best) {
      var i :| 0 <= i < |ordered| && ordered[i] == s;
      assert k > 0 && i < k - 1 ==> RateLe(ordered[i], ordered[k - 1]);
      assert i > k;
      assert ordered[k] in ordered;
      assert RateLe(ordered[k], ordered[i]);
      assert k > 0 ==> RateLe(ordered[k - 1], ordered[k]);
    }
  }

  lemma CapacityOfSameSteps(a: seq<StepSummary>, b: seq<StepSummary>, best: Option<real>)
    requires multiset(a) == multiset(b) && IsCapacity(a, best)
    ensures IsCapacity(b, best)
  {
    SameMultiset(a, b);
    forall s | s in b && s.Healthy() && (best.Some? ==> s.offeredRate > best.value) ensures MissedBefore(b, s, best) {
      assert s in a;
      assert MissedBefore(a, s, best);
    }
  }

  /** The sustainable rate is the capacity of the steps, in whatever order they were run. */
  lemma MaxSustainableMeans(steps: seq<StepSummary>)
    ensures IsCapacity(steps, MaxSustainable(steps))
  {
    RateOrder();
    SortSorts(steps, RateLe);
    SortPermutes(steps, RateLe);
    OrderedCapacity(Ordered(steps));
    CapacityOfSameSteps(Ordered(steps), steps, MaxSustainable(steps));
  }

  // ----- ties and healthy rates above the sustainable one ------------------------------------------

  /** `None` below every rate. */
  predicate RateAtMost(a: Option<real>, b: Option<real>) {
    a.None? || (b.Some? && a.value <= b.value)
  }

  lemma {:induction false} FirstOf(p: StepSummary -> bool, s: seq<StepSummary>, i: nat)
    requires i < |s| && p(s[i]) && forall k :: 0 <= k < i ==> !p(s[k])
    ensures Filter(p, s) != [] && Filter(p, s)[0] == s[i]
  {
    if i > 0 {
      FirstOf(p, s[1..], i - 1);
    }
  }

  lemma {:induction false} FirstIndex(p: StepSummary -> bool, s: seq<StepSummary>) returns (i: nat)
    requires exists x :: x in s && p(x)
    ensures i < |s| && p(s[i]) && forall k :: 0 <= k < i ==> !p(s[k])
  {
    i := 0;
    if !p(s[0]) {
      assert s == [s[0]] + s[1..];
      i := FirstIndex(p, s[1..]);
      i := i + 1;
    }
  }

  function AtRate(r: real): StepSummary -> bool {
    (s: StepSummary) => s.offeredRate == r
  }

  /** No earlier step offered the same rate. */
  predicate FirstAtRate(steps: seq<StepSummary>, i: nat)
    requires i < |steps|
  {
    forall k :: 0 <= k < i ==> steps[k].offeredRate != steps[i].offeredRate
  }

  /** Ordering the steps keeps the first one at each rate the first. */
  lemma FirstStaysFirst(steps: seq<StepSummary>, i: nat, k: nat)
    requires i < |steps| && k < |steps| == |Ordered(steps)|
    requires steps[i].offeredRate == Ordered(steps)[k].offeredRate
    requires FirstAtRate(steps, i) && FirstAtRate(Ordered(steps), k)
    ensures steps[i] == Ordered(steps)[k]
  {
    var p := AtRate(steps[i].offeredRate);
    RateOrder();
    SortStable(steps, RateLe, p);
    FirstOf(p, steps, i);
    FirstOf(p, Ordered(steps), k);
  }

  ghost predicate HealthyAbove(steps: seq<StepSummary>, best: Option<real>) {
    exists s :: s in steps && s.Healthy() && (best.Some? ==> s.offeredRate > best.value)
  }

  /** A healthy step after an unhealthy one: at a higher rate, or at the same rate if that was missed first. */
  ghost predicate Recovers(steps: seq<StepSummary>) {
    exists i, j :: 0 <= i < |steps| && 0 <= j < |steps| && RecoversAt(steps, i, j)
  }

  predicate RecoversAt(steps: seq<StepSummary>, i: nat, j: nat)
    requires i < |steps| && j < |steps|
  {
    && !steps[i].Healthy() && steps[j].Healthy()
    && (steps[i].offeredRate < steps[j].offeredRate || (steps[i].offeredRate == steps[j].offeredRate && FirstAtRate(steps, i)))
  }

  /** In order: a healthy step above the sustained rate comes after an unhealthy one, which is the first at its rate or below it. */
  lemma AboveInOrder(ordered: seq<StepSummary>, s: StepSummary) returns (k: nat)
    requires Sorted(ordered, RateLe) && s in ordered && s.Healthy()
    requires Sustained(ordered, None).Some? ==> s.offeredRate > Sustained(ordered, None).value
    ensures k < |ordered| && !ordered[k].Healthy() && ordered[k].offeredRate <= s.offeredRate
    ensures ordered[k].offeredRate < s.offeredRate || FirstAtRate(ordered, k)
  {
    k := SustainedIsLastHealthy(ordered, None);
    var q :| 0 <= q < |ordered| && ordered[q] == s;
    assert q + 1 < k ==> RateLe(ordered[q], ordered[k - 1]);
    assert q > k;
    assert RateLe(ordered[k], ordered[q]);
    if ordered[k].offeredRate == s.offeredRate {
      FirstInOrder(ordered, k);
    }
  }

  lemma AboveRecovers(steps: seq<StepSummary>)
    requires HealthyAbove(steps, MaxSustainable(steps))
    ensures Recovers(steps)
  {
    var ordered := Ordered(steps);
    RateOrder();
    SortSorts(steps, RateLe);
    SortPermutes(steps, RateLe);
    var s :| s in steps && s.Healthy() && (MaxSustainable(steps).Some? ==> s.offeredRate > MaxSustainable(steps).value);
    var j :| 0 <= j < |steps| && steps[j] == s;
    var k := AboveInOrder(ordered, s);
    var u := ordered[k];
    assert u in ordered;
    if u.offeredRate < s.offeredRate {
      var i :| 0 <= i < |steps| && steps[i] == u;
      assert RecoversAt(steps, i, j);
    } else {
      var i := FirstIndex(AtRate(u.offeredRate), steps);
      FirstStaysFirst(steps, i, k);
      assert RecoversAt(steps, i, j);
    }
  }

  lemma FirstInOrder(ordered: seq<StepSummary>, k: nat)
    requires Sorted(ordered, RateLe) && k < |ordered| && (k > 0 ==> ordered[k - 1].offeredRate < ordered[k].offeredRate)
    ensures FirstAtRate(ordered, k)
  {
    forall x | 0 <= x < k ensures ordered[x].offeredRate != ordered[k].offeredRate {
      assert x < k - 1 ==> RateLe(ordered[x], ordered[k - 1]);
    }
  }

  lemma RecoversAbove(steps: seq<StepSummary>)
    requires Recovers(steps)
    ensures HealthyAbove(steps, MaxSustainable(steps))
  {
    var i, j :| 0 <= i < |steps| && 0 <= j < |steps| && RecoversAt(steps, i, j);
    var ordered, u, s := Ordered(steps), steps[i], steps[j];
    RateOrder();
    SortSorts(steps, RateLe);
    SortPermutes(steps, RateLe);
    SameMultiset(ordered, steps);
    var k := SustainedIsLastHealthy(ordered, None);
    assert u in ordered && s in steps;
    var x :| 0 <= x < |ordered| && ordered[x] == u;
    assert x >= k;
    assert k > 0 ==> RateLe(ordered[k - 1], ordered[x]);
    if k > 0 && ordered[k - 1].offeredRate == s.offeredRate {
      var y := FirstIndex(AtRate(u.offeredRate), ordered);
      FirstStaysFirst(steps, i, y);
    }
  }

  /**
   * Some healthy step lies above the sustainable rate exactly when, somewhere along the curve, a
   * healthy step comes after an unhealthy one.
   */
  lemma HealthyAboveExactly(steps: seq<StepSummary>)
    ensures HealthyAbove(steps, MaxSustainable(steps)) <==> Recovers(steps)
  {
    if HealthyAbove(steps, MaxSustainable(steps)) {
      AboveRecovers(steps);
    }
    if Recovers(steps) {
      RecoversAbove(steps);
    }
  }

  /** The first step at its rate, healthy, with only healthy steps at lower rates. */
  ghost predicate Clear(steps: seq<StepSummary>, i: nat)
    requires i < |steps|
  {
    && steps[i].Healthy() && FirstAtRate(steps, i)
    && forall s :: s in steps && s.offeredRate < steps[i].offeredRate ==> s.Healthy()
  }

  ghost predicate Reached(steps: seq<StepSummary>, rate: real) {
    exists i :: 0 <= i < |steps| && Clear(steps, i) && steps[i].offeredRate >= rate
  }

  lemma ClearIsReached(steps: seq<StepSummary>, i: nat)
    requires i < |steps| && Clear(steps, i)
    ensures RateAtMost(Some(steps[i].offeredRate), MaxSustainable(steps))
  {
    var ordered, rate := Ordered(steps), steps[i].offeredRate;
    RateOrder();
    SortSorts(steps, RateLe);
    SortPermutes(steps, RateLe);
    assert steps[i] in steps && steps[i] in ordered;
    var y := FirstIndex(AtRate(rate), ordered);
    FirstStaysFirst(steps, i, y);
    forall x | 0 <= x < y ensures ordered[x].Healthy() {
      assert RateLe(ordered[x], ordered[y]);
      assert ordered[x] in ordered;
    }
    HealthyUpTo(ordered, y);
  }

  lemma HealthyUpTo(ordered: seq<StepSummary>, y: nat)
    requires Sorted(ordered, RateLe) && y < |ordered| && forall x :: 0 <= x <= y ==> ordered[x].Healthy()
    ensures RateAtMost(Some(ordered[y].offeredRate), Sustained(ordered, None))
  {
    var k := SustainedIsLastHealthy(ordered, None);
    assert y + 1 < k ==> RateLe(ordered[y], ordered[k - 1]);
  }

  lemma CapacityIsClear(steps: seq<StepSummary>) returns (i: nat)
    requires MaxSustainable(steps).Some?
    ensures i < |steps| && Clear(steps, i) && steps[i].offeredRate == MaxSustainable(steps).value
  {
    var ordered, rate := Ordered(steps), MaxSustainable(steps).value;
    RateOrder();
    SortSorts(steps, RateLe);
    SortPermutes(steps, RateLe);
    var k := SustainedIsLastHealthy(ordered, None);
    assert ordered[k - 1] in ordered;
    var y := FirstIndex(AtRate(rate), ordered);
    i := FirstIndex(AtRate(rate), steps);
    FirstStaysFirst(steps, i, y);
    forall s | s in steps && s.offeredRate < rate ensures s.Healthy() {
      assert s in ordered;
      var x :| 0 <= x < |ordered| && ordered[x] == s;
      assert x >= k ==> RateLe(ordered[k - 1], ordered[x]);
    }
  }

  /** The sustainable rate is the highest at which the first step is healthy and nothing was missed below, ties included. */
  lemma SustainableExactly(steps: seq<StepSummary>, rate: real)
    ensures RateAtMost(Some(rate), MaxSustainable(steps)) <==> Reached(steps, rate)
  {
    if RateAtMost(Some(rate), MaxSustainable(steps)) {
      var i := CapacityIsClear(steps);
    }
    if Reached(steps, rate) {
      var i :| 0 <= i < |steps| && Clear(steps, i) && steps[i].offeredRate >= rate;
      ClearIsReached(steps, i);
    }
  }

  /** Of steps at a rate below which nothing was missed, the one that came first decides whether it is sustained. */
  lemma FirstDecides(steps: seq<StepSummary>)
    requires steps != [] && forall s :: s in steps && s.offeredRate < steps[0].offeredRate ==> s.Healthy()
    ensures RateAtMost(Some(steps[0].offeredRate), MaxSustainable(steps)) <==> steps[0].Healthy()
  {
    SustainableExactly(steps, steps[0].offeredRate);
    if steps[0].Healthy() {
      assert Clear(steps, 0);
    } else {
      assert steps[0] in steps;
    }
  }

  /** A step at a rate, with one request that did or did not meet the level. */
  function Probe(rate: real, healthy: bool): (s: StepSummary)
    ensures s.offeredRate == rate && s.Healthy() == healthy
  {
    var met := if healthy then 1 else 0;
    assert Part(1, 1) == 1.0 && Part(0, 1) == 0.0;
    StepSummary(rate, rate, 1.0, 1, 1, 0, met, 1.0, 1.0, 1.0, 1.0, None, None, None, None, None, None, None, None, 0.0, None, None)
  }

  /** Of steps with the highest goodput, the one listed first. */
  lemma {:induction false} PeakIsFirst(steps: seq<StepSummary>, k: nat)
    requires k < |steps|
    requires forall i :: 0 <= i < |steps| ==> steps[i].goodput <= steps[k].goodput
    requires forall i :: 0 <= i < k ==> steps[i].goodput < steps[k].goodput
    ensures PeakGoodput(steps) == Some(steps[k])
  {
    if k > 0 {
      PeakIsFirst(steps[1..], k - 1);
    } else if |steps| > 1 {
      PeakGoodputMeans(steps[1..]);
    }
  }

  /** The step of highest goodput, wherever it falls. */
  lemma {:induction false} PeakGoodputMeans(steps: seq<StepSummary>)
    ensures PeakGoodput(steps).None? <==> steps == []
    ensures PeakGoodput(steps).Some? ==>
      PeakGoodput(steps).value in steps && forall s :: s in steps ==> s.goodput <= PeakGoodput(steps).value.goodput
  {
    if steps != [] {
      PeakGoodputMeans(steps[1..]);
      assert steps == [steps[0]] + steps[1..];
    }
  }

  /** No more records than scheduled requests, and a schedule that takes time if it has any. */
  predicate Spans(result: LoadResult) {
    && |result.records| <= |result.schedule.offsets|
    && (result.schedule.offsets != [] ==> result.schedule.Duration() > 0.0)
  }

  lemma ValidSpans(result: LoadResult)
    requires result.schedule.Valid() && |result.records| <= |result.schedule.offsets|
    ensures Spans(result)
  {}

  lemma QuotientPositive(n: real, d: real)
    requires n > 0.0 && d > 0.0
    ensures n / d > 0.0
  {
    var q := n / d;
    assert q * d == n;
    if q <= 0.0 {
      RealMul.Monotone(q, 0.0, d);
    }
  }

  lemma ScheduleOffers(schedule: ArrivalSchedule)
    requires schedule.offsets != [] && schedule.Duration() > 0.0
    ensures schedule.AchievedRate() > 0.0
  {
    QuotientPositive(|schedule.offsets| as real, schedule.Duration());
  }

  /** No summary has a negative rate. */
  lemma OfferedNotNegative(result: LoadResult, slo: ServiceLevel)
    ensures Summarise(result, slo).offeredRate >= 0.0
  {
    if result.schedule.Duration() > 0.0 {
      ScheduleOffers(result.schedule);
    }
  }

  lemma HealthySent(result: LoadResult, slo: ServiceLevel)
    requires Summarise(result, slo).Healthy()
    ensures result.records != []
  {}

  /** A healthy step of a run was offered something. */
  lemma HealthyWasOffered(result: LoadResult, slo: ServiceLevel)
    requires Spans(result) && Summarise(result, slo).Healthy()
    ensures Summarise(result, slo).offeredRate > 0.0
  {
    HealthySent(result, slo);
    ScheduleOffers(result.schedule);
  }

  // ----- loosening the service level -------------------------------------------------------

  predicate Looser(tight: ServiceLevel, loose: ServiceLevel) {
    tight.ttft <= loose.ttft && tight.tpot <= loose.tpot
  }

  lemma {:induction false} MetGrows(records: seq<RequestRecord>, tight: ServiceLevel, loose: ServiceLevel, window: real)
    requires Looser(tight, loose)
    ensures |Met(records, tight)| <= |Met(records, loose)|
    ensures |InWindow(Met(records, tight), window)| <= |InWindow(Met(records, loose), window)|
  {
    if records != [] {
      MetGrows(records[1..], tight, loose, window);
      InWindowCons(records[0], Met(records[1..], tight), window);
      InWindowCons(records[0], Met(records[1..], loose), window);
    }
  }

  /** The window that rates are taken over is a positive time. */
  predicate Measured(result: LoadResult) {
    Window(result) > 0.0
  }

  lemma RunsAreMeasured(result: LoadResult)
    requires result.schedule.Valid() && result.wallClock >= 0.0
    ensures Measured(result)
  {}

  /** What a summary gains, and keeps, when it is judged by a looser level. */
  ghost predicate Improves(a: StepSummary, b: StepSummary) {
    && a.offeredRate == b.offeredRate && a.sent == b.sent && a.completed == b.completed
    && a.metSlo <= b.metSlo && a.goodput <= b.goodput && (a.Healthy() ==> b.Healthy())
  }

  lemma LooserStep(result: LoadResult, tight: ServiceLevel, loose: ServiceLevel)
    requires Looser(tight, loose) && Measured(result)
    ensures Improves(Summarise(result, tight), Summarise(result, loose))
  {
    var window := Window(result);
    MetGrows(result.records, tight, loose, window);
    PerSecondMonotone(|InWindow(Met(result.records, tight), window)|, |InWindow(Met(result.records, loose), window)|, window);
    if |result.records| > 0 {
      PartMonotone(|Met(result.records, tight)|, |Met(result.records, loose)|, |result.records|);
    }
  }

  function Summaries(results: seq<LoadResult>, slo: ServiceLevel): seq<StepSummary> {
    Map((r: LoadResult) => Summarise(r, slo), results)
  }

  predicate AchievedLe(a: LoadResult, b: LoadResult) {
    a.schedule.AchievedRate() <= b.schedule.AchievedRate()
  }

  /** The order of the curve does not depend on the service level. */
  lemma OrderedSummaries(results: seq<LoadResult>, slo: ServiceLevel)
    ensures Ordered(Summaries(results, slo)) == Summaries(Sort(results, AchievedLe), slo)
  {
    SortMap((r: LoadResult) => Summarise(r, slo), results, AchievedLe, RateLe);
  }

  lemma {:induction false} SustainedGrows(a: seq<StepSummary>, b: seq<StepSummary>, bestA: Option<real>, bestB: Option<real>)
    requires |a| == |b| && Sorted(a, RateLe) && RateAtMost(bestA, bestB)
    requires forall i :: 0 <= i < |a| ==> Improves(a[i], b[i])
    requires forall i :: 0 <= i < |a| && bestB.Some? ==> bestB.value <= a[i].offeredRate
    ensures RateAtMost(Sustained(a, bestA), Sustained(b, bestB))
    decreases |a|
  {
    if a != [] && a[0].Healthy() {
      SustainedGrows(a[1..], b[1..], Some(a[0].offeredRate), Some(b[0].offeredRate));
    } else if a != [] && b[0].Healthy() {
      SustainedKeeps(b[1..], Some(b[0].offeredRate));
    }
  }

  /** Going on never falls below the best so far. */
  lemma {:induction false} SustainedKeeps(b: seq<StepSummary>, best: Option<real>)
    requires best.Some? && Sorted(b, RateLe) && forall i :: 0 <= i < |b| ==> best.value <= b[i].offeredRate
    ensures RateAtMost(best, Sustained(b, best))
    decreases |b|
  {
    if b != [] && b[0].Healthy() {
      SustainedKeeps(b[1..], Some(b[0].offeredRate));
    }
  }

  /** Judged by a looser level, the same run never looks worse: per step, at its peak, or in capacity. */
  lemma LooserNeverWorse(results: seq<LoadResult>, tight: ServiceLevel, loose: ServiceLevel)
    requires Looser(tight, loose) && forall i :: 0 <= i < |results| ==> Measured(results[i])
    ensures var a, b := Summaries(results, tight), Summaries(results, loose);
      && (forall i :: 0 <= i < |results| ==> Improves(a[i], b[i]))
      && RateAtMost(MaxSustainable(a), MaxSustainable(b))
      && (results != [] ==> PeakGoodput(a).Some? && PeakGoodput(b).Some?
                            && PeakGoodput(a).value.goodput <= PeakGoodput(b).value.goodput)
  {
    var a, b := Summaries(results, tight), Summaries(results, loose);
    forall i | 0 <= i < |results| ensures Improves(a[i], b[i]) {
      LooserStep(results[i], tight, loose);
    }
    LooserSustains(results, tight, loose);
    PeakGoodputMeans(a);
    PeakGoodputMeans(b);
    if results != [] {
      var i :| 0 <= i < |a| && a[i] == PeakGoodput(a).value;
      assert b[i] in b;
    }
  }

  lemma LooserSustains(results: seq<LoadResult>, tight: ServiceLevel, loose: ServiceLevel)
    requires Looser(tight, loose) && forall i :: 0 <= i < |results| ==> Measured(results[i])
    ensures RateAtMost(MaxSustainable(Summaries(results, tight)), MaxSustainable(Summaries(results, loose)))
  {
    var sorted := Sort(results, AchievedLe);
    SortSorts(results, AchievedLe);
    SortPermutes(results, AchievedLe);
    SameMultiset(sorted, results);
    OrderedSummaries(results, tight);
    OrderedSummaries(results, loose);
    var a, b := Summaries(sorted, tight), Summaries(sorted, loose);
    forall i | 0 <= i < |a| ensures Improves(a[i], b[i]) {
      assert sorted[i] in sorted;
      LooserStep(sorted[i], tight, loose);
    }
    forall i, j | 0 <= i < j < |a| ensures RateLe(a[i], a[j]) && RateLe(b[i], b[j]) {
      assert AchievedLe(sorted[i], sorted[j]);
    }
    SustainedGrows(a, b, None, None);
  }
}
