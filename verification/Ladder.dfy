/**
 * The rate ladder of a sweep (bench/sweep.py, `run_sweep`): rates in ascending order, stopped
 * early after a number of consecutive unhealthy steps.
 */
module Ladder {
  import opened Seqs
  import opened Sorting
  import opened OrderStatistics
  import opened Report
  import opened ReportProperties
  import opened ReplayProperties
  import opened RunExamples

  /** Unhealthy steps at the end. */
  function Trailing(steps: seq<StepSummary>): (n: nat)
    ensures n <= |steps| && forall i :: |steps| - n <= i < |steps| ==> !steps[i].Healthy()
  {
    if steps == [] || steps[|steps| - 1].Healthy() then 0 else 1 + Trailing(steps[..|steps| - 1])
  }

  /** The ladder stops after `n` steps: the first time that the limit is reached, or at the end. */
  ghost predicate StopsAt(outcomes: seq<StepSummary>, limit: Option<nat>, n: nat) {
    && n <= |outcomes|
    && (n < |outcomes| ==> limit.Some? && n > 0 && Trailing(outcomes[..n]) >= limit.value)
    && (limit.Some? ==> forall m :: 0 < m < n ==> Trailing(outcomes[..m]) < limit.value)
  }

  /** The limit was not reached in the first `n` steps. */
  ghost predicate Under(outcomes: seq<StepSummary>, limit: Option<nat>, n: nat)
    requires n <= |outcomes|
  {
    limit.Some? ==> forall m :: 0 < m <= n ==> Trailing(outcomes[..m]) < limit.value
  }

  lemma UnderNext(outcomes: seq<StepSummary>, limit: Option<nat>, n: nat)
    requires n < |outcomes| && Under(outcomes, limit, n)
    ensures limit.Some? && Trailing(outcomes[..n + 1]) >= limit.value ==> StopsAt(outcomes, limit, n + 1)
    ensures limit.None? || Trailing(outcomes[..n + 1]) < limit.value ==> Under(outcomes, limit, n + 1)
  {}

  /**
   * Run the ladder. `outcomes[i]` is what the step at the i-th lowest rate measures when it is run;
   * the limit, when there is one, is at least 1 (SweepConfig refuses others).
   */
  method RunLadder(rates: seq<real>, outcomes: seq<StepSummary>, limit: Option<nat>)
    returns (steps: seq<StepSummary>, skipped: seq<real>)
    requires |outcomes| == |rates|
    requires limit.Some? ==> limit.value >= 1
    ensures StopsAt(outcomes, limit, |steps|) && steps == outcomes[..|steps|]
    ensures |steps| <= |Sort(rates, RealLe)| && Sort(rates, RealLe)[..|steps|] + skipped == Sort(rates, RealLe)
  {
    var ordered := Sort(rates, RealLe);
    SortPermutes(rates, RealLe);
    steps, skipped := [], [];
    var consecutive := 0;
    for index := 0 to |ordered|
      invariant steps == outcomes[..index] && skipped == []
      invariant consecutive == Trailing(outcomes[..index])
      invariant Under(outcomes, limit, index)
    {
      var summary := outcomes[index];
      steps := steps + [summary];
      TrailingNext(outcomes, index);
      UnderNext(outcomes, limit, index);
      consecutive := if summary.Healthy() then 0 else consecutive + 1;
      if limit.Some? && consecutive >= limit.value {
        skipped := ordered[index + 1..];
        return;
      }
    }
    assert outcomes[..|outcomes|] == outcomes;
  }

  lemma TrailingNext(outcomes: seq<StepSummary>, index: nat)
    requires index < |outcomes|
    ensures outcomes[..index + 1] == outcomes[..index] + [outcomes[index]]
    ensures Trailing(outcomes[..index + 1]) == if outcomes[index].Healthy() then 0 else Trailing(outcomes[..index]) + 1
  {
    var next := outcomes[..index + 1];
    assert next[|next| - 1] == outcomes[index];
    assert next[..|next| - 1] == outcomes[..index];
  }

  /** `k` steps from `f` on, all of them unhealthy. */
  ghost predicate Losing(outcomes: seq<StepSummary>, f: nat, k: nat) {
    f + k <= |outcomes| && forall i :: f <= i < f + k ==> !outcomes[i].Healthy()
  }

  lemma {:induction false} TrailingExactly(steps: seq<StepSummary>, k: nat)
    ensures Trailing(steps) >= k <==> k <= |steps| && Losing(steps, |steps| - k, k)
    decreases |steps|
  {
    if k > 0 && steps != [] {
      var last := |steps| - 1;
      TrailingExactly(steps[..last], k - 1);
      if k <= |steps| && Losing(steps, |steps| - k, k) {
        assert !steps[last].Healthy();
        assert forall i :: last - (k - 1) <= i < last ==> steps[..last][i] == steps[i];
      }
    }
  }

  /** It stops behind the first `k` steps in a row that are unhealthy, or at the end if there are none. */
  lemma StopsExactly(outcomes: seq<StepSummary>, k: nat, n: nat)
    requires k >= 1
    ensures StopsAt(outcomes, Some(k), n) <==>
      && n <= |outcomes| && (n < |outcomes| ==> n >= k && Losing(outcomes, n - k, k))
      && forall f: nat :: f + k < n ==> !Losing(outcomes, f, k)
  {
    forall m: nat | m <= |outcomes| ensures Trailing(outcomes[..m]) >= k <==> k <= m && Losing(outcomes, m - k, k) {
      TrailingExactly(outcomes[..m], k);
      if k <= m {
        assert Losing(outcomes[..m], m - k, k) <==> Losing(outcomes, m - k, k) by {
          assert forall i :: m - k <= i < m ==> outcomes[..m][i] == outcomes[i];
        }
      }
    }
    if StopsAt(outcomes, Some(k), n) {
      forall f: nat | f + k < n ensures !Losing(outcomes, f, k) {
        assert Trailing(outcomes[..f + k]) < k;
      }
    }
    if n <= |outcomes| && forall f: nat :: f + k < n ==> !Losing(outcomes, f, k) {
      forall m: nat | 0 < m < n ensures Trailing(outcomes[..m]) < k {
        if k <= m {
          assert (m - k) + k < n;
        }
      }
    }
  }

  /** Without a limit it runs to the end. */
  lemma NeverStops(outcomes: seq<StepSummary>, n: nat)
    ensures StopsAt(outcomes, None, n) <==> n == |outcomes|
  {}

  // ----- stopping early and the answer ------------------------------------------------

  /** Of any `k` neighbouring rates, one is at or below every rate after them. */
  ghost predicate WindowsKeepOrder(rates: seq<real>, k: nat) {
    forall f: nat, j: nat :: f + k <= j < |rates| ==> WindowReaches(rates, f, k, rates[j])
  }

  ghost predicate WindowReaches(rates: seq<real>, f: nat, k: nat, r: real) {
    exists i :: f <= i < f + k && i < |rates| && rates[i] <= r
  }

  /** `r` was offered before the `k` rates from `f` on, and nothing between it and the lowest of these was. */
  ghost predicate TopBefore(rates: seq<real>, f: nat, k: nat, r: real)
    requires f + k <= |rates|
  {
    && (exists i :: 0 <= i < f && rates[i] == r)
    && forall h :: 0 <= h < f && rates[h] > r ==> WindowBelow(rates, f, k, rates[h])
  }

  ghost predicate WindowBelow(rates: seq<real>, f: nat, k: nat, r: real)
    requires f + k <= |rates|
  {
    exists w :: f <= w < f + k && rates[w] < r
  }

  /** Any `k` neighbouring rates settle every later one: one of them is no higher, or it is the top rate known before them. */
  ghost predicate WindowsSettle(rates: seq<real>, k: nat) {
    forall f: nat, j: nat :: f + k <= j < |rates| ==> WindowReaches(rates, f, k, rates[j]) || TopBefore(rates, f, k, rates[j])
  }

  lemma DistinctRatesSettle(rates: seq<real>, k: nat)
    requires NoDuplicates(rates)
    ensures WindowsSettle(rates, k) <==> WindowsKeepOrder(rates, k)
  {
    if WindowsSettle(rates, k) {
      forall f: nat, j: nat | f + k <= j < |rates| ensures WindowReaches(rates, f, k, rates[j]) {
        if TopBefore(rates, f, k, rates[j]) {
          TopRepeats(rates, f, k, j);
        }
      }
    }
  }

  lemma TopRepeats(rates: seq<real>, f: nat, k: nat, j: nat)
    requires f + k <= j < |rates| && TopBefore(rates, f, k, rates[j])
    ensures !NoDuplicates(rates)
  {}

  function Achieved(outcomes: seq<StepSummary>): seq<real> {
    Map((s: StepSummary) => s.offeredRate, outcomes)
  }

  /** What a stopped ladder shows at its end. */
  ghost predicate StoppedBy(outcomes: seq<StepSummary>, f: nat, k: nat) {
    && k >= 1 && f + k <= |outcomes| && (forall w :: f <= w < f + k ==> !outcomes[w].Healthy())
    && forall j :: f + k <= j < |outcomes| ==>
         WindowReaches(Achieved(outcomes), f, k, Achieved(outcomes)[j]) || TopBefore(Achieved(outcomes), f, k, Achieved(outcomes)[j])
  }

  /** A step that was skipped cannot hold the capacity. */
  lemma ClearWasRun(outcomes: seq<StepSummary>, f: nat, k: nat, i: nat)
    requires StoppedBy(outcomes, f, k) && i < |outcomes| && Clear(outcomes, i)
    ensures i < f + k && Clear(outcomes[..f + k], i)
  {
    var rates := Achieved(outcomes);
    forall w | f <= w < f + k ensures outcomes[w].offeredRate >= rates[i] {
      assert outcomes[w] in outcomes;
    }
    forall x | 0 <= x < |rates| && rates[x] == rates[i] ensures i <= x {
      assert outcomes[x].offeredRate == rates[i];
    }
    assert i < f + k;
  }

  /** Nor can it unseat one that was run. */
  lemma ClearStays(outcomes: seq<StepSummary>, f: nat, k: nat, i: nat)
    requires StoppedBy(outcomes, f, k) && i < f + k && Clear(outcomes[..f + k], i)
    ensures Clear(outcomes, i)
  {
    var rates, run := Achieved(outcomes), outcomes[..f + k];
    forall w | f <= w < f + k ensures rates[w] >= rates[i] {
      assert run[w] in run;
    }
    assert i < f && !WindowBelow(rates, f, k, rates[i]);
    forall j | f + k <= j < |rates| ensures rates[j] >= rates[i] {
      assert rates[j] < rates[i] ==> !WindowReaches(rates, f, k, rates[j]);
    }
    forall s | s in outcomes && s.offeredRate < rates[i] ensures s.Healthy() {
      var j :| 0 <= j < |outcomes| && outcomes[j] == s;
      assert run[j] in run;
    }
  }

  /** Whatever the steps measure, stopping leaves the capacity of the full ladder. */
  lemma StoppingIsSafe(outcomes: seq<StepSummary>, k: nat, n: nat)
    requires k >= 1 && StopsAt(outcomes, Some(k), n) && WindowsSettle(Achieved(outcomes), k)
    ensures MaxSustainable(outcomes[..n]) == MaxSustainable(outcomes)
  {
    if n < |outcomes| {
      var f := n - k;
      assert StoppedBy(outcomes, f, k);
      if MaxSustainable(outcomes).Some? {
        var i := CapacityIsClear(outcomes);
        ClearWasRun(outcomes, f, k, i);
        ClearIsReached(outcomes[..n], i);
      }
      if MaxSustainable(outcomes[..n]).Some? {
        var i := CapacityIsClear(outcomes[..n]);
        ClearStays(outcomes, f, k, i);
        ClearIsReached(outcomes, i);
      }
    } else {
      assert outcomes[..n] == outcomes;
    }
  }

  /** In particular when the achieved rates keep the order of the requested ones. */
  lemma AscendingIsSafe(outcomes: seq<StepSummary>, k: nat, n: nat)
    requires k >= 1 && StopsAt(outcomes, Some(k), n) && Sorted(Achieved(outcomes), RealLe)
    ensures MaxSustainable(outcomes[..n]) == MaxSustainable(outcomes)
  {
    var rates := Achieved(outcomes);
    forall f: nat, j: nat | f + k <= j < |rates| ensures WindowReaches(rates, f, k, rates[j]) {
      assert RealLe(rates[f], rates[j]);
    }
    StoppingIsSafe(outcomes, k, n);
  }

  // ----- and it is safe only then ----------------------------------------------------------

  /** A way to get a step of either verdict at each of the rates. */
  ghost predicate Probes(probe: (nat, bool) -> StepSummary, rates: seq<real>) {
    forall i: nat, ok :: i < |rates| ==> probe(i, ok).offeredRate == rates[i] && (probe(i, ok).Healthy() <==> ok)
  }

  /** Unhealthy for the `k` steps from `f` on, and at `bad`. */
  function Pattern(probe: (nat, bool) -> StepSummary, rates: seq<real>, f: nat, k: nat, bad: nat): (s: seq<StepSummary>)
    ensures |s| == |rates|
    ensures forall i :: 0 <= i < |rates| ==> s[i] == probe(i, !(f <= i < f + k) && i != bad)
  {
    seq(|rates|, i requires 0 <= i < |rates| => probe(i, !(f <= i < f + k) && i != bad))
  }

  lemma PatternIs(probe: (nat, bool) -> StepSummary, rates: seq<real>, f: nat, k: nat, bad: nat)
    requires Probes(probe, rates)
    ensures var s := Pattern(probe, rates, f, k, bad);
      && Achieved(s) == rates
      && forall i :: 0 <= i < |rates| ==> s[i].offeredRate == rates[i] && (s[i].Healthy() <==> !(f <= i < f + k) && i != bad)
  {
    var s := Pattern(probe, rates, f, k, bad);
    forall i: nat | i < |rates|
      ensures s[i].offeredRate == rates[i] && (s[i].Healthy() <==> !(f <= i < f + k) && i != bad)
    {
      assert s[i] == probe(i, !(f <= i < f + k) && i != bad);
    }
  }

  lemma {:induction false} TrailingIs(steps: seq<StepSummary>, n: nat)
    requires n <= |steps| && (forall i :: |steps| - n <= i < |steps| ==> !steps[i].Healthy())
    requires n < |steps| ==> steps[|steps| - n - 1].Healthy()
    ensures Trailing(steps) == n
    decreases n
  {
    if n > 0 {
      TrailingIs(steps[..|steps| - 1], n - 1);
    }
  }

  lemma PatternStops(probe: (nat, bool) -> StepSummary, rates: seq<real>, f: nat, k: nat, bad: nat)
    requires Probes(probe, rates) && k >= 1 && f + k <= bad && f + k <= |rates|
    ensures StopsAt(Pattern(probe, rates, f, k, bad), Some(k), f + k)
  {
    var s := Pattern(probe, rates, f, k, bad);
    PatternIs(probe, rates, f, k, bad);
    TrailingIs(s[..f + k], k);
    forall m | 0 < m < f + k ensures Trailing(s[..m]) < k {
      TrailingIs(s[..m], if m <= f then 0 else m - f);
    }
  }

  /** The ladder stops after `n` steps, and what it then reports is not what the full ladder would. */
  ghost predicate Misjudged(outcomes: seq<StepSummary>, k: nat, n: nat) {
    StopsAt(outcomes, Some(k), n) && MaxSustainable(outcomes[..n]) != MaxSustainable(outcomes)
  }

  ghost predicate Probed(outcomes: seq<StepSummary>, probe: (nat, bool) -> StepSummary, rates: seq<real>) {
    && Achieved(outcomes) == rates
    && forall i :: 0 <= i < |outcomes| ==> outcomes[i] == probe(i, true) || outcomes[i] == probe(i, false)
  }

  lemma PatternProbed(probe: (nat, bool) -> StepSummary, rates: seq<real>, f: nat, k: nat, bad: nat)
    requires Probes(probe, rates)
    ensures Probed(Pattern(probe, rates, f, k, bad), probe, rates)
  {
    PatternIs(probe, rates, f, k, bad);
  }

  lemma SamePrefix(probe: (nat, bool) -> StepSummary, rates: seq<real>, f: nat, k: nat, j: nat)
    requires f + k <= j < |rates|
    ensures Pattern(probe, rates, f, k, |rates|)[..f + k] == Pattern(probe, rates, f, k, j)[..f + k]
  {}

  /** Later rates below the whole window: the first step at such a rate can raise the capacity or lower it. */
  lemma LowRateMissed(probe: (nat, bool) -> StepSummary, rates: seq<real>, k: nat, f: nat, j: nat) returns (outcomes: seq<StepSummary>)
    requires Probes(probe, rates) && k >= 1 && f + k <= j < |rates| && !WindowReaches(rates, f, k, rates[j])
    requires forall i :: 0 <= i < j ==> rates[i] != rates[j]
    ensures Probed(outcomes, probe, rates) && Misjudged(outcomes, k, f + k)
  {
    SamePrefix(probe, rates, f, k, j);
    LowRateRaises(probe, rates, k, f, j);
    LowRateLowers(probe, rates, k, f, j);
    var bad := |rates|;
    if MaxSustainable(Pattern(probe, rates, f, k, bad)[..f + k]) == MaxSustainable(Pattern(probe, rates, f, k, bad)) {
      bad := j;
    }
    PatternStops(probe, rates, f, k, bad);
    PatternProbed(probe, rates, f, k, bad);
    outcomes := Pattern(probe, rates, f, k, bad);
  }

  lemma LowRateRaises(probe: (nat, bool) -> StepSummary, rates: seq<real>, k: nat, f: nat, j: nat)
    requires Probes(probe, rates) && f + k <= j < |rates| && !WindowReaches(rates, f, k, rates[j])
    requires forall i :: 0 <= i < j ==> rates[i] != rates[j]
    ensures RateAtMost(Some(rates[j]), MaxSustainable(Pattern(probe, rates, f, k, |rates|)))
  {
    var good := Pattern(probe, rates, f, k, |rates|);
    PatternIs(probe, rates, f, k, |rates|);
    forall s | s in good && s.offeredRate < rates[j] ensures s.Healthy() {
      var i :| 0 <= i < |good| && good[i] == s;
      assert !(f <= i < f + k);
    }
    assert Clear(good, j);
    ClearIsReached(good, j);
  }

  lemma LowRateLowers(probe: (nat, bool) -> StepSummary, rates: seq<real>, k: nat, f: nat, j: nat)
    requires Probes(probe, rates) && j < |rates| && forall i :: 0 <= i < j ==> rates[i] != rates[j]
    ensures !RateAtMost(Some(rates[j]), MaxSustainable(Pattern(probe, rates, f, k, j)))
  {
    var bad := Pattern(probe, rates, f, k, j);
    PatternIs(probe, rates, f, k, j);
    SustainableExactly(bad, rates[j]);
    assert bad[j] in bad && !bad[j].Healthy();
    forall i | 0 <= i < |bad| && Clear(bad, i) ensures bad[i].offeredRate < rates[j] {
      assert i != j && (i > j ==> bad[j].offeredRate != bad[i].offeredRate);
    }
  }

  /** A rate known before the window, and no higher than it, is lost when a lower one turns out to be missed. */
  lemma HighRateLost(probe: (nat, bool) -> StepSummary, rates: seq<real>, k: nat, f: nat, j: nat, h: nat) returns (outcomes: seq<StepSummary>)
    requires Probes(probe, rates) && k >= 1 && f + k <= j < |rates|
    requires h < f && rates[h] > rates[j] && !WindowBelow(rates, f, k, rates[h])
    ensures Probed(outcomes, probe, rates) && Misjudged(outcomes, k, f + k)
  {
    outcomes := Pattern(probe, rates, f, k, j);
    PatternIs(probe, rates, f, k, j);
    PatternStops(probe, rates, f, k, j);
    PatternProbed(probe, rates, f, k, j);
    HighRateRun(probe, rates, k, f, j, h);
    SustainableExactly(outcomes, rates[h]);
    assert outcomes[j] in outcomes && !outcomes[j].Healthy();
  }

  lemma HighRateRun(probe: (nat, bool) -> StepSummary, rates: seq<real>, k: nat, f: nat, j: nat, h: nat)
    requires Probes(probe, rates) && k >= 1 && f + k <= j < |rates| && h < f && !WindowBelow(rates, f, k, rates[h])
    ensures RateAtMost(Some(rates[h]), MaxSustainable(Pattern(probe, rates, f, k, j)[..f + k]))
  {
    var run := Pattern(probe, rates, f, k, j)[..f + k];
    PatternIs(probe, rates, f, k, j);
    assert run[h] in run;
    var i := FirstIndex(AtRate(rates[h]), run);
    forall s | s in run && s.offeredRate < rates[h] ensures s.Healthy() {
      var x :| 0 <= x < |run| && run[x] == s;
    }
    assert Clear(run, i);
    ClearIsReached(run, i);
  }

  lemma FirstWithRate(rates: seq<real>, j: nat) returns (i: nat)
    requires j < |rates|
    ensures i <= j && rates[i] == rates[j] && forall x :: 0 <= x < i ==> rates[x] != rates[j]
  {
    i := 0;
    while rates[i] != rates[j]
      invariant i <= j && forall x :: 0 <= x < i ==> rates[x] != rates[j]
      decreases j - i
    {
      i := i + 1;
    }
  }

  lemma Unsettled(rates: seq<real>, k: nat) returns (f: nat, j: nat)
    requires !WindowsSettle(rates, k)
    ensures f + k <= j < |rates| && !WindowReaches(rates, f, k, rates[j]) && !TopBefore(rates, f, k, rates[j])
  {
    f, j :| f + k <= j < |rates| && !WindowReaches(rates, f, k, rates[j]) && !TopBefore(rates, f, k, rates[j]);
  }

  /** Where some window does not settle a later rate, there are outcomes that stopping misjudges, whatever the steps are made of. */
  lemma UnsettledIsMisjudged(probe: (nat, bool) -> StepSummary, rates: seq<real>, k: nat) returns (outcomes: seq<StepSummary>, n: nat)
    requires Probes(probe, rates) && k >= 1 && !WindowsSettle(rates, k)
    ensures Probed(outcomes, probe, rates) && Misjudged(outcomes, k, n)
  {
    var f, j := Unsettled(rates, k);
    n := f + k;
    var i := FirstWithRate(rates, j);
    if i < f {
      var h := HigherBefore(rates, f, k, rates[j], i);
      outcomes := HighRateLost(probe, rates, k, f, j, h);
    } else {
      WindowHigher(rates, f, k, j, i);
      outcomes := LowRateMissed(probe, rates, k, f, i);
    }
  }

  lemma HigherBefore(rates: seq<real>, f: nat, k: nat, r: real, i: nat) returns (h: nat)
    requires f + k <= |rates| && !TopBefore(rates, f, k, r) && i < f && rates[i] == r
    ensures h < f && rates[h] > r && !WindowBelow(rates, f, k, rates[h])
  {
    h :| 0 <= h < f && rates[h] > r && !WindowBelow(rates, f, k, rates[h]);
  }

  lemma WindowHigher(rates: seq<real>, f: nat, k: nat, j: nat, i: nat)
    requires f + k <= j < |rates| && !WindowReaches(rates, f, k, rates[j]) && f <= i <= j && rates[i] == rates[j]
    ensures f + k <= i
  {}

  /** Stopping keeps the answer whatever the steps at these rates measure. */
  ghost predicate AlwaysSafe(rates: seq<real>, k: nat) {
    forall outcomes: seq<StepSummary>, n: nat :: Achieved(outcomes) == rates ==> !Misjudged(outcomes, k, n)
  }

  /**
   * Stopping after `k` unhealthy steps never changes the capacity, whatever the health of the steps,
   * exactly when any `k` neighbouring rates settle every later one. This is known from the schedules,
   * before anything is run.
   */
  lemma StoppingExactlySafe(rates: seq<real>, k: nat)
    requires k >= 1
    ensures AlwaysSafe(rates, k) <==> WindowsSettle(rates, k)
    ensures NoDuplicates(rates) ==> (AlwaysSafe(rates, k) <==> WindowsKeepOrder(rates, k))
  {
    if WindowsSettle(rates, k) {
      SettledIsSafe(rates, k);
    } else {
      AnyProbes(rates);
      var outcomes, n := UnsettledIsMisjudged(AnyProbe(rates), rates, k);
    }
    if NoDuplicates(rates) {
      DistinctRatesSettle(rates, k);
    }
  }

  function AnyProbe(rates: seq<real>): (nat, bool) -> StepSummary {
    (i: nat, ok: bool) => Probe(if i < |rates| then rates[i] else 0.0, ok)
  }

  lemma AnyProbes(rates: seq<real>)
    ensures Probes(AnyProbe(rates), rates)
  {
    forall i: nat, ok | i < |rates|
      ensures AnyProbe(rates)(i, ok).offeredRate == rates[i] && (AnyProbe(rates)(i, ok).Healthy() <==> ok)
    {
      assert AnyProbe(rates)(i, ok) == Probe(rates[i], ok);
    }
  }

  lemma SettledIsSafe(rates: seq<real>, k: nat)
    requires k >= 1 && WindowsSettle(rates, k)
    ensures AlwaysSafe(rates, k)
  {
    forall outcomes: seq<StepSummary>, n: nat | Achieved(outcomes) == rates ensures !Misjudged(outcomes, k, n) {
      if StopsAt(outcomes, Some(k), n) {
        StoppingIsSafe(outcomes, k, n);
      }
    }
  }

  // ----- of the ladders that runs make -------------------------------------------------------

  /** What a run returned at a requested rate, summarised. */
  ghost predicate SummaryOfRun(s: StepSummary, requested: real, slo: ServiceLevel) {
    exists result :: IsRun(result) && result.schedule.Valid() && result.schedule.rate == requested && s == Summarise(result, slo)
  }

  ghost predicate StepsOfRuns(outcomes: seq<StepSummary>, requested: seq<real>, slo: ServiceLevel) {
    |outcomes| == |requested| && forall i :: 0 <= i < |outcomes| ==> SummaryOfRun(outcomes[i], requested[i], slo)
  }

  ghost predicate SafeForRuns(requested: seq<real>, rates: seq<real>, k: nat, slo: ServiceLevel) {
    forall outcomes: seq<StepSummary>, n: nat ::
      Achieved(outcomes) == rates && StepsOfRuns(outcomes, requested, slo) ==> !Misjudged(outcomes, k, n)
  }

  function RunProbe(requested: seq<real>, rates: seq<real>, slo: ServiceLevel): (nat, bool) -> StepSummary
    requires |requested| == |rates| && forall i :: 0 <= i < |rates| ==> rates[i] > 0.0
  {
    (i: nat, ok: bool) => if i < |rates| then Summarise(OneRun(requested[i], rates[i], ok), slo) else Probe(0.0, ok)
  }

  lemma RunsProbe(requested: seq<real>, rates: seq<real>, slo: ServiceLevel)
    requires |requested| == |rates| && slo.ttft >= 0.0 && forall i :: 0 <= i < |rates| ==> rates[i] > 0.0
    ensures Probes(RunProbe(requested, rates, slo), rates)
  {
    var probe := RunProbe(requested, rates, slo);
    forall i: nat, ok | i < |rates| ensures probe(i, ok).offeredRate == rates[i] && (probe(i, ok).Healthy() <==> ok) {
      AnyVerdictAtAnyRate(requested[i], rates[i], ok, slo);
    }
  }

  lemma ProbedAreRuns(outcomes: seq<StepSummary>, requested: seq<real>, rates: seq<real>, slo: ServiceLevel)
    requires |requested| == |rates| && forall i :: 0 <= i < |rates| ==> rates[i] > 0.0
    requires Probed(outcomes, RunProbe(requested, rates, slo), rates)
    ensures StepsOfRuns(outcomes, requested, slo)
  {
    forall i | 0 <= i < |outcomes| ensures SummaryOfRun(outcomes[i], requested[i], slo) {
      OneRunIsRun(requested[i], rates[i], true);
      OneRunIsRun(requested[i], rates[i], false);
      assert outcomes[i] == Summarise(OneRun(requested[i], rates[i], true), slo)
          || outcomes[i] == Summarise(OneRun(requested[i], rates[i], false), slo);
    }
  }

  /** The condition is as exact for what runs can measure, whatever rates were requested and whichever positive ones achieved. */
  lemma StoppingExactlySafeForRuns(requested: seq<real>, rates: seq<real>, k: nat, slo: ServiceLevel)
    requires k >= 1 && |requested| == |rates| && slo.ttft >= 0.0 && forall i :: 0 <= i < |rates| ==> rates[i] > 0.0
    ensures SafeForRuns(requested, rates, k, slo) <==> WindowsSettle(rates, k)
  {
    if WindowsSettle(rates, k) {
      SettledIsSafe(rates, k);
    } else {
      RunsProbe(requested, rates, slo);
      var outcomes, n := UnsettledIsMisjudged(RunProbe(requested, rates, slo), rates, k);
      ProbedAreRuns(outcomes, requested, rates, slo);
    }
  }
}
