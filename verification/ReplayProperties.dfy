/** Replay agrees with the live run: on which runs, and on what. */
module ReplayProperties {
  import opened Seqs
  import opened Sorting
  import opened Requests
  import opened InFlightPeak
  import opened OpenLoop
  import opened OpenLoopProperties
  import opened Report
  import opened ReportProperties
  import opened Replay
  import RealMul

  // ----- one record ------------------------------------------------------------------

  /** A record after a trip through the file. */
  function Kept(r: RequestRecord): RequestRecord {
    FromRow(ToRow(r))
  }

  /** Equal in everything that is ever read from a record. */
  ghost predicate Alike(a: RequestRecord, b: RequestRecord) {
    && a.index == b.index && a.scheduledAt == b.scheduledAt && a.sentAt == b.sentAt && a.finishedAt == b.finishedAt
    && a.ok == b.ok && a.ttft == b.ttft && a.TtftFromSchedule() == b.TtftFromSchedule() && a.Tpot() == b.Tpot()
    && a.E2eFromSchedule() == b.E2eFromSchedule() && a.OutputTokens() == b.OutputTokens() && a.ScheduleLag() == b.ScheduleLag()
  }

  lemma KeptIsAlike(r: RequestRecord)
    ensures Alike(r, Kept(r))
  {
    if r.Tpot().Some? {
      var x := r.Tpot().value;
      assert Sum([x]) == x + Sum([x][1..]);
    }
  }

  ghost predicate AllAlike(a: seq<RequestRecord>, b: seq<RequestRecord>) {
    |a| == |b| && forall i :: 0 <= i < |a| ==> Alike(a[i], b[i])
  }

  // ----- lists of records -----------------------------------------------------------------

  lemma {:induction false} FilterAlike(p: RequestRecord -> bool, a: seq<RequestRecord>, b: seq<RequestRecord>)
    requires AllAlike(a, b) && forall i :: 0 <= i < |a| ==> p(a[i]) == p(b[i])
    ensures AllAlike(Filter(p, a), Filter(p, b))
  {
    if a != [] {
      FilterAlike(p, a[1..], b[1..]);
    }
  }

  lemma {:induction false} FilterMapAlike(f: RequestRecord -> Option<real>, a: seq<RequestRecord>, b: seq<RequestRecord>)
    requires |a| == |b| && forall i :: 0 <= i < |a| ==> f(a[i]) == f(b[i])
    ensures FilterMap(f, a) == FilterMap(f, b)
  {
    if a != [] {
      FilterMapAlike(f, a[1..], b[1..]);
    }
  }

  lemma ListsAlike(a: seq<RequestRecord>, b: seq<RequestRecord>)
    requires AllAlike(a, b)
    ensures Ttfts(a) == Ttfts(b) && TtftsSend(a) == TtftsSend(b) && Tpots(a) == Tpots(b) && E2es(a) == E2es(b)
  {
    FilterMapAlike((r: RequestRecord) => r.TtftFromSchedule(), a, b);
    FilterMapAlike((r: RequestRecord) => r.ttft, a, b);
    FilterMapAlike((r: RequestRecord) => r.Tpot(), a, b);
  }

  lemma {:induction false} TokensAlike(a: seq<RequestRecord>, b: seq<RequestRecord>)
    requires AllAlike(a, b)
    ensures Tokens(a) == Tokens(b)
  {
    if a != [] {
      TokensAlike(a[1..], b[1..]);
    }
  }

  lemma {:induction false} LagAlike(a: seq<RequestRecord>, b: seq<RequestRecord>)
    requires AllAlike(a, b)
    ensures MaxLag(a) == MaxLag(b)
  {
    if a != [] {
      LagAlike(a[1..], b[1..]);
    }
  }

  lemma {:induction false} OverlapAlike(a: seq<RequestRecord>, b: seq<RequestRecord>, t: real)
    requires AllAlike(a, b)
    ensures Overlap(a, t) == Overlap(b, t)
  {
    if a != [] {
      OverlapAlike(a[1..], b[1..], t);
    }
  }

  /** Every figure that a judgement rests on. */
  ghost predicate Agree(a: StepSummary, b: StepSummary) {
    && a.offeredRate == b.offeredRate && SameCounts(a, b) && SameRates(a, b) && SamePercentiles(a, b)
    && a.Attainment() == b.Attainment() && a.KeepingUp() == b.KeepingUp() && a.Healthy() == b.Healthy()
  }

  ghost predicate SameCounts(a: StepSummary, b: StepSummary) {
    a.sent == b.sent && a.completed == b.completed && a.failed == b.failed && a.metSlo == b.metSlo
  }

  ghost predicate SameRates(a: StepSummary, b: StepSummary) {
    a.completedRate == b.completedRate && a.goodput == b.goodput && a.tokensPerSecond == b.tokensPerSecond
  }

  ghost predicate SamePercentiles(a: StepSummary, b: StepSummary) {
    && a.ttftP50 == b.ttftP50 && a.ttftP90 == b.ttftP90 && a.ttftP95 == b.ttftP95 && a.ttftP99 == b.ttftP99
    && a.tpotP50 == b.tpotP50 && a.tpotP99 == b.tpotP99 && a.e2eP50 == b.e2eP50 && a.e2eP99 == b.e2eP99
    && a.maxScheduleLag == b.maxScheduleLag && a.ttftP99SendClock == b.ttftP99SendClock
  }

  lemma SelectionsAlike(a: LoadResult, b: LoadResult, slo: ServiceLevel, window: real)
    requires AllAlike(a.records, b.records)
    ensures AllAlike(a.Completed(), b.Completed()) && AllAlike(a.Failed(), b.Failed())
    ensures AllAlike(Met(a.records, slo), Met(b.records, slo))
    ensures AllAlike(InWindow(a.Completed(), window), InWindow(b.Completed(), window))
    ensures AllAlike(InWindow(Met(a.records, slo), window), InWindow(Met(b.records, slo), window))
  {
    FilterAlike((r: RequestRecord) => r.ok, a.records, b.records);
    FilterAlike((r: RequestRecord) => !r.ok, a.records, b.records);
    FilterAlike((r: RequestRecord) => slo.MetBy(r), a.records, b.records);
    FilterAlike((r: RequestRecord) => r.finishedAt <= window, a.Completed(), b.Completed());
    FilterAlike((r: RequestRecord) => r.finishedAt <= window, Met(a.records, slo), Met(b.records, slo));
  }

  /** The counts, percentiles and lag of a summary depend on nothing else. */
  lemma CountsAlike(a: LoadResult, b: LoadResult, slo: ServiceLevel)
    requires AllAlike(a.records, b.records)
    ensures SameCounts(Summarise(a, slo), Summarise(b, slo)) && SamePercentiles(Summarise(a, slo), Summarise(b, slo))
  {
    SelectionsAlike(a, b, slo, 0.0);
    ListsAlike(a.Completed(), b.Completed());
    LagAlike(a.records, b.records);
  }

  /** The per-second figures depend on the window too, unless there is nothing to count. */
  lemma RatesAlike(a: LoadResult, b: LoadResult, slo: ServiceLevel)
    requires AllAlike(a.records, b.records) && (a.records == [] || Window(a) == Window(b))
    ensures SameRates(Summarise(a, slo), Summarise(b, slo))
  {
    if a.records != [] {
      var w := Window(a);
      SelectionsAlike(a, b, slo, w);
      TokensAlike(InWindow(a.Completed(), w), InWindow(b.Completed(), w));
    }
  }

  // ----- the replayed step ---------------------------------------------------------------------

  /** What a drained run returns, whatever became of its tasks: see `RunIsSettled`. */
  ghost predicate Settled(result: LoadResult) {
    && |result.records| <= |result.schedule.offsets|
    && Sorted(result.records, IndexLe) && InScheduleOrder(result.records)
    && (forall k :: 0 <= k < |result.records| ==>
          || Honest(result.records[k], result.schedule, result.wallClock)
          || IsPlaceholder(result.records[k], result.schedule, result.wallClock))
    && forall t: real :: Overlap(result.records, t) <= result.peakInFlight
  }

  /** Every scheduled request left a record or a placeholder. */
  predicate Complete(result: LoadResult) {
    |result.records| == |result.schedule.offsets|
  }

  /** And a record is missing for each task that died, so it is complete when none did. */
  lemma RunIsSettled(schedule: ArrivalSchedule, events: seq<OpenLoop.Event>)
    requires Run(Initial(schedule), events).wallClock.Some?
    ensures var s := Run(Initial(schedule), events);
      && s.peak >= 0 && Settled(Result(s)) && (Complete(Result(s)) <==> forall i :: 0 <= i < |s.tasks| ==> !s.tasks[i].Died?)
  {
    InitiallyGood(schedule);
    RunKeeps(Initial(schedule), events);
    EveryRequestRecorded(schedule, events);
    DrainedInOrder(schedule, events);
    var tasks := Run(Initial(schedule), events).tasks;
    if i :| 0 <= i < |tasks| && IsDead(tasks[i]) {
      CountSome(IsDead, tasks, i);
    } else {
      CountNone(IsDead, tasks);
    }
  }

  /** What some run of its schedule returns. */
  ghost predicate IsRun(result: LoadResult) {
    exists events :: RunGives(result, events)
  }

  predicate RunGives(result: LoadResult, events: seq<OpenLoop.Event>) {
    var s := Run(Initial(result.schedule), events);
    s.wallClock.Some? && s.peak >= 0 && Result(s) == result
  }

  lemma RunSettles(result: LoadResult)
    requires IsRun(result)
    ensures Settled(result)
  {
    var events :| RunGives(result, events);
    RunIsSettled(result.schedule, events);
  }

  function Replayed(result: LoadResult): LoadResult {
    Loaded(Written(result))
  }

  /** Reading back gives the same records in the same order, but for the gaps between tokens. */
  lemma ReplayedRecords(result: LoadResult)
    requires Sorted(result.records, IndexLe)
    ensures Replayed(result) == Rebuilt(Map(Kept, result.records))
    ensures AllAlike(result.records, Replayed(result).records)
  {
    var kept := Map(Kept, result.records);
    assert Map(FromRow, Written(result)) == kept;
    forall i | 0 <= i < |kept| ensures Alike(result.records[i], kept[i]) {
      KeptIsAlike(result.records[i]);
    }
    forall i, j | 0 <= i < j < |kept| ensures IndexLe(kept[i], kept[j]) {
      assert IndexLe(result.records[i], result.records[j]);
    }
    SortFixed(kept, IndexLe);
  }

  /** The last record of the step is due when the schedule ends. */
  predicate EndsOnTime(result: LoadResult) {
    if result.records == [] then result.schedule.offsets == []
    else result.records[|result.records| - 1].scheduledAt == result.schedule.Duration()
  }

  /** Every request left a record, and the last of these ends the schedule. */
  ghost predicate KeptWhole(result: LoadResult) {
    Settled(result) && Complete(result) && result.schedule.Valid() && EndsOnTime(result)
  }

  lemma ReplayedDuration(result: LoadResult)
    requires Settled(result) && result.schedule.Valid()
    ensures Replayed(result).schedule.Duration() == result.schedule.Duration() <==> EndsOnTime(result)
    ensures result.records != [] ==> Replayed(result).schedule.Duration() > 0.0
    ensures result.schedule.offsets != [] ==> result.schedule.Duration() > 0.0
  {
    ReplayedRecords(result);
    var n := |result.records|;
    if n > 0 {
      assert Alike(result.records[n - 1], Replayed(result).records[n - 1]);
    }
  }

  /** The offered rate of the replay: the records there are, over the span up to the last of them. */
  lemma OfferedByReplay(result: LoadResult)
    requires Settled(result) && result.schedule.Valid()
    ensures Complete(result) ==>
      (result.schedule.AchievedRate() == Replayed(result).schedule.AchievedRate() <==> EndsOnTime(result))
    ensures EndsOnTime(result) && !Complete(result) ==>
      Replayed(result).schedule.AchievedRate() < result.schedule.AchievedRate()
    ensures EndsOnTime(result) ==> result.records == [] || Window(result) == Window(Replayed(result))
  {
    ReplayedRecords(result);
    ReplayedDuration(result);
    if result.records != [] {
      OfferedDiffers(|result.records|, result.schedule.Duration(), Replayed(result).schedule.Duration());
      FewerOffer(|result.records|, |result.schedule.offsets|, result.schedule.Duration());
    }
  }

  lemma FewerOffer(m: nat, n: nat, d: real)
    requires d > 0.0
    ensures m < n ==> m as real / d < n as real / d
  {
    if m < n {
      var q, r := m as real / d, n as real / d;
      assert q * d == m as real && r * d == n as real;
      if r <= q {
        RealMul.Monotone(r, q, d);
      }
    }
  }

  lemma HealthFollows(a: StepSummary, b: StepSummary)
    requires SameCounts(a, b)
    ensures a.Attainment() == b.Attainment() && a.KeepingUp() == b.KeepingUp() && a.Healthy() == b.Healthy()
  {}

  /**
   * A saved step, read back and summarised: its counts, percentiles and verdict always agree with the
   * live summary, and its rates when its last record ends the schedule. When every request left a
   * record that is exactly when all of it agrees; when a task died without one, the replay is
   * offered less.
   */
  lemma ReplayAgrees(result: LoadResult, slo: ServiceLevel)
    requires Settled(result) && result.schedule.Valid()
    ensures var a, b := Summarise(result, slo), Summarise(Replayed(result), slo);
      && SameCounts(a, b) && SamePercentiles(a, b) && a.Healthy() == b.Healthy()
      && (EndsOnTime(result) ==> SameRates(a, b))
      && (Complete(result) ==> (Agree(a, b) <==> EndsOnTime(result)))
      && (EndsOnTime(result) && !Complete(result) ==> b.offeredRate < a.offeredRate)
  {
    var replay := Replayed(result);
    ReplayedRecords(result);
    OfferedByReplay(result);
    CountsAlike(result, replay, slo);
    var a, b := Summarise(result, slo), Summarise(replay, slo);
    OfferedOf(result, slo);
    OfferedOf(replay, slo);
    HealthFollows(a, b);
    if EndsOnTime(result) {
      RatesAlike(result, replay, slo);
    }
  }

  lemma OfferedOf(result: LoadResult, slo: ServiceLevel)
    ensures Summarise(result, slo).offeredRate == result.schedule.AchievedRate()
  {}

  /** When the last record was due. */
  function LastDue(result: LoadResult): real
    requires result.records != []
  {
    result.records[|result.records| - 1].scheduledAt
  }

  lemma ReplayedSchedule(result: LoadResult)
    requires Settled(result) && result.schedule.Valid() && result.records != []
    ensures |Replayed(result).schedule.offsets| == |result.records|
    ensures Replayed(result).schedule.Duration() == LastDue(result) > 0.0 && result.schedule.Duration() > 0.0
  {
    ReplayedRecords(result);
    ReplayedDuration(result);
    var n := |result.records| - 1;
    assert Alike(result.records[n], Replayed(result).records[n]);
  }

  function Times(n: nat, d: real): real {
    n as real * d
  }

  lemma SameOffered(a: ArrivalSchedule, b: ArrivalSchedule)
    requires a.Duration() > 0.0 && b.Duration() > 0.0
    ensures a.AchievedRate() == b.AchievedRate() <==> Times(|b.offsets|, a.Duration()) == Times(|a.offsets|, b.Duration())
  {
    CrossEqual(|a.offsets| as real, a.Duration(), |b.offsets| as real, b.Duration());
  }

  lemma NothingReplayed(result: LoadResult)
    requires result.records == [] && result.schedule.Valid()
    ensures result.schedule.AchievedRate() == Replayed(result).schedule.AchievedRate() <==> result.schedule.offsets == []
  {
    ReplayedRecords(result);
    if result.schedule.offsets != [] {
      ScheduleOffers(result.schedule);
    }
  }

  /** The offered rates agree exactly when there are as many records per second of their span as there were requests per second of theirs. */
  lemma OfferedAgreesExactly(result: LoadResult, slo: ServiceLevel)
    requires Settled(result) && result.schedule.Valid()
    ensures Summarise(result, slo).offeredRate == Summarise(Replayed(result), slo).offeredRate <==>
      if result.records == [] then result.schedule.offsets == []
      else Times(|result.records|, result.schedule.Duration()) == Times(|result.schedule.offsets|, LastDue(result))
  {
    OfferedOf(result, slo);
    OfferedOf(Replayed(result), slo);
    if result.records == [] {
      NothingReplayed(result);
    } else {
      ReplayedSchedule(result);
      SameOffered(result.schedule, Replayed(result).schedule);
    }
  }

  lemma CrossEqual(m: real, d: real, n: real, e: real)
    requires d > 0.0 && e > 0.0
    ensures m / d == n / e <==> m * e == n * d
  {
    var q, r := m / d, n / e;
    assert q * d == m && r * e == n;
    assert m * e == q * (d * e) && n * d == r * (d * e);
    if m * e == n * d {
      assert (q - r) * (d * e) == 0.0 && d * e > 0.0;
    }
  }

  lemma OfferedDiffers(n: nat, d: real, e: real)
    requires n > 0 && d > 0.0 && e > 0.0
    ensures n as real / d == n as real / e ==> d == e
  {
    if n as real / d == n as real / e {
      var q := n as real / d;
      assert q * d == n as real && q * e == n as real;
      assert q * (d - e) == 0.0;
    }
  }

  /** The request scheduled last has a record of its own. */
  predicate LastReturned(result: LoadResult) {
    exists k :: 0 <= k < |result.records| && result.records[k].index == |result.schedule.offsets| - 1
  }

  /** Nothing came back, and everything that was sent left a placeholder. */
  predicate NoneReturned(result: LoadResult) {
    && (forall k :: 0 <= k < |result.records| ==> result.records[k].index < 0)
    && (result.records == [] ==> result.schedule.offsets == [])
  }

  /** For strictly increasing offsets: when the last scheduled request returned, or none did. */
  lemma EndsOnTimeExactly(result: LoadResult)
    requires Settled(result)
    requires forall i, j :: 0 <= i < j < |result.schedule.offsets| ==> result.schedule.offsets[i] < result.schedule.offsets[j]
    ensures EndsOnTime(result) <==> LastReturned(result) || NoneReturned(result)
  {
    var n, records := |result.records|, result.records;
    if n > 0 {
      var last := records[n - 1];
      forall k | 0 <= k < n ensures IndexLe(records[k], last) {
        assert k < n - 1 ==> IndexLe(records[k], last);
      }
    }
  }

  lemma DueByTheEnd(result: LoadResult, k: nat)
    requires Settled(result) && result.schedule.Valid() && k < |result.records|
    ensures result.records[k].scheduledAt <= result.schedule.Duration()
  {
    assert Honest(result.records[k], result.schedule, result.wallClock)
        || IsPlaceholder(result.records[k], result.schedule, result.wallClock);
  }

  lemma LatestDue(result: LoadResult)
    requires KeptWhole(result) && result.records != []
    ensures MaxOf(Due(result.records)) == result.schedule.Duration()
  {
    var dues := Due(result.records);
    forall x | x in dues ensures x <= result.schedule.Duration() {
      var k :| 0 <= k < |dues| && dues[k] == x;
      DueByTheEnd(result, k);
    }
    assert dues[|dues| - 1] in dues;
  }

  /** The rate that was asked for is not in the file: the replay puts the achieved one in its place. */
  lemma RequestedIsAchieved(result: LoadResult, slo: ServiceLevel)
    requires KeptWhole(result)
    ensures Summarise(Replayed(result), slo).requestedRate == Summarise(result, slo).offeredRate
  {
    ReplayedRecords(result);
    SameDue(result.records, Map(Kept, result.records));
    if result.records != [] {
      LatestDue(result);
      ReplayedDuration(result);
    }
    RequestedOf(result, slo);
    RequestedOf(Replayed(result), slo);
  }

  lemma SameDue(a: seq<RequestRecord>, b: seq<RequestRecord>)
    requires |a| == |b| && forall i :: 0 <= i < |a| ==> a[i].scheduledAt == b[i].scheduledAt
    ensures Due(a) == Due(b)
  {}

  lemma RequestedOf(result: LoadResult, slo: ServiceLevel)
    ensures Summarise(result, slo).requestedRate == result.schedule.rate
    ensures Summarise(result, slo).offeredRate == result.schedule.AchievedRate()
  {}

  /** What a replay cannot know it does not overstate. */
  lemma ReplayNeverOverstates(result: LoadResult)
    requires Settled(result) && result.wallClock >= 0.0
    ensures Replayed(result).wallClock <= result.wallClock
    ensures ClientPeak(Replayed(result)).Some? ==> ClientPeak(Replayed(result)).value <= result.peakInFlight
  {
    ReplayedRecords(result);
    var replay := Replayed(result);
    forall x | x in Ends(replay.records) ensures x <= result.wallClock {
      var k :| 0 <= k < |replay.records| && replay.records[k].finishedAt == x;
      assert Alike(result.records[k], replay.records[k]);
    }
    assert Forward(replay.records) by {
      forall k | 0 <= k < |replay.records| && replay.records[k].index >= 0 ensures replay.records[k].sentAt <= replay.records[k].finishedAt {
        assert Alike(result.records[k], replay.records[k]);
      }
    }
    ReconstructedPeak(replay);
    if ClientPeak(replay).Some? {
      var t: real :| Overlap(replay.records, t) == ClientPeak(replay).value;
      OverlapAlike(result.records, replay.records, t);
    }
  }
}
