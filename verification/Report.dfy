/** Summaries of request records, and the curve they make (bench/report.py). Rounding is left out. */
module Report {
  import opened Seqs
  import opened Sorting
  import opened OrderStatistics
  import opened Requests
  import opened InFlightPeak

  const KEEPING_UP := 0.95

  datatype ServiceLevel = ServiceLevel(ttft: real, tpot: real) {
    /** Answered, and in time: the first token counted from when the request was due. */
    predicate MetBy(r: RequestRecord) {
      && r.ok
      && (match r.TtftFromSchedule() case None => false case Some(t) => t <= ttft)
      && (match r.Tpot() case None => true case Some(t) => t <= tpot)
    }
  }

  datatype StepSummary = StepSummary(
    offeredRate: real,
    requestedRate: real,
    wallClock: real,
    sent: nat,
    completed: nat,
    failed: nat,
    metSlo: nat,
    completedRate: real,
    goodput: real,
    tokensPerSecond: real,
    drainOvershoot: real,
    ttftP50: Option<real>,
    ttftP90: Option<real>,
    ttftP95: Option<real>,
    ttftP99: Option<real>,
    tpotP50: Option<real>,
    tpotP99: Option<real>,
    e2eP50: Option<real>,
    e2eP99: Option<real>,
    maxScheduleLag: real,
    ttftP99SendClock: Option<real>,
    clientPeakInFlight: Option<int>)
  {
    /** How much of everything sent met the level; nothing met it when nothing was sent. */
    function Attainment(): real {
      if sent == 0 then 0.0 else Part(metSlo, sent)
    }

    /** All but a few of the requests sent were answered, well or slowly. */
    predicate KeepingUp() {
      sent == 0 || Part(completed, sent) >= KEEPING_UP
    }

    predicate Healthy() {
      KeepingUp() && Attainment() >= KEEPING_UP
    }
  }

  function Part(k: nat, n: nat): real
    requires n > 0
  {
    k as real / n as real
  }

  function PerSecond(amount: int, window: real): real
    requires window != 0.0
  {
    amount as real / window
  }

  /** `wall_clock_s or 1e-9`. */
  function Wall(result: LoadResult): (w: real)
    ensures w != 0.0
  {
    if result.wallClock == 0.0 then 0.000000001 else result.wallClock
  }

  /** The offered window; the wall clock only for a schedule without a span. */
  function Window(result: LoadResult): (w: real)
    ensures w != 0.0
  {
    if result.schedule.Duration() == 0.0 then Wall(result) else result.schedule.Duration()
  }

  function InWindow(records: seq<RequestRecord>, window: real): seq<RequestRecord> {
    Filter((r: RequestRecord) => r.finishedAt <= window, records)
  }

  function Met(records: seq<RequestRecord>, slo: ServiceLevel): seq<RequestRecord> {
    Filter((r: RequestRecord) => slo.MetBy(r), records)
  }

  function Tokens(records: seq<RequestRecord>): int {
    if records == [] then 0 else records[0].OutputTokens() + Tokens(records[1..])
  }

  function Ttfts(records: seq<RequestRecord>): seq<real> {
    FilterMap((r: RequestRecord) => r.TtftFromSchedule(), records)
  }

  function TtftsSend(records: seq<RequestRecord>): seq<real> {
    FilterMap((r: RequestRecord) => r.ttft, records)
  }

  function Tpots(records: seq<RequestRecord>): seq<real> {
    FilterMap((r: RequestRecord) => r.Tpot(), records)
  }

  function E2es(records: seq<RequestRecord>): seq<real> {
    Map((r: RequestRecord) => r.E2eFromSchedule(), records)
  }

  /** One rate step reduced to its summary. */
  function Summarise(result: LoadResult, slo: ServiceLevel): StepSummary {
    var completed, met := result.Completed(), Met(result.records, slo);
    var window := Window(result);
    var inWindow := InWindow(completed, window);
    var ttfts, tpots, e2es := Ttfts(completed), Tpots(completed), E2es(completed);
    StepSummary(
      offeredRate := result.schedule.AchievedRate(),
      requestedRate := result.schedule.rate,
      wallClock := Wall(result),
      sent := |result.records|,
      completed := |completed|,
      failed := |result.Failed()|,
      metSlo := |met|,
      completedRate := PerSecond(|inWindow|, window),
      goodput := PerSecond(|InWindow(met, window)|, window),
      tokensPerSecond := PerSecond(Tokens(inWindow), window),
      drainOvershoot := Wall(result) / window,
      ttftP50 := Percentile(ttfts, 50.0),
      ttftP90 := Percentile(ttfts, 90.0),
      ttftP95 := Percentile(ttfts, 95.0),
      ttftP99 := Percentile(ttfts, 99.0),
      tpotP50 := Percentile(tpots, 50.0),
      tpotP99 := Percentile(tpots, 99.0),
      e2eP50 := Percentile(e2es, 50.0),
      e2eP99 := Percentile(e2es, 99.0),
      maxScheduleLag := result.MaxScheduleLag(),
      ttftP99SendClock := Percentile(TtftsSend(completed), 99.0),
      clientPeakInFlight := ClientPeak(result))
  }

  // ----- the whole curve ---------------------------------------------------------------

  predicate RateLe(a: StepSummary, b: StepSummary) {
    a.offeredRate <= b.offeredRate
  }

  function Ordered(steps: seq<StepSummary>): seq<StepSummary> {
    Sort(steps, RateLe)
  }

  /** The last healthy rate before the first unhealthy step, `best` if that is the first one. */
  function Sustained(ordered: seq<StepSummary>, best: Option<real>): Option<real> {
    if ordered == [] || !ordered[0].Healthy() then best
    else Sustained(ordered[1..], Some(ordered[0].offeredRate))
  }

  function MaxSustainable(steps: seq<StepSummary>): Option<real> {
    Sustained(Ordered(steps), None)
  }

  method MaxSustainableRate(steps: seq<StepSummary>) returns (best: Option<real>)
    ensures best == MaxSustainable(steps)
  {
    var ordered := Ordered(steps);
    best := None;
    for i := 0 to |ordered|
      invariant MaxSustainable(steps) == Sustained(ordered[i..], best)
    {
      assert ordered[i..][1..] == ordered[i + 1..];
      if !ordered[i].Healthy() {
        return;
      }
      best := Some(ordered[i].offeredRate);
    }
  }

  /** `max(steps, key=goodput, default=None)`: the first of the largest. */
  function PeakGoodput(steps: seq<StepSummary>): Option<StepSummary> {
    if steps == [] then None
    else
      match PeakGoodput(steps[1..])
      case None => Some(steps[0])
      case Some(later) => if later.goodput > steps[0].goodput then Some(later) else Some(steps[0])
  }

  predicate GeneratorKeptUp(steps: seq<StepSummary>) {
    forall i :: 0 <= i < |steps| ==> steps[i].maxScheduleLag < 0.25
  }
}
