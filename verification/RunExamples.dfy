/** Runs of the open-loop runner that the counterexamples are made of, event by event. */
module RunExamples {
  import opened Seqs
  import opened Sorting
  import opened Requests
  import opened OpenLoop
  import opened Report
  import opened ReportProperties
  import opened ReplayProperties

  // ----- one request at any rate, answered well or not -------------------------------------

  function Quick(ok: bool): Answer {
    Returned(Some(0.0), 0.0, [], ok, None, None, None, None)
  }

  function OneRequest(due: real, ok: bool): seq<OpenLoop.Event> {
    [Launch(due), Begin(0, due), Finish(0, due, Quick(ok)), Drain([], due)]
  }

  /** A step for which `requested` was asked and `rate` was drawn. */
  function OneRun(requested: real, rate: real, ok: bool): LoadResult
    requires rate != 0.0
  {
    var due := 1.0 / rate;
    LoadResult(ArrivalSchedule([due], requested), [RecordOf(0, due, due, due, Quick(ok))], due, 1)
  }

  lemma RunOn(s: State, e: OpenLoop.Event, events: seq<OpenLoop.Event>)
    ensures Run(s, [e] + events) == Run(Next(s, e), events)
  {
    assert ([e] + events)[1..] == events;
  }

  /** Launched, sent and answered as soon as it is due. */
  lemma FirstAnswered(schedule: ArrivalSchedule, due: real, end: real, ok: bool, rest: seq<OpenLoop.Event>)
    requires schedule.offsets != [] && schedule.offsets[0] == due && 0.0 <= due <= end
    ensures Run(Initial(schedule), [Launch(due)] + ([Begin(0, due)] + ([Finish(0, end, Quick(ok))] + rest)))
         == Run(State(schedule, [Recorded], [RecordOf(0, due, due, end, Quick(ok))], 0, 1, end, None), rest)
  {
    var s := Initial(schedule);
    var launched := State(schedule, [Launched], [], 0, 0, due, None);
    var sent := State(schedule, [Running(due)], [], 1, 1, due, None);
    RunOn(s, Launch(due), [Begin(0, due)] + ([Finish(0, end, Quick(ok))] + rest));
    RunOn(launched, Begin(0, due), [Finish(0, end, Quick(ok))] + rest);
    RunOn(sent, Finish(0, end, Quick(ok)), rest);
    assert Next(s, Launch(due)) == launched;
    assert Next(launched, Begin(0, due)) == sent;
    assert Next(sent, Finish(0, end, Quick(ok)))
        == State(schedule, [Recorded], [RecordOf(0, due, due, end, Quick(ok))], 0, 1, end, None);
  }

  lemma OneRequestRuns(schedule: ArrivalSchedule, due: real, ok: bool)
    requires schedule.offsets == [due] && due > 0.0
    ensures Run(Initial(schedule), OneRequest(due, ok))
         == State(schedule, [Recorded], [RecordOf(0, due, due, due, Quick(ok))], 0, 1, due, Some(due))
  {
    var back := State(schedule, [Recorded], [RecordOf(0, due, due, due, Quick(ok))], 0, 1, due, None);
    assert OneRequest(due, ok) == [Launch(due)] + ([Begin(0, due)] + ([Finish(0, due, Quick(ok))] + [Drain([], due)]));
    FirstAnswered(schedule, due, due, ok, [Drain([], due)]);
    assert [Drain([], due)] == [Drain([], due)] + [];
    RunOn(back, Drain([], due), []);
    DrainsNothing(back, due);
  }

  /** With nothing pending and one record there is nothing to add and nothing to sort. */
  lemma DrainsNothing(s: State, at: real)
    requires s.tasks == [Recorded] && |s.schedule.offsets| == 1 && |s.records| == 1 && s.wallClock.None? && s.clock <= at
    ensures Next(s, Drain([], at)) == s.(clock := at, wallClock := Some(at))
  {
    assert s.tasks[1..] == [];
    assert Count(IsPending, s.tasks) == 0;
    assert s.records + Placeholders(s.schedule.Duration(), []) == s.records;
    SortFixed(s.records, IndexLe);
  }

  lemma InverseTwice(rate: real)
    requires rate > 0.0
    ensures 1.0 / rate > 0.0 && 1.0 / (1.0 / rate) == rate
  {
    QuotientPositive(1.0, rate);
    var q := 1.0 / rate;
    assert q * rate == 1.0;
    var r := 1.0 / q;
    assert r * q == 1.0;
    assert (r - rate) * q == 0.0;
  }

  /** It is a run, with everything that the lemmas about replays ask for, at that rate. */
  lemma OneRunIsRun(requested: real, rate: real, ok: bool)
    requires rate > 0.0
    ensures var result := OneRun(requested, rate, ok);
      IsRun(result) && KeptWhole(result) && result.schedule.rate == requested && result.schedule.AchievedRate() == rate
  {
    var result := OneRun(requested, rate, ok);
    InverseTwice(rate);
    OneRequestRuns(result.schedule, 1.0 / rate, ok);
    assert RunGives(result, OneRequest(1.0 / rate, ok));
    RunSettles(result);
  }

  lemma OneMet(records: seq<RequestRecord>, slo: ServiceLevel)
    requires |records| == 1
    ensures |Met(records, slo)| == if slo.MetBy(records[0]) then 1 else 0
  {
    var p := (r: RequestRecord) => slo.MetBy(r);
    assert records[1..] == [] && Filter(p, []) == [];
  }

  lemma OneRequestHealth(result: LoadResult, slo: ServiceLevel)
    requires |result.records| == 1
    ensures Summarise(result, slo).Healthy() <==> slo.MetBy(result.records[0])
  {
    KeepingUpIsImplied(result, slo);
    OneMet(result.records, slo);
    assert Part(1, 1) == 1.0 && Part(0, 1) == 0.0;
    assert Summarise(result, slo).sent == 1 && Summarise(result, slo).metSlo == |Met(result.records, slo)|;
  }

  /** For every positive rate and either verdict there is a run that is summarised so. */
  lemma AnyVerdictAtAnyRate(requested: real, rate: real, ok: bool, slo: ServiceLevel)
    requires rate > 0.0 && slo.ttft >= 0.0
    ensures IsRun(OneRun(requested, rate, ok))
    ensures var s := Summarise(OneRun(requested, rate, ok), slo); s.offeredRate == rate && (s.Healthy() <==> ok)
  {
    var result := OneRun(requested, rate, ok);
    OneRunIsRun(requested, rate, ok);
    OfferedOf(result, slo);
    OneRequestHealth(result, slo);
  }

  lemma RunSummarised(requested: real, rate: real, ok: bool, slo: ServiceLevel) returns (result: LoadResult)
    requires rate > 0.0 && slo.ttft >= 0.0
    ensures IsRun(result) && KeptWhole(result) && result.schedule.rate == requested
    ensures Summarise(result, slo).offeredRate == rate && (Summarise(result, slo).Healthy() <==> ok)
  {
    result := OneRun(requested, rate, ok);
    OneRunIsRun(requested, rate, ok);
    AnyVerdictAtAnyRate(requested, rate, ok, slo);
  }

  /** For example: missed at one request per second and met at two, so nothing counts as sustained. */
  lemma HealthyAboveNothing(slo: ServiceLevel)
    requires slo.ttft >= 0.0
    ensures var steps := Summaries([OneRun(1.0, 1.0, false), OneRun(2.0, 2.0, true)], slo);
      MaxSustainable(steps).None? && HealthyAbove(steps, None)
    ensures IsRun(OneRun(1.0, 1.0, false)) && IsRun(OneRun(2.0, 2.0, true))
  {
    var missed, met := OneRun(1.0, 1.0, false), OneRun(2.0, 2.0, true);
    AnyVerdictAtAnyRate(1.0, 1.0, false, slo);
    AnyVerdictAtAnyRate(2.0, 2.0, true, slo);
    MissedThenMet(Summaries([missed, met], slo));
  }

  lemma MissedThenMet(steps: seq<StepSummary>)
    requires |steps| == 2 && !steps[0].Healthy() && steps[1].Healthy() && steps[0].offeredRate < steps[1].offeredRate
    ensures MaxSustainable(steps).None? && HealthyAbove(steps, None)
  {
    SortFixed(steps, RateLe);
    assert steps[1] in steps;
  }

  // ----- two requests, the last of which never comes back ------------------------------------

  function LastLost(): seq<OpenLoop.Event> {
    [Launch(1.0), Begin(0, 1.0), Finish(0, 1.5, Quick(true)), Launch(2.0), Begin(1, 2.0), Drain([9.0], 9.0)]
  }

  function LostLast(): LoadResult {
    LoadResult(ArrivalSchedule([1.0, 2.0], 1.0), [Placeholder(2.0, 9.0), RecordOf(0, 1.0, 1.0, 1.5, Quick(true))], 9.0, 1)
  }

  lemma LastLostDrains(s: State)
    requires s.schedule.offsets == [1.0, 2.0] && s.tasks == [Recorded, Running(2.0)] && s.clock == 2.0 && s.wallClock.None?
    requires s.records == [RecordOf(0, 1.0, 1.0, 1.5, Quick(true))]
    ensures Next(s, Drain([9.0], 9.0)) == s.(records := LostLast().records, clock := 9.0, wallClock := Some(9.0))
  {
    var first, lost := s.records[0], Placeholder(2.0, 9.0);
    assert s.tasks[1..] == [Running(2.0)] && s.tasks[1..][1..] == [];
    assert Count(IsPending, s.tasks[1..]) == 1;
    assert Count(IsPending, s.tasks) == 1;
    assert Placeholders(2.0, [9.0]) == [lost];
    assert [first] + [lost] == [first, lost] && [first, lost][1..] == [lost] && [lost][1..] == [];
    assert Sort([lost], IndexLe) == [lost];
    assert Insert(first, [lost], IndexLe) == [lost] + Insert(first, [], IndexLe);
  }

  lemma LostLastIsRun()
    ensures IsRun(LostLast())
  {
    var schedule, record := LostLast().schedule, RecordOf(0, 1.0, 1.0, 1.5, Quick(true));
    var s3 := State(schedule, [Recorded], [record], 0, 1, 1.5, None);
    var rest := [Launch(2.0)] + ([Begin(1, 2.0)] + ([Drain([9.0], 9.0)] + []));
    assert LastLost() == [Launch(1.0)] + ([Begin(0, 1.0)] + ([Finish(0, 1.5, Quick(true))] + rest));
    FirstAnswered(schedule, 1.0, 1.5, true, rest);
    SecondLost(s3);
    assert RunGives(LostLast(), LastLost());
  }

  lemma SecondLost(s: State)
    requires s.schedule.offsets == [1.0, 2.0] && s.tasks == [Recorded] && s.clock == 1.5 && s.wallClock.None?
    requires s.current == 0 && s.peak == 1 && s.records == [RecordOf(0, 1.0, 1.0, 1.5, Quick(true))]
    ensures var last := Run(s, [Launch(2.0)] + ([Begin(1, 2.0)] + ([Drain([9.0], 9.0)] + [])));
      last.schedule == s.schedule && last.records == LostLast().records && last.wallClock == Some(9.0) && last.peak == 1
  {
    var launched := s.(tasks := [Recorded, Launched], clock := 2.0);
    var sent := launched.(tasks := [Recorded, Running(2.0)], current := 1);
    RunOn(s, Launch(2.0), [Begin(1, 2.0)] + ([Drain([9.0], 9.0)] + []));
    RunOn(launched, Begin(1, 2.0), [Drain([9.0], 9.0)] + []);
    RunOn(sent, Drain([9.0], 9.0), []);
    assert Next(s, Launch(2.0)) == launched;
    assert Next(launched, Begin(1, 2.0)) == sent;
    LastLostDrains(sent);
  }

  /** The span and offered rate of a step of two requests. */
  lemma TwoOffered(result: LoadResult, slo: ServiceLevel)
    requires |result.schedule.offsets| == 2 && result.schedule.offsets[1] > 0.0
    ensures Window(result) == result.schedule.offsets[1]
    ensures Summarise(result, slo).offeredRate == 2.0 / result.schedule.offsets[1]
  {
    OfferedOf(result, slo);
  }

  lemma ReplayedSpan(result: LoadResult)
    requires Sorted(result.records, IndexLe) && |result.records| == 2
    ensures |Replayed(result).schedule.offsets| == 2
    ensures Replayed(result).schedule.offsets[1] == result.records[1].scheduledAt
  {
    ReplayedRecords(result);
    assert Alike(result.records[1], Replayed(result).records[1]);
  }

  /**
   * A replay can differ from its run: here the last of two requests never came back, so the replay
   * takes its rates over one second where the run took them over two, and was offered twice as much.
   */
  lemma LostLastRequestMisread(slo: ServiceLevel)
    ensures exists result: LoadResult ::
      && IsRun(result) && Complete(result) && result.schedule.Valid()
      && |result.records| == 2 && result.records[0].index == -1 && result.records[1].index == 0
      && Window(result) == 2.0 && Window(Replayed(result)) == 1.0
      && Summarise(result, slo).offeredRate == 1.0 && Summarise(Replayed(result), slo).offeredRate == 2.0
  {
    var result := LostLastStep();
    ReplayedSpan(result);
    TwoOffered(result, slo);
    TwoOffered(Replayed(result), slo);
  }

  lemma LostLastStep() returns (result: LoadResult)
    ensures IsRun(result) && Complete(result) && result.schedule.Valid() && Sorted(result.records, IndexLe)
    ensures result.schedule.offsets == [1.0, 2.0] && |result.records| == 2
    ensures result.records[0].index == -1 && result.records[1].index == 0 && result.records[1].scheduledAt == 1.0
  {
    result := LostLast();
    LostLastIsRun();
  }
}
