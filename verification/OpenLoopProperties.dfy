/** What every run of the open-loop runner keeps, whatever the server does with each request. */
module OpenLoopProperties {
  import opened Seqs
  import opened Sorting
  import opened Requests
  import opened InFlightPeak
  import opened OpenLoop

  predicate IsRecorded(t: Task) {
    t.Recorded?
  }

  predicate IsDead(t: Task) {
    t.Died?
  }

  function HasIndex(i: int): RequestRecord -> bool {
    (r: RequestRecord) => r.index == i
  }

  /** Running, and sent by `t`. */
  function SentBy(t: real): Task -> bool {
    (task: Task) => task.Running? && task.sentAt <= t
  }

  // ----- the invariant -----------------------------------------------------------------

  ghost predicate Counters(s: State) {
    && |s.tasks| <= |s.schedule.offsets|
    && (s.wallClock.Some? ==> |s.tasks| == |s.schedule.offsets| && s.clock == s.wallClock.value)
    && s.current == Count(IsRunning, s.tasks)
    && s.current <= s.peak
  }

  /** Placeholders only after the drain, one per pending task; one record for each task that recorded one. */
  ghost predicate Ledger(s: State) {
    && Count(HasIndex(-1), s.records) == (if s.wallClock.Some? then Count(IsPending, s.tasks) else 0)
    && (forall i: nat :: Count(HasIndex(i), s.records) == One(i < |s.tasks| && s.tasks[i].Recorded?))
    && |s.records| == Count(IsRecorded, s.tasks) + Count(HasIndex(-1), s.records)
    && (s.wallClock.Some? ==> Sorted(s.records, IndexLe))
  }

  /** A record of a request carries its own due time, and was sent no earlier. */
  ghost predicate Honest(r: RequestRecord, schedule: ArrivalSchedule, clock: real) {
    && 0 <= r.index < |schedule.offsets|
    && r.scheduledAt == schedule.offsets[r.index] <= r.sentAt <= r.finishedAt <= clock
  }

  ghost predicate IsPlaceholder(r: RequestRecord, schedule: ArrivalSchedule, clock: real) {
    r.finishedAt <= clock && r == Placeholder(schedule.Duration(), r.finishedAt)
  }

  ghost predicate Clocks(s: State) {
    && (forall i :: 0 <= i < |s.tasks| && i < |s.schedule.offsets| ==> s.schedule.offsets[i] <= s.clock)
    && (forall i :: 0 <= i < |s.tasks| && i < |s.schedule.offsets| && s.tasks[i].Running? ==>
          s.schedule.offsets[i] <= s.tasks[i].sentAt <= s.clock)
    && (forall k :: 0 <= k < |s.records| ==>
          Honest(s.records[k], s.schedule, s.clock) || (s.wallClock.Some? && IsPlaceholder(s.records[k], s.schedule, s.clock)))
  }

  /** At no instant were more requests outstanding than the peak. */
  ghost predicate Overlaps(s: State) {
    forall t: real :: Overlap(s.records, t) + Count(SentBy(t), s.tasks) <= s.peak
  }

  ghost predicate Good(s: State) {
    Counters(s) && Ledger(s) && Clocks(s) && Overlaps(s)
  }

  lemma InitiallyGood(schedule: ArrivalSchedule)
    ensures Good(Initial(schedule))
  {}

  // ----- one step at a time --------------------------------------------------------------

  lemma TaskCounts(tasks: seq<Task>, i: nat, task: Task)
    requires i < |tasks|
    ensures Count(IsRunning, tasks[i := task]) == Count(IsRunning, tasks) - One(IsRunning(tasks[i])) + One(IsRunning(task))
    ensures Count(IsRecorded, tasks[i := task]) == Count(IsRecorded, tasks) - One(IsRecorded(tasks[i])) + One(IsRecorded(task))
  {
    CountUpdate(IsRunning, tasks, i, task);
    CountUpdate(IsRecorded, tasks, i, task);
  }

  lemma LaunchKeeps(s: State, at: real)
    requires Good(s) && Enabled(s, Launch(at))
    ensures Good(Step(s, Launch(at)))
  {
    var t := Step(s, Launch(at));
    CountConcat(IsRunning, s.tasks, [Launched]);
    CountConcat(IsRecorded, s.tasks, [Launched]);
    forall u: real ensures Overlap(t.records, u) + Count(SentBy(u), t.tasks) <= t.peak {
      CountConcat(SentBy(u), s.tasks, [Launched]);
    }
  }

  lemma BeginKeeps(s: State, i: nat, at: real)
    requires Good(s) && Enabled(s, Begin(i, at))
    ensures Good(Step(s, Begin(i, at)))
  {
    var t := Step(s, Begin(i, at));
    TaskCounts(s.tasks, i, Running(at));
    forall u: real ensures Overlap(t.records, u) + Count(SentBy(u), t.tasks) <= t.peak {
      CountUpdate(SentBy(u), s.tasks, i, Running(at));
      if at <= u {
        NothingLater(s.records, u);
        RunningBound(t.tasks, u);
      }
    }
  }

  /** Records are of the past. */
  lemma {:induction false} NothingLater(records: seq<RequestRecord>, u: real)
    requires forall k :: 0 <= k < |records| ==> records[k].finishedAt <= u
    ensures Overlap(records, u) == 0
  {
    if records != [] {
      NothingLater(records[1..], u);
    }
  }

  lemma RunningBound(tasks: seq<Task>, u: real)
    ensures Count(SentBy(u), tasks) <= Count(IsRunning, tasks)
  {
    CountMonotone(SentBy(u), IsRunning, tasks);
  }

  lemma OneMoreRecord(records: seq<RequestRecord>, r: RequestRecord, i: int, u: real)
    ensures Count(HasIndex(i), records + [r]) == Count(HasIndex(i), records) + One(r.index == i)
    ensures Overlap(records + [r], u) == Overlap(records, u) + One(Outstanding(r, u))
  {
    CountConcat(HasIndex(i), records, [r]);
    CountConcat((r: RequestRecord) => Outstanding(r, u), records, [r]);
  }

  lemma FinishKeeps(s: State, i: nat, at: real, answer: Answer)
    requires Good(s) && Enabled(s, Finish(i, at, answer))
    ensures Good(Step(s, Finish(i, at, answer)))
  {
    var t := Step(s, Finish(i, at, answer));
    var r := RecordOf(i, s.schedule.offsets[i], s.tasks[i].sentAt, at, answer);
    TaskCounts(s.tasks, i, Recorded);
    OneMoreRecord(s.records, r, -1, at);
    forall j: nat ensures Count(HasIndex(j), t.records) == One(j < |t.tasks| && t.tasks[j].Recorded?) {
      OneMoreRecord(s.records, r, j, at);
    }
    forall u: real ensures Overlap(t.records, u) + Count(SentBy(u), t.tasks) <= t.peak {
      OneMoreRecord(s.records, r, -1, u);
      CountUpdate(SentBy(u), s.tasks, i, Recorded);
    }
  }

  lemma DieKeeps(s: State, i: nat, at: real)
    requires Good(s) && Enabled(s, Die(i, at))
    ensures Good(Step(s, Die(i, at)))
  {
    var t := Step(s, Die(i, at));
    TaskCounts(s.tasks, i, Died);
    forall u: real ensures Overlap(t.records, u) + Count(SentBy(u), t.tasks) <= t.peak {
      CountUpdate(SentBy(u), s.tasks, i, Died);
    }
  }

  lemma {:induction false} PlaceholderCounts(duration: real, stamps: seq<real>, i: int, u: real)
    ensures Count(HasIndex(i), Placeholders(duration, stamps)) == if i == -1 then |stamps| else 0
    ensures Overlap(Placeholders(duration, stamps), u) == 0
  {
    if stamps != [] {
      PlaceholderCounts(duration, stamps[1..], i, u);
      assert Placeholders(duration, stamps)[1..] == Placeholders(duration, stamps[1..]);
    }
  }

  lemma DrainCounts(s: State, stamps: seq<real>, at: real, i: int, u: real)
    requires Enabled(s, Drain(stamps, at)) && |s.tasks| <= |s.schedule.offsets|
    ensures var t := Step(s, Drain(stamps, at));
      && Count(HasIndex(i), t.records) == Count(HasIndex(i), s.records) + (if i == -1 then |stamps| else 0)
      && Overlap(t.records, u) == Overlap(s.records, u)
      && |t.records| == |s.records| + |stamps|
  {
    var more := Placeholders(s.schedule.Duration(), stamps);
    var t := Step(s, Drain(stamps, at));
    SortPermutes(s.records + more, IndexLe);
    CountPermuted(HasIndex(i), s.records + more, t.records);
    CountPermuted((r: RequestRecord) => Outstanding(r, u), s.records + more, t.records);
    CountConcat(HasIndex(i), s.records, more);
    CountConcat((r: RequestRecord) => Outstanding(r, u), s.records, more);
    PlaceholderCounts(s.schedule.Duration(), stamps, i, u);
  }

  lemma DrainKeeps(s: State, stamps: seq<real>, at: real)
    requires Good(s) && Enabled(s, Drain(stamps, at))
    ensures Good(Step(s, Drain(stamps, at)))
  {
    var t := Step(s, Drain(stamps, at));
    DrainCounts(s, stamps, at, -1, at);
    forall i: nat ensures Count(HasIndex(i), t.records) == One(i < |t.tasks| && t.tasks[i].Recorded?) {
      DrainCounts(s, stamps, at, i, at);
    }
    forall u: real ensures Overlap(t.records, u) + Count(SentBy(u), t.tasks) <= t.peak {
      DrainCounts(s, stamps, at, -1, u);
    }
    DrainClocks(s, stamps, at);
    assert TotalPreorder(IndexLe);
    SortSorts(s.records + Placeholders(s.schedule.Duration(), stamps), IndexLe);
  }

  lemma DrainedRecord(s: State, stamps: seq<real>, at: real, r: RequestRecord)
    requires Good(s) && Enabled(s, Drain(stamps, at)) && r in s.records + Placeholders(s.schedule.Duration(), stamps)
    ensures Honest(r, s.schedule, at) || IsPlaceholder(r, s.schedule, at)
  {
    var all := s.records + Placeholders(s.schedule.Duration(), stamps);
    var j :| 0 <= j < |all| && all[j] == r;
  }

  lemma DrainClocks(s: State, stamps: seq<real>, at: real)
    requires Good(s) && Enabled(s, Drain(stamps, at))
    ensures Clocks(Step(s, Drain(stamps, at)))
  {
    var t := Step(s, Drain(stamps, at));
    var all := s.records + Placeholders(s.schedule.Duration(), stamps);
    SortPermutes(all, IndexLe);
    forall k | 0 <= k < |t.records|
      ensures Honest(t.records[k], t.schedule, t.clock) || IsPlaceholder(t.records[k], t.schedule, t.clock)
    {
      assert t.records[k] in t.records;
      DrainedRecord(s, stamps, at, t.records[k]);
    }
  }

  lemma StepKeeps(s: State, e: OpenLoop.Event)
    requires Good(s) && Enabled(s, e)
    ensures Good(Step(s, e))
  {
    match e
    case Launch(at) => LaunchKeeps(s, at);
    case Begin(i, at) => BeginKeeps(s, i, at);
    case Finish(i, at, answer) => FinishKeeps(s, i, at, answer);
    case Die(i, at) => DieKeeps(s, i, at);
    case Drain(stamps, at) => DrainKeeps(s, stamps, at);
  }

  lemma {:induction false} RunKeeps(s: State, events: seq<OpenLoop.Event>)
    requires Good(s)
    ensures Good(Run(s, events)) && Run(s, events).schedule == s.schedule
    decreases |events|
  {
    if events != [] {
      if Enabled(s, events[0]) {
        StepKeeps(s, events[0]);
      }
      RunKeeps(Next(s, events[0]), events[1..]);
    }
  }

  // ----- one record for each request ---------------------------------------------------------

  /** Launched, running, recorded or dead: a task is one of these. */
  lemma {:induction false} TasksSplit(tasks: seq<Task>)
    ensures |tasks| == Count(IsPending, tasks) + Count(IsRecorded, tasks) + Count(IsDead, tasks)
  {
    if tasks != [] {
      TasksSplit(tasks[1..]);
    }
  }

  /**
   * After the drain every scheduled request is accounted for: its own record, exactly one, if it
   * was answered, one placeholder if it was not; and nothing at all only if its task died.
   */
  lemma EveryRequestRecorded(schedule: ArrivalSchedule, events: seq<OpenLoop.Event>)
    requires Run(Initial(schedule), events).wallClock.Some?
    ensures var s := Run(Initial(schedule), events);
      && |s.tasks| == |schedule.offsets| == |s.records| + Count(IsDead, s.tasks)
      && (forall i: nat :: i < |s.tasks| ==> Count(HasIndex(i), s.records) == One(s.tasks[i].Recorded?))
      && Count(HasIndex(-1), s.records) == Count(IsPending, s.tasks)
      && forall k :: 0 <= k < |s.records| ==>
           Honest(s.records[k], schedule, s.clock) || IsPlaceholder(s.records[k], schedule, s.clock)
  {
    InitiallyGood(schedule);
    RunKeeps(Initial(schedule), events);
    TasksSplit(Run(Initial(schedule), events).tasks);
  }

  /** The k-th launch is the k-th offset, and never early: launch order and indices come from the schedule alone. */
  lemma LaunchesFollowSchedule(schedule: ArrivalSchedule, events: seq<OpenLoop.Event>)
    ensures var s := Run(Initial(schedule), events);
      && |s.tasks| <= |schedule.offsets| && (forall i :: 0 <= i < |s.tasks| ==> schedule.offsets[i] <= s.clock)
      && forall k :: 0 <= k < |s.records| && s.records[k].index >= 0 ==>
           s.records[k].index < |s.tasks| && s.records[k].scheduledAt == schedule.offsets[s.records[k].index] <= s.records[k].sentAt
  {
    InitiallyGood(schedule);
    RunKeeps(Initial(schedule), events);
    var s := Run(Initial(schedule), events);
    forall k | 0 <= k < |s.records| && s.records[k].index >= 0 ensures s.records[k].index < |s.tasks| {
      CountSome(HasIndex(s.records[k].index), s.records, k);
    }
  }

  /** The drained records: the placeholders, then the answers in schedule order. */
  ghost predicate InScheduleOrder(records: seq<RequestRecord>) {
    forall j, k :: 0 <= j < k < |records| ==> records[j].index < records[k].index || records[j].index == records[k].index == -1
  }

  lemma DrainedInOrder(schedule: ArrivalSchedule, events: seq<OpenLoop.Event>)
    requires Run(Initial(schedule), events).wallClock.Some?
    ensures InScheduleOrder(Run(Initial(schedule), events).records)
  {
    InitiallyGood(schedule);
    RunKeeps(Initial(schedule), events);
    var records := Run(Initial(schedule), events).records;
    forall j, k | 0 <= j < k < |records| ensures records[j].index < records[k].index || records[j].index == records[k].index == -1 {
      assert IndexLe(records[j], records[k]);
      if records[j].index == records[k].index {
        CountTwice(HasIndex(records[j].index), records, j, k);
      }
    }
  }

  /** When everything came back, the records are the schedule, offset by offset. */
  lemma AnsweredRunIsTheSchedule(schedule: ArrivalSchedule, events: seq<OpenLoop.Event>)
    requires var s := Run(Initial(schedule), events);
      s.wallClock.Some? && forall i :: 0 <= i < |s.tasks| ==> s.tasks[i].Recorded?
    ensures var s := Run(Initial(schedule), events);
      && |s.records| == |schedule.offsets|
      && forall k :: 0 <= k < |s.records| ==> s.records[k].index == k && s.records[k].scheduledAt == schedule.offsets[k]
  {
    EveryRequestRecorded(schedule, events);
    DrainedInOrder(schedule, events);
    var s := Run(Initial(schedule), events);
    AllRecorded(s.tasks);
    var n := |s.records|;
    forall k | 0 <= k < n ensures 0 <= s.records[k].index < n {
      if s.records[k].index == -1 {
        CountSome(HasIndex(-1), s.records, k);
      }
    }
    forall k | 0 <= k < n ensures s.records[k].index == k {
      RisesFast(s.records, k);
      RisesNoFaster(s.records, k);
    }
  }

  lemma {:induction false} RisesFast(records: seq<RequestRecord>, k: nat)
    requires k < |records| && forall j :: 0 <= j < |records| ==> records[j].index >= 0
    requires InScheduleOrder(records)
    ensures records[k].index >= k
  {
    if k > 0 {
      RisesFast(records, k - 1);
    }
  }

  lemma {:induction false} RisesNoFaster(records: seq<RequestRecord>, k: nat)
    requires k < |records| && forall j :: 0 <= j < |records| ==> 0 <= records[j].index < |records|
    requires InScheduleOrder(records)
    ensures records[k].index <= k
    decreases |records| - k
  {
    if k < |records| - 1 {
      RisesNoFaster(records, k + 1);
    }
  }

  lemma {:induction false} AllRecorded(tasks: seq<Task>)
    requires forall i :: 0 <= i < |tasks| ==> tasks[i].Recorded?
    ensures Count(IsPending, tasks) == 0 && Count(IsDead, tasks) == 0
  {
    if tasks != [] {
      AllRecorded(tasks[1..]);
    }
  }

  // ----- what a record says --------------------------------------------------------------------

  lemma {:induction false} RunOneMore(s: State, events: seq<OpenLoop.Event>, e: OpenLoop.Event)
    ensures Run(s, events + [e]) == Next(Run(s, events), e)
    decreases |events|
  {
    if events == [] {
      assert events + [e] == [e];
    } else {
      assert (events + [e])[1..] == events[1..] + [e];
      RunOneMore(Next(s, events[0]), events[1..], e);
    }
  }

  /** The record tells what the client's call came to: a raise is a failure without any timing. */
  ghost predicate Reports(r: RequestRecord, answer: Answer) {
    match answer
    case Raised(message) => !r.ok && r.error == Some(message) && r.ttft.None? && r.itl == [] && r.e2e == 0.0
    case Returned(ttft, e2e, itl, ok, error, status, prompt, completion) =>
      && r.ok == ok && r.ttft == ttft && r.e2e == e2e && r.itl == itl && r.error == error
      && r.statusCode == status && r.promptTokens == prompt && r.completionTokens == completion
  }

  /** The request was begun when the record says it was sent, and ended then with what the record reports. */
  ghost predicate Witnessed(r: RequestRecord, events: seq<OpenLoop.Event>)
    requires r.index >= 0
  {
    && Begin(r.index, r.sentAt) in events
    && exists answer: Answer :: Reports(r, answer) && Finish(r.index, r.finishedAt, answer) in events
  }

  ghost predicate Traced(s: State, events: seq<OpenLoop.Event>) {
    && (forall i :: 0 <= i < |s.tasks| && s.tasks[i].Running? ==> Begin(i, s.tasks[i].sentAt) in events)
    && forall k :: 0 <= k < |s.records| && s.records[k].index >= 0 ==> Witnessed(s.records[k], events)
  }

  lemma TracedOneMore(s: State, events: seq<OpenLoop.Event>, e: OpenLoop.Event)
    requires Traced(s, events) && Enabled(s, e) && |s.tasks| <= |s.schedule.offsets|
    ensures Traced(Step(s, e), events + [e])
  {
    var t := Step(s, e);
    assert forall x :: x in events ==> x in events + [e];
    assert e in events + [e];
    if e.Finish? {
      var r := t.records[|s.records|];
      assert Reports(r, e.answer);
      assert Begin(r.index, r.sentAt) in events;
    } else if e.Drain? {
      var all := s.records + Placeholders(s.schedule.Duration(), e.stamps);
      SortPermutes(all, IndexLe);
      forall k | 0 <= k < |t.records| && t.records[k].index >= 0 ensures Witnessed(t.records[k], events + [e]) {
        assert t.records[k] in t.records;
        var j :| 0 <= j < |all| && all[j] == t.records[k];
        assert Witnessed(all[j], events);
      }
    }
  }

  /** Every record is what really happened to its request. */
  lemma {:induction false} RecordsAreAnswers(schedule: ArrivalSchedule, events: seq<OpenLoop.Event>)
    ensures Traced(Run(Initial(schedule), events), events)
    decreases |events|
  {
    if events != [] {
      var front, e := events[..|events| - 1], events[|events| - 1];
      RecordsAreAnswers(schedule, front);
      assert events == front + [e];
      RunOneMore(Initial(schedule), front, e);
      var s := Run(Initial(schedule), front);
      if Enabled(s, e) && |s.tasks| <= |s.schedule.offsets| {
        TracedOneMore(s, front, e);
      } else {
        StillTraced(s, front, e);
      }
    }
  }

  lemma StillTraced(s: State, events: seq<OpenLoop.Event>, e: OpenLoop.Event)
    requires Traced(s, events)
    ensures Traced(s, events + [e])
  {
    assert forall x :: x in events ==> x in events + [e];
  }

  // ----- the peak ------------------------------------------------------------------------------

  function RunningAfter(schedule: ArrivalSchedule, events: seq<OpenLoop.Event>): nat {
    Count(IsRunning, Run(Initial(schedule), events).tasks)
  }

  lemma PeakOneMore(s: State, e: OpenLoop.Event)
    requires Good(s)
    ensures var t := Next(s, e);
      && t.peak >= s.peak && t.peak >= Count(IsRunning, t.tasks)
      && (t.peak == s.peak || t.peak == Count(IsRunning, t.tasks))
  {
    if Enabled(s, e) {
      StepKeeps(s, e);
    }
  }

  /** The peak is the most requests running after any prefix of the run: never exceeded, and reached. */
  lemma {:induction false} PeakIsMostRunning(schedule: ArrivalSchedule, events: seq<OpenLoop.Event>)
    ensures var peak := Run(Initial(schedule), events).peak;
      && (forall k :: 0 <= k <= |events| ==> RunningAfter(schedule, events[..k]) <= peak)
      && exists k :: 0 <= k <= |events| && RunningAfter(schedule, events[..k]) == peak
    decreases |events|
  {
    assert events[..|events|] == events;
    if events == [] {
      assert RunningAfter(schedule, events[..0]) == 0;
    } else {
      var front, e := events[..|events| - 1], events[|events| - 1];
      PeakIsMostRunning(schedule, front);
      assert events == front + [e];
      RunOneMore(Initial(schedule), front, e);
      InitiallyGood(schedule);
      RunKeeps(Initial(schedule), front);
      PeakOneMore(Run(Initial(schedule), front), e);
      assert forall k :: 0 <= k <= |front| ==> front[..k] == events[..k];
      var k :| 0 <= k <= |front| && RunningAfter(schedule, front[..k]) == Run(Initial(schedule), front).peak;
      assert RunningAfter(schedule, events[..k]) == Run(Initial(schedule), front).peak;
    }
  }

  /** The peak reconstructed from the records of a run is never above the one counted live. */
  lemma ReconstructedNotAbove(schedule: ArrivalSchedule, events: seq<OpenLoop.Event>, replay: LoadResult)
    requires var s := Run(Initial(schedule), events);
      s.wallClock.Some? && replay.records == s.records && replay.peakInFlight == 0
    ensures ClientPeak(replay).Some? ==> ClientPeak(replay).value <= Run(Initial(schedule), events).peak
  {
    InitiallyGood(schedule);
    RunKeeps(Initial(schedule), events);
    var s := Run(Initial(schedule), events);
    ReconstructedPeak(replay);
    if ClientPeak(replay).Some? {
      var t: real :| Overlap(replay.records, t) == ClientPeak(replay).value;
      assert Overlap(s.records, t) + Count(SentBy(t), s.tasks) <= s.peak;
    }
  }

  // ----- what can happen, and what a missing answer leaves ------------------------------------------

  /** Before the drain every task can take each of its steps at any time from now on, whatever the others do. */
  lemma TasksAreFree(s: State, i: nat, at: real, answer: Answer)
    requires s.wallClock.None? && i < |s.tasks| <= |s.schedule.offsets| && s.clock <= at
    ensures s.tasks[i].Launched? ==> Next(s, Begin(i, at)).tasks == s.tasks[i := Running(at)]
    ensures s.tasks[i].Running? ==>
      && Next(s, Finish(i, at, answer)).tasks == s.tasks[i := Recorded]
      && Next(s, Finish(i, at, answer)).records == s.records + [RecordOf(i, s.schedule.offsets[i], s.tasks[i].sentAt, at, answer)]
    ensures s.tasks[i].Running? ==> Next(s, Die(i, at)).tasks == s.tasks[i := Died] && Next(s, Die(i, at)).records == s.records
  {}

  /** The next task can be launched as soon as it is due, however many are unanswered. */
  lemma LaunchIsFree(s: State, at: real)
    requires s.wallClock.None? && |s.tasks| < |s.schedule.offsets| && s.clock <= at && s.schedule.offsets[|s.tasks|] <= at
    ensures Next(s, Launch(at)).tasks == s.tasks + [Launched]
  {}

  /** And when all were launched the run can end, at any time, whatever came back. */
  lemma DrainIsFree(s: State, stamps: seq<real>, at: real)
    requires s.wallClock.None? && |s.tasks| == |s.schedule.offsets| && s.clock <= at
    requires |stamps| == Count((t: Task) => t.Launched? || t.Running?, s.tasks)
    requires forall k :: 0 <= k < |stamps| ==> s.clock <= stamps[k] <= at
    ensures Next(s, Drain(stamps, at)).wallClock == Some(at)
    ensures multiset(Next(s, Drain(stamps, at)).records) == multiset(s.records) + multiset(Placeholders(s.schedule.Duration(), stamps))
  {
    CountMonotone(IsPending, (t: Task) => t.Launched? || t.Running?, s.tasks);
    CountMonotone((t: Task) => t.Launched? || t.Running?, IsPending, s.tasks);
    SortPermutes(s.records + Placeholders(s.schedule.Duration(), stamps), IndexLe);
  }

  /** What stands for a request that never came back: a failure, due and sent when the schedule ends, with nothing measured. */
  predicate IsMissing(r: RequestRecord, end: real) {
    && r.index == -1 && !r.ok && r.error == Some("no response within the drain timeout")
    && r.scheduledAt == r.sentAt == end && r.ttft.None? && r.e2e == 0.0 && r.itl == []
    && r.statusCode.None? && r.promptTokens.None? && r.completionTokens.None?
  }

  /** In every run a record with no index of a request is such a failure. */
  lemma MissingAreFailures(schedule: ArrivalSchedule, events: seq<OpenLoop.Event>, k: nat)
    requires var s := Run(Initial(schedule), events); s.wallClock.Some? && k < |s.records| && s.records[k].index < 0
    ensures var s := Run(Initial(schedule), events); IsMissing(s.records[k], schedule.Duration()) && s.records[k].finishedAt <= s.clock
  {
    InitiallyGood(schedule);
    RunKeeps(Initial(schedule), events);
  }
}
