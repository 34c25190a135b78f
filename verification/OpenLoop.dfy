/**
 * The open-loop runner (bench/load.py): one task per scheduled request, launched when it is due
 * whatever the server is doing.
 *
 * Every method is one uninterrupted stretch of the event loop; `Step` says what each of them does.
 * Clock readings and what the server does are in the events.
 */
module OpenLoop {
  import opened Seqs
  import opened Sorting
  import opened Requests

  /** Launched but not started, waiting for an answer, recorded, or ended by something no `except` catches. */
  datatype Task = Launched | Running(sentAt: real) | Recorded | Died

  /** What the client's call came to. */
  datatype Answer =
    | Raised(message: string)
    | Returned(ttft: Option<real>, e2e: real, itl: seq<real>, ok: bool, error: Option<string>,
               statusCode: Option<int>, promptTokens: Option<int>, completionTokens: Option<int>)

  datatype State = State(
    schedule: ArrivalSchedule,
    tasks: seq<Task>,
    records: seq<RequestRecord>,
    current: int,
    peak: int,
    clock: real,
    wallClock: Option<real>)

  datatype Event =
    | Launch(at: real)
    | Begin(index: nat, at: real)
    | Finish(index: nat, at: real, answer: Answer)
    | Die(index: nat, at: real)
    | Drain(stamps: seq<real>, at: real)

  predicate IsRunning(t: Task) {
    t.Running?
  }

  /** `asyncio.wait` gave it back as pending. */
  predicate IsPending(t: Task) {
    t.Launched? || t.Running?
  }

  predicate IndexLe(a: RequestRecord, b: RequestRecord) {
    a.index <= b.index
  }

  function RecordOf(index: nat, scheduledAt: real, sentAt: real, finishedAt: real, answer: Answer): RequestRecord {
    match answer
    case Raised(message) =>
      RequestRecord(index, scheduledAt, sentAt, finishedAt, None, 0.0, [], false, Some(message), None, None, None)
    case Returned(ttft, e2e, itl, ok, error, status, prompt, completion) =>
      RequestRecord(index, scheduledAt, sentAt, finishedAt, ttft, e2e, itl, ok, error, status, prompt, completion)
  }

  const NO_RESPONSE := "no response within the drain timeout"

  /** The failure that stands for a request that never came back. */
  function Placeholder(duration: real, finishedAt: real): RequestRecord {
    RequestRecord(-1, duration, duration, finishedAt, None, 0.0, [], false, Some(NO_RESPONSE), None, None, None)
  }

  function Placeholders(duration: real, stamps: seq<real>): seq<RequestRecord> {
    Map((t: real) => Placeholder(duration, t), stamps)
  }

  predicate Enabled(s: State, e: Event) {
    && s.wallClock.None?
    && s.clock <= e.at
    && match e
       case Launch(at) => |s.tasks| < |s.schedule.offsets| && s.schedule.offsets[|s.tasks|] <= at
       case Begin(i, _) => i < |s.tasks| && s.tasks[i].Launched?
       case Finish(i, _, _) => i < |s.tasks| && s.tasks[i].Running?
       case Die(i, _) => i < |s.tasks| && s.tasks[i].Running?
       case Drain(stamps, at) =>
         && |s.tasks| == |s.schedule.offsets|
         && |stamps| == Count(IsPending, s.tasks)
         && forall k :: 0 <= k < |stamps| ==> s.clock <= stamps[k] <= at
  }

  function Max(a: int, b: int): int {
    if a > b then a else b
  }

  function Step(s: State, e: Event): State
    requires Enabled(s, e) && |s.tasks| <= |s.schedule.offsets|
  {
    match e
    case Launch(at) => s.(tasks := s.tasks + [Launched], clock := at)
    case Begin(i, at) =>
      s.(tasks := s.tasks[i := Running(at)], current := s.current + 1, peak := Max(s.peak, s.current + 1), clock := at)
    case Finish(i, at, answer) =>
      s.(tasks := s.tasks[i := Recorded], current := s.current - 1, clock := at,
         records := s.records + [RecordOf(i, s.schedule.offsets[i], s.tasks[i].sentAt, at, answer)])
    case Die(i, at) => s.(tasks := s.tasks[i := Died], current := s.current - 1, clock := at)
    case Drain(stamps, at) =>
      s.(records := Sort(s.records + Placeholders(s.schedule.Duration(), stamps), IndexLe), clock := at, wallClock := Some(at))
  }

  /** An event that cannot happen changes nothing. */
  function Next(s: State, e: Event): State {
    if Enabled(s, e) && |s.tasks| <= |s.schedule.offsets| then Step(s, e) else s
  }

  function Run(s: State, events: seq<Event>): State
    decreases |events|
  {
    if events == [] then s else Run(Next(s, events[0]), events[1..])
  }

  function Initial(schedule: ArrivalSchedule): State {
    State(schedule, [], [], 0, 0, 0.0, None)
  }

  /** What the runner returns once it has drained. */
  function Result(s: State): LoadResult
    requires s.wallClock.Some? && s.peak >= 0
  {
    LoadResult(s.schedule, s.records, s.wallClock.value, s.peak)
  }

  // ----- the counter and the runner --------------------------------------------------------

  class InFlight {
    var current: int
    var peak: int

    constructor ()
      ensures current == 0 && peak == 0
    {
      current, peak := 0, 0;
    }

    method Enter()
      modifies this
      ensures current == old(current) + 1 && peak == Max(old(peak), old(current) + 1)
    {
      current := current + 1;
      peak := Max(peak, current);
    }

    method Exit()
      modifies this
      ensures current == old(current) - 1 && peak == old(peak)
    {
      current := current - 1;
    }
  }

  class Runner {
    const schedule: ArrivalSchedule
    const inFlight: InFlight
    var tasks: seq<Task>
    var records: seq<RequestRecord>
    var clock: real
    var wallClock: Option<real>

    function Now(): State
      reads this, inFlight
    {
      State(schedule, tasks, records, inFlight.current, inFlight.peak, clock, wallClock)
    }

    constructor (schedule: ArrivalSchedule)
      ensures Now() == Initial(schedule) && fresh(inFlight)
    {
      this.schedule := schedule;
      inFlight := new InFlight();
      tasks, records, clock, wallClock := [], [], 0.0, None;
    }

    /** The loop of `run_open_loop`, from the wake-up for one offset to the next sleep. */
    method LaunchNext(at: real)
      requires Enabled(Now(), Launch(at))
      modifies this
      ensures Now() == Step(old(Now()), Launch(at))
    {
      tasks := tasks + [Launched];
      clock := at;
    }

    /** A task's first step: `_one_request` up to the client's call. */
    method BeginRequest(index: nat, at: real)
      requires |tasks| <= |schedule.offsets| && Enabled(Now(), Begin(index, at))
      modifies this, inFlight
      ensures Now() == Step(old(Now()), Begin(index, at))
    {
      inFlight.Enter();
      tasks := tasks[index := Running(at)];
      clock := at;
    }

    /** The client's call ended one way or the other: its record, and the `finally`. */
    method FinishRequest(index: nat, at: real, answer: Answer)
      requires |tasks| <= |schedule.offsets| && Enabled(Now(), Finish(index, at, answer))
      modifies this, inFlight
      ensures Now() == Step(old(Now()), Finish(index, at, answer))
    {
      var sentAt := tasks[index].sentAt;
      records := records + [RecordOf(index, schedule.offsets[index], sentAt, at, answer)];
      inFlight.Exit();
      tasks := tasks[index := Recorded];
      clock := at;
    }

    /** Something that is not an `Exception`: no record, but the `finally` all the same. */
    method EndRequest(index: nat, at: real)
      requires |tasks| <= |schedule.offsets| && Enabled(Now(), Die(index, at))
      modifies this, inFlight
      ensures Now() == Step(old(Now()), Die(index, at))
    {
      inFlight.Exit();
      tasks := tasks[index := Died];
      clock := at;
    }

    /** After the wait: a failure for every pending task, and the records in order. */
    method DrainAll(stamps: seq<real>, at: real)
      requires |tasks| <= |schedule.offsets| && Enabled(Now(), Drain(stamps, at))
      modifies this
      ensures Now() == Step(old(Now()), Drain(stamps, at))
    {
      ghost var before := records;
      for k := 0 to |stamps|
        invariant Now() == old(Now()).(records := before + Placeholders(schedule.Duration(), stamps[..k]))
      {
        assert Placeholders(schedule.Duration(), stamps[..k + 1])
            == Placeholders(schedule.Duration(), stamps[..k]) + [Placeholder(schedule.Duration(), stamps[k])];
        records := records + [Placeholder(schedule.Duration(), stamps[k])];
      }
      assert stamps[..|stamps|] == stamps;
      records := Sort(records, IndexLe);
      clock := at;
      wallClock := Some(at);
    }
  }
}
