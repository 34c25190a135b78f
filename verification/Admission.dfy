/**
 * The gateway's admission protocol: the controller (gateway/limits.py) and the requests that
 * take and give back its slots (gateway/app.py).
 *
 * Every method below is one uninterrupted stretch of the event loop, from one suspension to the
 * next, so any interleaving of requests is a sequence of these calls. `Step` says what each of
 * them does to the whole state.
 */
module Admission {
  import opened Seqs

  datatype Why = TimedOut | Cancelled

  datatype Outcome = Refused | Withdrawn | Ended | BrokenReply

  datatype Phase =
    | Queued                                // asleep in the semaphore's queue
    | Granted                               // woken with a permit, not yet resumed
    | Aborting(why: Why, granted: bool)     // told to give up, not yet resumed
    | Calling                               // holds a slot, waiting for the engine
    | Flowing(started: bool, chunks: nat)   // the handler has returned, the body holds the slot
    | Leaked                                // a body that nobody ever started to read
    | Done(outcome: Outcome)

  /** What a request has done so far with its slot, its stream and its metrics. */
  datatype Action = Took | Relayed | GaveBack | Recorded(chunks: nat, completed: bool)

  datatype Request = Request(stream: bool, phase: Phase, history: seq<Action>)

  datatype State = State(
    capacity: nat,
    maxQueueWait: real,
    value: nat,
    waiters: seq<nat>,
    inFlight: nat,
    waiting: int,
    admittedTotal: nat,
    rejectedTotal: nat,
    requests: seq<Request>)

  datatype Event =
    | Arrive(stream: bool)
    | Expire(id: nat)
    | Cancel(id: nat)
    | Resume(id: nat)
    | Fail(id: nat)
    | Reply(id: nat, broken: bool)
    | Open(id: nat)
    | Start(id: nat)
    | Chunk(id: nat)
    | Close(id: nat, completed: bool, recorded: bool)
    | Drop(id: nat)

  // ----- the semaphore -------------------------------------------------------------

  predicate IsQueued(r: Request) {
    r.phase.Queued?
  }

  /** A permit is set aside for it. */
  predicate Holds(r: Request) {
    r.phase.Granted? || (r.phase.Aborting? && r.phase.granted)
  }

  /** Its future is in the semaphore's queue. */
  predicate Waits(r: Request) {
    r.phase.Queued? || r.phase.Granted? || r.phase.Aborting?
  }

  /** `Semaphore.locked`: no permit, or somebody not cancelled is already in line. */
  predicate Locked(s: State) {
    s.value == 0 || exists k :: 0 <= k < |s.waiters| && InLine(s.waiters[k], s.requests)
  }

  predicate InLine(id: nat, requests: seq<Request>) {
    id < |requests| && (IsQueued(requests[id]) || Holds(requests[id]))
  }

  /** The first waiter that is still asleep. */
  function FirstQueued(waiters: seq<nat>, requests: seq<Request>): (r: Option<nat>)
    ensures r.Some? ==> r.value in waiters && r.value < |requests| && IsQueued(requests[r.value])
    ensures r.None? ==> forall w :: w in waiters && w < |requests| ==> !IsQueued(requests[w])
  {
    if waiters == [] then None
    else if waiters[0] < |requests| && IsQueued(requests[waiters[0]]) then Some(waiters[0])
    else FirstQueued(waiters[1..], requests)
  }

  function Put(s: State, id: nat, phase: Phase, more: seq<Action>): State
    requires id < |s.requests|
  {
    var r := s.requests[id];
    s.(requests := s.requests[id := Request(r.stream, phase, r.history + more)])
  }

  function Wake(s: State): (t: State)
    requires s.value > 0
    ensures t.capacity == s.capacity && t.maxQueueWait == s.maxQueueWait
  {
    match FirstQueued(s.waiters, s.requests)
    case None => s
    case Some(id) => Put(s.(value := s.value - 1), id, Granted, [])
  }

  /** Wake as many as the free permits allow. */
  function WakeAll(s: State): (t: State)
    ensures t.capacity == s.capacity && t.maxQueueWait == s.maxQueueWait
    decreases s.value
  {
    if s.value == 0 || FirstQueued(s.waiters, s.requests).None? then s else WakeAll(Wake(s))
  }

  function Remove(waiters: seq<nat>, id: nat): seq<nat> {
    if waiters == [] then []
    else if waiters[0] == id then waiters[1..]
    else [waiters[0]] + Remove(waiters[1..], id)
  }

  // ----- one step -------------------------------------------------------------------

  predicate Enabled(s: State, e: Event) {
    match e
    case Arrive(_) => true
    case _ =>
      && e.id < |s.requests|
      && var r := s.requests[e.id];
      match e
      case Arrive(_) => false
      case Expire(_) => r.phase.Queued? || r.phase.Granted?
      case Cancel(_) => Waits(r)
      case Resume(_) => r.phase.Granted? || r.phase.Aborting?
      case Fail(_) => r.phase.Calling?
      case Reply(_, _) => r.phase.Calling? && !r.stream
      case Open(_) => r.phase.Calling? && r.stream
      case Start(_) => r.phase.Flowing? && !r.phase.started
      case Chunk(_) => r.phase.Flowing? && r.phase.started
      case Close(_, _, _) => r.phase.Flowing? && r.phase.started
      case Drop(_) => r.phase.Flowing? && !r.phase.started
  }

  function Arrived(s: State, stream: bool): State {
    if s.maxQueueWait <= 0.0 && Locked(s) then
      s.(rejectedTotal := s.rejectedTotal + 1, requests := s.requests + [Request(stream, Done(Refused), [])])
    else if !Locked(s) then
      s.(value := s.value - 1, inFlight := s.inFlight + 1, admittedTotal := s.admittedTotal + 1,
         requests := s.requests + [Request(stream, Calling, [Took])])
    else
      s.(waiting := s.waiting + 1, waiters := s.waiters + [|s.requests|],
         requests := s.requests + [Request(stream, Queued, [])])
  }

  function Aborted(r: Request, why: Why): Phase {
    Aborting(why, Holds(r))
  }

  /** The waiter leaves the queue, giving `back` the permit it does not keep. */
  function Left(s: State, id: nat, phase: Phase, more: seq<Action>, back: nat): State
    requires id < |s.requests|
  {
    var t := Put(s, id, phase, more);
    t.(waiters := Remove(t.waiters, id), value := t.value + back, waiting := t.waiting - 1)
  }

  function LeftQueue(s: State, id: nat, phase: Phase, more: seq<Action>, back: nat): State
    requires id < |s.requests|
  {
    WakeAll(Left(s, id, phase, more, back))
  }

  function Resumed(s: State, id: nat): State
    requires id < |s.requests| && (s.requests[id].phase.Granted? || s.requests[id].phase.Aborting?)
  {
    var phase := s.requests[id].phase;
    if phase.Granted? then
      var t := LeftQueue(s, id, Calling, [Took], 0);
      t.(inFlight := t.inFlight + 1, admittedTotal := t.admittedTotal + 1)
    else
      var back := if phase.granted then 1 else 0;
      if phase.why == TimedOut then
        var t := LeftQueue(s, id, Done(Refused), [], back);
        t.(rejectedTotal := t.rejectedTotal + 1)
      else
        LeftQueue(s, id, Done(Withdrawn), [], back)
  }

  function Released(s: State): State {
    if s.inFlight <= 0 then s
    else Wake(s.(inFlight := s.inFlight - 1, value := s.value + 1))
  }

  function Step(s: State, e: Event): (t: State)
    requires Enabled(s, e)
    ensures t.capacity == s.capacity && t.maxQueueWait == s.maxQueueWait
  {
    match e
    case Arrive(stream) => Arrived(s, stream)
    case Expire(id) => Put(s, id, Aborted(s.requests[id], TimedOut), [])
    case Cancel(id) => Put(s, id, Aborted(s.requests[id], Cancelled), [])
    case Resume(id) => Resumed(s, id)
    case Fail(id) => Released(Put(s, id, Done(Ended), [GaveBack]))
    case Reply(id, broken) =>
      if broken then Released(Released(Put(s, id, Done(BrokenReply), [GaveBack, GaveBack])))
      else Released(Put(s, id, Done(Ended), [GaveBack]))
    case Open(id) => Put(s, id, Flowing(false, 0), [])
    case Start(id) => Put(s, id, Flowing(true, s.requests[id].phase.chunks), [])
    case Chunk(id) => Put(s, id, Flowing(true, s.requests[id].phase.chunks + 1), [Relayed])
    case Close(id, completed, recorded) =>
      var metric := if recorded then [Recorded(s.requests[id].phase.chunks, completed)] else [];
      Released(Put(s, id, Done(Ended), [GaveBack] + metric))
    case Drop(id) => Put(s, id, Leaked, [])
  }

  /** An event that cannot happen changes nothing. */
  function Next(s: State, e: Event): State {
    if Enabled(s, e) then Step(s, e) else s
  }

  function Run(s: State, events: seq<Event>): State
    decreases |events|
  {
    if events == [] then s else Run(Next(s, events[0]), events[1..])
  }

  function Initial(capacity: nat, maxQueueWait: real): State {
    State(capacity, maxQueueWait, capacity, [], 0, 0, 0, 0, [])
  }

  // ----- the controller and its requests ------------------------------------------------

  class Gateway {
    const capacity: nat
    const maxQueueWait: real
    var value: nat
    var waiters: seq<nat>
    var inFlight: nat
    var waiting: int
    var admittedTotal: nat
    var rejectedTotal: nat
    var requests: seq<Request>

    function Now(): State
      reads this
    {
      State(capacity, maxQueueWait, value, waiters, inFlight, waiting, admittedTotal, rejectedTotal, requests)
    }

    /** At least one slot, or the source raises. */
    constructor (maxConcurrent: nat, maxQueueWait: real)
      requires maxConcurrent >= 1
      ensures Now() == Initial(maxConcurrent, maxQueueWait)
    {
      this.capacity, this.maxQueueWait := maxConcurrent, maxQueueWait;
      value, waiters := maxConcurrent, [];
      inFlight, waiting, admittedTotal, rejectedTotal := 0, 0, 0, 0;
      requests := [];
    }

    method SetPhase(id: nat, phase: Phase, more: seq<Action>)
      requires id < |requests|
      modifies this`requests
      ensures Now() == Put(old(Now()), id, phase, more)
    {
      var r := requests[id];
      requests := requests[id := Request(r.stream, phase, r.history + more)];
    }

    /** `Semaphore._wake_up_next`. */
    method WakeNext() returns (woken: bool)
      requires value > 0
      modifies this`value, this`requests
      ensures Now() == Wake(old(Now()))
      ensures woken <==> FirstQueued(waiters, old(requests)).Some?
    {
      for k := 0 to |waiters|
        invariant Now() == old(Now())
        invariant FirstQueued(waiters, requests) == FirstQueued(waiters[k..], requests)
      {
        var id := waiters[k];
        assert waiters[k..][1..] == waiters[k + 1..];
        if id < |requests| && requests[id].phase.Queued? {
          value := value - 1;
          SetPhase(id, Granted, []);
          return true;
        }
      }
      return false;
    }

    /** The end of `Semaphore.acquire`, whichever way its future ended. */
    method LeaveQueue(id: nat, phase: Phase, more: seq<Action>, back: nat)
      requires id < |requests|
      modifies this`value, this`requests, this`waiters, this`waiting
      ensures Now() == LeftQueue(old(Now()), id, phase, more, back)
    {
      SetPhase(id, phase, more);
      waiters := Remove(waiters, id);
      value := value + back;
      waiting := waiting - 1;
      WakeWhilePossible();
    }

    /** The `while self._value > 0` loop that ends every wait. */
    method WakeWhilePossible()
      modifies this`value, this`requests
      ensures Now() == WakeAll(old(Now()))
    {
      while value > 0
        invariant WakeAll(old(Now())) == WakeAll(Now())
        decreases value
      {
        var woken := WakeNext();
        if !woken {
          break;
        }
      }
    }

    /** `AdmissionController.acquire` up to its first suspension. */
    method ArriveNow(stream: bool)
      modifies this
      ensures Now() == Step(old(Now()), Arrive(stream))
    {
      var id := |requests|;
      var locked := Locked(Now());
      waiting := waiting + 1;
      if maxQueueWait <= 0.0 && locked {
        rejectedTotal := rejectedTotal + 1;
        waiting := waiting - 1;
        requests := requests + [Request(stream, Done(Refused), [])];
      } else if !locked {
        value := value - 1;
        waiting := waiting - 1;
        inFlight := inFlight + 1;
        admittedTotal := admittedTotal + 1;
        requests := requests + [Request(stream, Calling, [Took])];
      } else {
        waiters := waiters + [id];
        requests := requests + [Request(stream, Queued, [])];
      }
    }

    /** `AdmissionController.acquire` from where it woke up. */
    method ResumeNow(id: nat)
      requires Enabled(Now(), Resume(id))
      modifies this
      ensures Now() == Step(old(Now()), Resume(id))
    {
      var phase := requests[id].phase;
      if phase.Granted? {
        LeaveQueue(id, Calling, [Took], 0);
        inFlight := inFlight + 1;
        admittedTotal := admittedTotal + 1;
      } else {
        var back := if phase.granted then 1 else 0;
        if phase.why == TimedOut {
          LeaveQueue(id, Done(Refused), [], back);
          rejectedTotal := rejectedTotal + 1;
        } else {
          LeaveQueue(id, Done(Withdrawn), [], back);
        }
      }
    }

    /** The wait budget ran out, or the client went away, while waiting for a slot. */
    method AbortNow(id: nat, why: Why)
      requires Enabled(Now(), if why == TimedOut then Expire(id) else Cancel(id))
      modifies this`requests
      ensures Now() == Step(old(Now()), if why == TimedOut then Expire(id) else Cancel(id))
    {
      SetPhase(id, Aborting(why, Holds(requests[id])), []);
    }

    /** `AdmissionController.release`. */
    method Release()
      modifies this
      ensures Now() == Released(old(Now()))
    {
      if inFlight <= 0 {
        return;
      }
      inFlight := inFlight - 1;
      value := value + 1;
      var woken := WakeNext();
    }

    /** The engine call raised or was cancelled: the `except` of `_completion`. */
    method FailNow(id: nat)
      requires Enabled(Now(), Fail(id))
      modifies this
      ensures Now() == Step(old(Now()), Fail(id))
    {
      SetPhase(id, Done(Ended), [GaveBack]);
      Release();
    }

    /** A complete answer: the slot goes back before the response is built, and again if building it raises. */
    method ReplyNow(id: nat, broken: bool)
      requires Enabled(Now(), Reply(id, broken))
      modifies this
      ensures Now() == Step(old(Now()), Reply(id, broken))
    {
      SetPhase(id, Done(if broken then BrokenReply else Ended), if broken then [GaveBack, GaveBack] else [GaveBack]);
      Release();
      if broken {
        Release();
      }
    }

    /** The engine started to stream: the slot now belongs to the body. */
    method OpenNow(id: nat)
      requires Enabled(Now(), Open(id))
      modifies this`requests
      ensures Now() == Step(old(Now()), Open(id))
    {
      SetPhase(id, Flowing(false, 0), []);
    }

    method StartNow(id: nat)
      requires Enabled(Now(), Start(id))
      modifies this`requests
      ensures Now() == Step(old(Now()), Start(id))
    {
      SetPhase(id, Flowing(true, requests[id].phase.chunks), []);
    }

    method ChunkNow(id: nat)
      requires Enabled(Now(), Chunk(id))
      modifies this`requests
      ensures Now() == Step(old(Now()), Chunk(id))
    {
      SetPhase(id, Flowing(true, requests[id].phase.chunks + 1), [Relayed]);
    }

    /** The `finally` of the body: exhausted, failed or abandoned. `recorded` is false when recording raised. */
    method CloseNow(id: nat, completed: bool, recorded: bool)
      requires Enabled(Now(), Close(id, completed, recorded))
      modifies this
      ensures Now() == Step(old(Now()), Close(id, completed, recorded))
    {
      var chunks := requests[id].phase.chunks;
      SetPhase(id, Done(Ended), [GaveBack] + if recorded then [Recorded(chunks, completed)] else []);
      Release();
    }

    /** A body that was never started has no `finally` to run. */
    method DropNow(id: nat)
      requires Enabled(Now(), Drop(id))
      modifies this`requests
      ensures Now() == Step(old(Now()), Drop(id))
    {
      SetPhase(id, Leaked, []);
    }
  }
}
