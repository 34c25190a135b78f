/** What every run of the admission protocol keeps, for any number of requests in any interleaving. */
module AdmissionSafety {
  import opened Seqs
  import opened Admission

  /** It has a slot: being answered, streaming, or streaming to nobody. */
  predicate Owns(r: Request) {
    r.phase.Calling? || r.phase.Flowing? || r.phase.Leaked?
  }

  predicate Withdrew(r: Request) {
    r.phase == Done(Withdrawn)
  }

  // ----- the invariant ------------------------------------------------------------------

  ghost predicate Increasing(q: seq<nat>) {
    forall a, b :: 0 <= a < b < |q| ==> q[a] < q[b]
  }

  /** The queue holds exactly the requests that wait, in order of arrival. */
  ghost predicate InOrder(s: State) {
    && Increasing(s.waiters)
    && forall id: nat :: id in s.waiters <==> id < |s.requests| && Waits(s.requests[id])
  }

  /** Nobody is woken before an earlier arrival that is still asleep. */
  ghost predicate FirstCome(s: State) {
    forall i, j :: 0 <= i < j < |s.requests| && Holds(s.requests[j]) ==> !IsQueued(s.requests[i])
  }

  /** `slots` permits are free, set aside or in flight, and `settled` requests were admitted or refused. */
  ghost predicate Sound(s: State, slots: int, settled: int) {
    && InOrder(s) && FirstCome(s)
    && s.value + Count(Holds, s.requests) + s.inFlight == slots
    && s.waiting == Count(Waits, s.requests)
    && |s.requests| == settled + s.waiting + Count(Withdrew, s.requests)
  }

  ghost predicate SomeQueued(s: State) {
    exists i :: 0 <= i < |s.requests| && IsQueued(s.requests[i])
  }

  ghost predicate SomeHolds(s: State) {
    exists i :: 0 <= i < |s.requests| && Holds(s.requests[i])
  }

  /** No wake-up is lost: with a free permit and a sleeper, somebody is about to pass the permit on. */
  ghost predicate Awake(s: State) {
    s.value > 0 && SomeQueued(s) ==> SomeHolds(s)
  }

  ghost predicate NeverQueues(s: State) {
    s.maxQueueWait <= 0.0 ==> s.waiters == []
  }

  function Relays(n: nat): (r: seq<Action>)
    ensures |r| == n && forall i :: 0 <= i < n ==> r[i] == Relayed
  {
    if n == 0 then [] else Relays(n - 1) + [Relayed]
  }

  /** The slot is given back, and then perhaps the metric recorded. */
  predicate Ending(end: seq<Action>, n: nat) {
    end == [GaveBack] || (|end| == 2 && end[0] == GaveBack && end[1].Recorded? && end[1].chunks == n)
  }

  ghost predicate Finished(h: seq<Action>) {
    exists n: nat, end: seq<Action> :: Ending(end, n) && h == [Took] + Relays(n) + end
  }

  /** What a request can have done by each stage of its life. */
  ghost predicate Story(r: Request) {
    match r.phase
    case Calling => r.history == [Took]
    case Flowing(started, chunks) => r.history == [Took] + Relays(chunks) && (!started ==> chunks == 0)
    case Leaked => r.history == [Took]
    case Done(Ended) => Finished(r.history)
    case Done(BrokenReply) => r.history == [Took, GaveBack, GaveBack]
    case _ => r.history == []
  }

  ghost predicate Told(s: State) {
    forall i :: 0 <= i < |s.requests| ==> Story(s.requests[i])
  }

  ghost predicate Good(s: State) {
    && Sound(s, s.capacity, s.admittedTotal + s.rejectedTotal)
    && Awake(s) && NeverQueues(s) && Told(s)
  }

  /** The counter is the number of requests that hold a slot. */
  ghost predicate Exact(s: State) {
    s.inFlight == Count(Owns, s.requests)
  }

  // ----- counting one change --------------------------------------------------------------

  lemma PutCounts(s: State, id: nat, phase: Phase, more: seq<Action>)
    requires id < |s.requests|
    ensures var t, r, q := Put(s, id, phase, more), s.requests[id], Put(s, id, phase, more).requests[id];
      && Count(Holds, t.requests) == Count(Holds, s.requests) - One(Holds(r)) + One(Holds(q))
      && Count(Waits, t.requests) == Count(Waits, s.requests) - One(Waits(r)) + One(Waits(q))
      && Count(Withdrew, t.requests) == Count(Withdrew, s.requests) - One(Withdrew(r)) + One(Withdrew(q))
      && Count(Owns, t.requests) == Count(Owns, s.requests) - One(Owns(r)) + One(Owns(q))
  {
    var q := Put(s, id, phase, more).requests[id];
    CountUpdate(Holds, s.requests, id, q);
    CountUpdate(Waits, s.requests, id, q);
    CountUpdate(Withdrew, s.requests, id, q);
    CountUpdate(Owns, s.requests, id, q);
  }

  lemma AddCounts(requests: seq<Request>, r: Request)
    ensures Count(Holds, requests + [r]) == Count(Holds, requests) + One(Holds(r))
    ensures Count(Waits, requests + [r]) == Count(Waits, requests) + One(Waits(r))
    ensures Count(Withdrew, requests + [r]) == Count(Withdrew, requests) + One(Withdrew(r))
    ensures Count(Owns, requests + [r]) == Count(Owns, requests) + One(Owns(r))
  {
    CountConcat(Holds, requests, [r]);
    CountConcat(Waits, requests, [r]);
    CountConcat(Withdrew, requests, [r]);
    CountConcat(Owns, requests, [r]);
  }

  // ----- waking ----------------------------------------------------------------------------

  /** The first sleeper in the queue is the earliest arrival asleep. */
  lemma FirstIsEarliest(s: State)
    requires InOrder(s)
    ensures var r := FirstQueued(s.waiters, s.requests);
      && (r.None? <==> !SomeQueued(s))
      && (r.Some? ==> forall j: nat :: j < r.value && j < |s.requests| ==> !IsQueued(s.requests[j]))
  {
    FirstOfQueue(s.waiters, s.requests);
  }

  lemma {:induction false} FirstOfQueue(q: seq<nat>, requests: seq<Request>)
    requires Increasing(q)
    ensures var r := FirstQueued(q, requests);
      r.Some? ==> forall w: nat :: w in q && w < r.value && w < |requests| ==> !IsQueued(requests[w])
  {
    if q != [] {
      FirstOfQueue(q[1..], requests);
      assert q == [q[0]] + q[1..];
      var r := FirstQueued(q, requests);
      if r.Some? {
        forall w: nat | w in q && w < r.value && w < |requests| ensures !IsQueued(requests[w]) {
          if w != q[0] {
            assert w in q[1..];
          }
        }
      }
    }
  }

  /** Only the books between permits, sleepers and wakers change. */
  ghost predicate Beside(s: State, t: State) {
    && t == s.(value := t.value, requests := t.requests)
    && |t.requests| == |s.requests| && Count(Owns, t.requests) == Count(Owns, s.requests)
  }

  lemma WakeSound(s: State, slots: int, settled: int)
    requires Sound(s, slots, settled) && s.value > 0 && Told(s)
    ensures Sound(Wake(s), slots, settled) && Told(Wake(s)) && Beside(s, Wake(s))
    ensures SomeQueued(s) ==> SomeHolds(Wake(s)) && Wake(s).value == s.value - 1
    ensures !SomeQueued(s) ==> Wake(s) == s
  {
    FirstIsEarliest(s);
    var r := FirstQueued(s.waiters, s.requests);
    if r.Some? {
      PutCounts(s.(value := s.value - 1), r.value, Granted, []);
      assert Holds(Wake(s).requests[r.value]);
    }
  }

  lemma {:induction false} WakeAllSound(s: State, slots: int, settled: int)
    requires Sound(s, slots, settled) && Told(s)
    ensures Sound(WakeAll(s), slots, settled) && Told(WakeAll(s)) && Beside(s, WakeAll(s))
    ensures WakeAll(s).value == 0 || !SomeQueued(WakeAll(s))
    decreases s.value
  {
    FirstIsEarliest(s);
    if s.value > 0 && FirstQueued(s.waiters, s.requests).Some? {
      WakeSound(s, slots, settled);
      WakeAllSound(Wake(s), slots, settled);
    }
  }

  lemma {:induction false} RemoveElements(q: seq<nat>, id: nat)
    requires Increasing(q)
    ensures forall w: nat :: w in Remove(q, id) <==> w in q && w != id
  {
    if q != [] {
      RemoveElements(q[1..], id);
      assert q == [q[0]] + q[1..];
      forall w | w in q[1..] ensures w > q[0] {
        var k :| 0 <= k < |q[1..]| && q[1..][k] == w;
        assert q[k + 1] == w;
      }
    }
  }

  lemma {:induction false} RemoveKeepsOrder(q: seq<nat>, id: nat)
    requires Increasing(q)
    ensures Increasing(Remove(q, id))
  {
    if q != [] && q[0] != id {
      RemoveKeepsOrder(q[1..], id);
      RemoveElements(q[1..], id);
      var rest := Remove(q[1..], id);
      forall b | 0 <= b < |rest| ensures q[0] < rest[b] {
        assert rest[b] in q[1..];
      }
    }
  }

  // ----- the steps ---------------------------------------------------------------------------

  /** A change that leaves one request's place in the books where it was. */
  lemma QuietPut(s: State, id: nat, phase: Phase, more: seq<Action>)
    requires Good(s) && id < |s.requests|
    requires var r, q := s.requests[id], Put(s, id, phase, more).requests[id];
      && Waits(r) == Waits(q) && Holds(r) == Holds(q) && !Withdrew(r) && !Withdrew(q)
      && (IsQueued(q) ==> IsQueued(r)) && Story(q)
    ensures Good(Put(s, id, phase, more))
    ensures Owns(s.requests[id]) == Owns(Put(s, id, phase, more).requests[id]) && Exact(s) ==> Exact(Put(s, id, phase, more))
  {
    var t := Put(s, id, phase, more);
    PutCounts(s, id, phase, more);
    if t.value > 0 && SomeQueued(t) {
      assert SomeQueued(s);
      var i :| 0 <= i < |s.requests| && Holds(s.requests[i]);
      assert Holds(t.requests[i]);
    }
  }

  lemma ArriveKeeps(s: State, stream: bool)
    requires Good(s)
    ensures Good(Arrived(s, stream)) && (Exact(s) ==> Exact(Arrived(s, stream)))
  {
    var t := Arrived(s, stream);
    var r := t.requests[|s.requests|];
    AddCounts(s.requests, r);
    assert Story(r);
    if !Waits(r) {
      ArriveOutside(s, t);
    } else {
      ArriveInLine(s, t);
    }
  }

  lemma ArriveOutside(s: State, t: State)
    requires Good(s) && |t.requests| == |s.requests| + 1
    requires forall i :: 0 <= i < |s.requests| ==> t.requests[i] == s.requests[i]
    requires t.waiters == s.waiters && t.value <= s.value && t.maxQueueWait == s.maxQueueWait
    requires !Waits(t.requests[|s.requests|]) && Story(t.requests[|s.requests|])
    ensures InOrder(t) && FirstCome(t) && Awake(t) && Told(t) && NeverQueues(t)
  {
    JoinsLast(s, t);
    if t.value > 0 && SomeQueued(t) {
      assert SomeQueued(s);
      StillHolds(s, t);
    }
  }

  lemma ArriveInLine(s: State, t: State)
    requires Good(s) && |t.requests| == |s.requests| + 1
    requires forall i :: 0 <= i < |s.requests| ==> t.requests[i] == s.requests[i]
    requires t.waiters == s.waiters + [|s.requests|] && t.value == s.value && t.maxQueueWait == s.maxQueueWait > 0.0
    requires IsQueued(t.requests[|s.requests|]) && Story(t.requests[|s.requests|]) && Locked(s)
    ensures InOrder(t) && FirstCome(t) && Awake(t) && Told(t) && NeverQueues(t)
  {
    JoinsQueue(s, t);
    JoinsLast(s, t);
    if t.value > 0 {
      LockedHolds(s);
      StillHolds(s, t);
    }
  }

  lemma StillHolds(s: State, t: State)
    requires SomeHolds(s) && |t.requests| >= |s.requests|
    requires forall i :: 0 <= i < |s.requests| ==> t.requests[i] == s.requests[i]
    ensures SomeHolds(t)
  {
    var i :| 0 <= i < |s.requests| && Holds(s.requests[i]);
    assert Holds(t.requests[i]);
  }

  lemma JoinsLast(s: State, t: State)
    requires FirstCome(s) && Told(s) && |t.requests| == |s.requests| + 1
    requires forall i :: 0 <= i < |s.requests| ==> t.requests[i] == s.requests[i]
    requires !Holds(t.requests[|s.requests|]) && Story(t.requests[|s.requests|])
    ensures FirstCome(t) && Told(t)
  {}

  lemma JoinsQueue(s: State, t: State)
    requires InOrder(s) && |t.requests| == |s.requests| + 1 && t.waiters == s.waiters + [|s.requests|]
    requires forall i :: 0 <= i < |s.requests| ==> t.requests[i] == s.requests[i]
    requires Waits(t.requests[|s.requests|])
    ensures InOrder(t)
  {
    forall k | 0 <= k < |s.waiters| ensures s.waiters[k] < |s.requests| {
      assert s.waiters[k] in s.waiters;
    }
    forall id: nat ensures id in t.waiters <==> id < |t.requests| && Waits(t.requests[id]) {
      assert id in t.waiters <==> id in s.waiters || id == |s.requests|;
    }
  }

  /** With a permit free, a locked semaphore has a waiter that is about to resume. */
  lemma LockedHolds(s: State)
    requires Awake(s) && Locked(s) && s.value > 0
    ensures SomeHolds(s)
  {
    var k :| 0 <= k < |s.waiters| && InLine(s.waiters[k], s.requests);
    if IsQueued(s.requests[s.waiters[k]]) {
      assert SomeQueued(s);
    }
  }

  /** Taking a request out of the queue keeps the others in order. */
  lemma LeftOrder(s: State, u: State, id: nat)
    requires Good(s) && id < |s.requests| && u.waiters == Remove(s.waiters, id)
    requires Waits(s.requests[id]) && |u.requests| == |s.requests| && u.requests == s.requests[id := u.requests[id]]
    requires !Waits(u.requests[id]) && Story(u.requests[id])
    ensures InOrder(u) && FirstCome(u) && Told(u)
  {
    RemoveElements(s.waiters, id);
    RemoveKeepsOrder(s.waiters, id);
  }

  /** The request stops waiting, and its permit, if it had one, is kept or given back. */
  lemma LeftSound(s: State, id: nat, phase: Phase, more: seq<Action>, back: nat, slots: int, settled: int)
    requires Good(s) && id < |s.requests| && Waits(s.requests[id]) && !phase.Queued? && !phase.Granted? && !phase.Aborting?
    requires Story(Request(s.requests[id].stream, phase, s.requests[id].history + more))
    requires slots == s.capacity - One(Holds(s.requests[id])) + back
    requires settled == s.admittedTotal + s.rejectedTotal + One(phase != Done(Withdrawn))
    ensures Sound(Left(s, id, phase, more, back), slots, settled) && Told(Left(s, id, phase, more, back))
    ensures Count(Owns, Left(s, id, phase, more, back).requests) == Count(Owns, s.requests) + One(Owns(Request(false, phase, [])))
    ensures NeverQueues(Left(s, id, phase, more, back))
  {
    PutCounts(s, id, phase, more);
    LeftOrder(s, Left(s, id, phase, more, back), id);
  }

  /** Leaving the queue, with the wake-ups that follow. */
  lemma LeaveKeeps(s: State, id: nat, phase: Phase, more: seq<Action>, back: nat, slots: int, settled: int) returns (t: State)
    requires Good(s) && id < |s.requests| && Waits(s.requests[id]) && !phase.Queued? && !phase.Granted? && !phase.Aborting?
    requires Story(Request(s.requests[id].stream, phase, s.requests[id].history + more))
    requires slots == s.capacity - One(Holds(s.requests[id])) + back
    requires settled == s.admittedTotal + s.rejectedTotal + One(phase != Done(Withdrawn))
    ensures t == LeftQueue(s, id, phase, more, back)
    ensures Sound(t, slots, settled) && Awake(t) && NeverQueues(t) && Told(t)
    ensures Count(Owns, t.requests) == Count(Owns, s.requests) + One(Owns(Request(false, phase, [])))
    ensures t.inFlight == s.inFlight && t.admittedTotal == s.admittedTotal && t.rejectedTotal == s.rejectedTotal && t.capacity == s.capacity
  {
    LeftSound(s, id, phase, more, back, slots, settled);
    var u := Left(s, id, phase, more, back);
    WakeAllSound(u, slots, settled);
    t := WakeAll(u);
  }

  lemma ResumeKeeps(s: State, id: nat)
    requires Good(s) && Enabled(s, Resume(id))
    ensures Good(Step(s, Resume(id))) && (Exact(s) ==> Exact(Step(s, Resume(id))))
  {
    if s.requests[id].phase.Granted? {
      AdmitKeeps(s, id);
    } else {
      GiveUpKeeps(s, id);
    }
  }

  lemma AdmitKeeps(s: State, id: nat)
    requires Good(s) && id < |s.requests| && s.requests[id].phase.Granted?
    ensures Good(Resumed(s, id)) && (Exact(s) ==> Exact(Resumed(s, id)))
  {
    assert Story(s.requests[id]);
    assert s.requests[id].history + [Took] == [Took];
    var slots, settled := s.capacity - 1, s.admittedTotal + s.rejectedTotal + 1;
    var t := LeaveKeeps(s, id, Calling, [Took], 0, slots, settled);
  }

  lemma GiveUpKeeps(s: State, id: nat)
    requires Good(s) && id < |s.requests| && s.requests[id].phase.Aborting?
    ensures Good(Resumed(s, id)) && (Exact(s) ==> Exact(Resumed(s, id)))
  {
    assert Story(s.requests[id]);
    var back := if s.requests[id].phase.granted then 1 else 0;
    var settled := s.admittedTotal + s.rejectedTotal;
    if s.requests[id].phase.why == TimedOut {
      var more := settled + 1;
      var t := LeaveKeeps(s, id, Done(Refused), [], back, s.capacity, more);
    } else {
      var t := LeaveKeeps(s, id, Done(Withdrawn), [], back, s.capacity, settled);
    }
  }

  /** Giving a slot back once, from a state whose books are otherwise in order. */
  lemma ReleaseKeeps(s: State)
    requires Good(s)
    ensures Good(Released(s))
    ensures s.inFlight > 0 ==> Released(s).inFlight == s.inFlight - 1
    ensures s.inFlight <= 0 ==> Released(s) == s
    ensures Count(Owns, Released(s).requests) == Count(Owns, s.requests)
    ensures |Released(s).requests| == |s.requests|
  {
    if s.inFlight > 0 {
      var u := s.(inFlight := s.inFlight - 1, value := s.value + 1);
      WakeSound(u, s.capacity, s.admittedTotal + s.rejectedTotal);
    }
  }

  /** The end of a request that has a slot. */
  lemma EndKeeps(s: State, id: nat, outcome: Outcome, more: seq<Action>)
    requires Good(s) && id < |s.requests| && Owns(s.requests[id]) && outcome != Withdrawn
    requires Story(Put(s, id, Done(outcome), more).requests[id])
    ensures Good(Released(Put(s, id, Done(outcome), more)))
    ensures Exact(s) ==> Exact(Released(Put(s, id, Done(outcome), more))) && s.inFlight > 0
    ensures Exact(s) ==> Released(Put(s, id, Done(outcome), more)).inFlight == s.inFlight - 1
    ensures Exact(s) ==> Count(Owns, Released(Put(s, id, Done(outcome), more)).requests) == s.inFlight - 1
  {
    QuietPut(s, id, Done(outcome), more);
    PutCounts(s, id, Done(outcome), more);
    CountSome(Owns, s.requests, id);
    ReleaseKeeps(Put(s, id, Done(outcome), more));
  }

  predicate Breaks(e: Event) {
    e.Reply? && e.broken
  }

  lemma CloseStory(s: State, id: nat, completed: bool, recorded: bool)
    requires Good(s) && Enabled(s, Close(id, completed, recorded))
    ensures var n := s.requests[id].phase.chunks;
      Finished(s.requests[id].history + ([GaveBack] + if recorded then [Recorded(n, completed)] else []))
  {
    var n := s.requests[id].phase.chunks;
    assert Story(s.requests[id]);
    var end := [GaveBack] + if recorded then [Recorded(n, completed)] else [];
    assert Ending(end, n);
  }

  lemma AnsweredStory()
    ensures Finished([Took] + [GaveBack])
  {
    assert Ending([GaveBack], 0) && [Took] + [GaveBack] == [Took] + Relays(0) + [GaveBack];
  }

  /** A stream moves on. */
  lemma FlowKeeps(s: State, e: Event)
    requires Good(s) && Enabled(s, e) && (e.Open? || e.Start? || e.Chunk? || e.Drop?)
    ensures Good(Step(s, e)) && (Exact(s) ==> Exact(Step(s, e)))
  {
    var id := e.id;
    var r := s.requests[id];
    assert Story(r);
    match e
    case Open(_) =>
      assert r.history + [] == [Took] + Relays(0);
      QuietPut(s, id, Flowing(false, 0), []);
    case Start(_) =>
      assert r.history + [] == r.history;
      QuietPut(s, id, Flowing(true, r.phase.chunks), []);
    case Chunk(_) =>
      assert r.history + [Relayed] == [Took] + Relays(r.phase.chunks + 1);
      QuietPut(s, id, Flowing(true, r.phase.chunks + 1), [Relayed]);
    case Drop(_) =>
      assert r.history + [] == [Took];
      QuietPut(s, id, Leaked, []);
  }

  lemma AbortKeeps(s: State, id: nat, why: Why)
    requires Good(s) && id < |s.requests| && Waits(s.requests[id])
    ensures Good(Put(s, id, Aborted(s.requests[id], why), []))
    ensures Exact(s) ==> Exact(Put(s, id, Aborted(s.requests[id], why), []))
  {
    assert Story(s.requests[id]);
    QuietPut(s, id, Aborted(s.requests[id], why), []);
  }

  /** A reply whose response cannot be built gives its slot back twice. */
  lemma BrokenKeeps(s: State, id: nat)
    requires Good(s) && Enabled(s, Reply(id, true))
    ensures Good(Step(s, Reply(id, true)))
    ensures Exact(s) ==> (Exact(Step(s, Reply(id, true))) <==> s.inFlight == 1)
  {
    assert Story(s.requests[id]);
    assert [Took] + [GaveBack, GaveBack] == [Took, GaveBack, GaveBack];
    EndKeeps(s, id, BrokenReply, [GaveBack, GaveBack]);
    ReleaseKeeps(Released(Put(s, id, Done(BrokenReply), [GaveBack, GaveBack])));
  }

  lemma StepKeeps(s: State, e: Event)
    requires Good(s) && Enabled(s, e)
    ensures Good(Step(s, e)) && (Exact(s) && !Breaks(e) ==> Exact(Step(s, e)))
  {
    match e
    case Arrive(stream) => ArriveKeeps(s, stream);
    case Expire(id) => AbortKeeps(s, id, TimedOut);
    case Cancel(id) => AbortKeeps(s, id, Cancelled);
    case Resume(id) => ResumeKeeps(s, id);
    case Fail(id) =>
      assert Story(s.requests[id]);
      AnsweredStory();
      EndKeeps(s, id, Ended, [GaveBack]);
    case Reply(id, broken) =>
      assert Story(s.requests[id]);
      if broken {
        BrokenKeeps(s, id);
      } else {
        AnsweredStory();
        EndKeeps(s, id, Ended, [GaveBack]);
      }
    case Close(id, completed, recorded) =>
      CloseStory(s, id, completed, recorded);
      EndKeeps(s, id, Ended, [GaveBack] + if recorded then [Recorded(s.requests[id].phase.chunks, completed)] else []);
    case _ => FlowKeeps(s, e);
  }

  // ----- every run -----------------------------------------------------------------------------

  lemma {:induction false} RunKeeps(s: State, events: seq<Event>)
    requires Good(s)
    ensures Good(Run(s, events))
    ensures Exact(s) && (forall i :: 0 <= i < |events| ==> !Breaks(events[i])) ==> Exact(Run(s, events))
    ensures Run(s, events).capacity == s.capacity && Run(s, events).maxQueueWait == s.maxQueueWait
    decreases |events|
  {
    if events != [] {
      if Enabled(s, events[0]) {
        StepKeeps(s, events[0]);
      }
      RunKeeps(Next(s, events[0]), events[1..]);
    }
  }

  lemma InitiallyGood(capacity: nat, maxQueueWait: real)
    ensures Good(Initial(capacity, maxQueueWait)) && Exact(Initial(capacity, maxQueueWait))
  {}

  /**
   * In every reachable state: permits are conserved, every arrival is accounted for, waiters are
   * served in order of arrival, and no wake-up is lost.
   */
  lemma AlwaysAccounted(capacity: nat, maxQueueWait: real, events: seq<Event>)
    ensures var s := Run(Initial(capacity, maxQueueWait), events);
      && s.value + Count(Holds, s.requests) + s.inFlight == capacity
      && |s.requests| == s.admittedTotal + s.rejectedTotal + s.waiting + Count(Withdrew, s.requests)
      && s.waiting == Count(Waits, s.requests) == |s.waiters|
      && FirstCome(s) && Awake(s)
  {
    InitiallyGood(capacity, maxQueueWait);
    RunKeeps(Initial(capacity, maxQueueWait), events);
    WaitersCounted(Run(Initial(capacity, maxQueueWait), events));
  }

  /** The latest arrival, if it waits, is at the end of the queue. */
  lemma LastInLine(s: State)
    requires InOrder(s) && s.requests != [] && Waits(s.requests[|s.requests| - 1])
    ensures s.waiters != [] && s.waiters[|s.waiters| - 1] == |s.requests| - 1
    ensures InOrder(s.(requests := s.requests[..|s.requests| - 1], waiters := s.waiters[..|s.waiters| - 1]))
  {
    var n, q := |s.requests|, s.waiters;
    assert n - 1 in q;
    assert q[|q| - 1] in q;
    var front := q[..|q| - 1];
    assert q == front + [n - 1];
    assert n - 1 !in front;
    forall id: nat ensures id in front <==> id < n - 1 && Waits(s.requests[id]) {
      assert id in q <==> id in front || id == n - 1;
    }
  }

  lemma WaitersAreRequests(s: State)
    requires InOrder(s)
    ensures s.waiters != [] ==> s.waiters[0] < |s.requests|
  {
    if s.waiters != [] {
      assert s.waiters[0] in s.waiters;
    }
  }

  lemma {:induction false} WaitersCounted(s: State)
    requires InOrder(s)
    ensures |s.waiters| == Count(Waits, s.requests)
    decreases |s.requests|
  {
    var n := |s.requests|;
    WaitersAreRequests(s);
    if n > 0 {
      var r, last := s.requests[n - 1], |s.waiters| - 1;
      assert s.requests == s.requests[..n - 1] + [r];
      AddCounts(s.requests[..n - 1], r);
      if Waits(r) {
        LastInLine(s);
        WaitersCounted(s.(requests := s.requests[..n - 1], waiters := s.waiters[..last]));
      } else {
        forall k | 0 <= k < |s.waiters| ensures s.waiters[k] < n {
          assert s.waiters[k] in s.waiters;
        }
        WaitersCounted(s.(requests := s.requests[..n - 1]));
      }
    }
  }

  /** Asleep in line, or woken with a permit that it has not taken yet; not one that gave up without a permit. */
  predicate Ahead(phase: Phase) {
    match phase
    case Queued => true
    case Granted => true
    case Aborting(_, granted) => granted
    case _ => false
  }

  /**
   * In every reachable state an arrival takes a slot at once exactly when a permit is free and nobody
   * is ahead of it; otherwise it is refused if nobody may wait, and sleeps at the end of the line if
   * they may.
   */
  lemma ArrivalExactly(capacity: nat, maxQueueWait: real, events: seq<Event>, stream: bool)
    ensures var s := Run(Initial(capacity, maxQueueWait), events);
      var t, free := Step(s, Arrive(stream)), s.value > 0 && forall i :: 0 <= i < |s.requests| ==> !Ahead(s.requests[i].phase);
      && |t.requests| == |s.requests| + 1 && t.requests[..|s.requests|] == s.requests
      && t.requests[|s.requests|].stream == stream
      && t.requests[|s.requests|].phase == (if free then Calling else if maxQueueWait <= 0.0 then Done(Refused) else Queued)
      && (if t.requests[|s.requests|].phase.Queued? then t.waiters == s.waiters + [|s.requests|] else t.waiters == s.waiters)
  {
    var s := Run(Initial(capacity, maxQueueWait), events);
    InitiallyGood(capacity, maxQueueWait);
    RunKeeps(Initial(capacity, maxQueueWait), events);
    LockedExactly(s);
  }

  lemma LockedExactly(s: State)
    requires InOrder(s)
    ensures Locked(s) <==> s.value == 0 || exists i :: 0 <= i < |s.requests| && Ahead(s.requests[i].phase)
  {
    if i :| 0 <= i < |s.requests| && Ahead(s.requests[i].phase) {
      assert Waits(s.requests[i]);
      assert i in s.waiters;
      var k :| 0 <= k < |s.waiters| && s.waiters[k] == i;
      assert InLine(s.waiters[k], s.requests);
    }
  }

  /** With a zero budget nobody is ever left waiting, and a request is refused exactly when every slot is in flight. */
  lemma ZeroBudgetNeverQueues(capacity: nat, maxQueueWait: real, events: seq<Event>, stream: bool)
    requires maxQueueWait <= 0.0
    ensures var s := Run(Initial(capacity, maxQueueWait), events);
      && s.waiting == 0 && (forall i :: 0 <= i < |s.requests| ==> !Waits(s.requests[i]))
      && (Step(s, Arrive(stream)).rejectedTotal == s.rejectedTotal + 1 <==> s.inFlight == capacity)
      && (Step(s, Arrive(stream)).admittedTotal == s.admittedTotal + 1 <==> s.inFlight < capacity)
  {
    var s := Run(Initial(capacity, maxQueueWait), events);
    InitiallyGood(capacity, maxQueueWait);
    RunKeeps(Initial(capacity, maxQueueWait), events);
    forall i | 0 <= i < |s.requests| ensures !Waits(s.requests[i]) && !Holds(s.requests[i]) {
      assert i !in s.waiters;
    }
    CountNone(Waits, s.requests);
    CountNone(Holds, s.requests);
  }

  /** A request sleeps only while every slot is in use or on its way to somebody. */
  lemma SleepsOnlyWhenFull(capacity: nat, maxQueueWait: real, events: seq<Event>, id: nat)
    requires var s := Run(Initial(capacity, maxQueueWait), events);
      id < |s.requests| && IsQueued(s.requests[id]) && !SomeHolds(s)
    ensures Run(Initial(capacity, maxQueueWait), events).inFlight == capacity
  {
    var s := Run(Initial(capacity, maxQueueWait), events);
    InitiallyGood(capacity, maxQueueWait);
    RunKeeps(Initial(capacity, maxQueueWait), events);
    assert SomeQueued(s);
    CountNone(Holds, s.requests);
  }

  /**
   * As long as no reply breaks, the counter is the number of requests holding a slot, streams
   * whose handler has returned among them, and that never exceeds the capacity.
   */
  lemma OwnersWithinCapacity(capacity: nat, maxQueueWait: real, events: seq<Event>)
    requires forall i :: 0 <= i < |events| ==> !Breaks(events[i])
    ensures var s := Run(Initial(capacity, maxQueueWait), events);
      s.inFlight == Count(Owns, s.requests) <= capacity
  {
    InitiallyGood(capacity, maxQueueWait);
    RunKeeps(Initial(capacity, maxQueueWait), events);
  }

  /** A broken reply keeps the counter exact precisely when its request was the only one in flight. */
  lemma BrokenReplyExactly(s: State, id: nat)
    requires Good(s) && Exact(s) && Enabled(s, Reply(id, true))
    ensures Exact(Step(s, Reply(id, true))) <==> s.inFlight == 1
  {
    BrokenKeeps(s, id);
  }

  function Arrivals(n: nat): (es: seq<Event>)
    ensures |es| == n
  {
    if n == 0 then [] else [Arrive(false)] + Arrivals(n - 1)
  }

  lemma {:induction false} RunsThrough(s: State, first: seq<Event>, more: seq<Event>)
    ensures Run(s, first + more) == Run(Run(s, first), more)
    decreases |first|
  {
    if first == [] {
      assert first + more == more;
    } else {
      assert (first + more)[1..] == first[1..] + more;
      RunsThrough(Next(s, first[0]), first[1..], more);
    }
  }

  /** With nobody in line, arrivals take the free permits. */
  lemma {:induction false} ArrivalsTake(s: State, n: nat)
    requires s.waiters == [] && n <= s.value
    ensures var t := Run(s, Arrivals(n));
      && t.waiters == [] && t.value == s.value - n && t.inFlight == s.inFlight + n && t.capacity == s.capacity
      && Count(Owns, t.requests) == Count(Owns, s.requests) + n
      && |t.requests| == |s.requests| + n && t.requests[..|s.requests|] == s.requests
      && (n > 0 ==> t.requests[|s.requests|] == Request(false, Calling, [Took]))
    decreases n
  {
    if n > 0 {
      var r := Request(false, Calling, [Took]);
      var u := Step(s, Arrive(false));
      AddCounts(s.requests, r);
      ArrivalsTake(u, n - 1);
      assert Arrivals(n)[1..] == Arrivals(n - 1);
      var t := Run(s, Arrivals(n));
      assert t.requests[|s.requests|] == t.requests[..|u.requests|][|s.requests|];
      assert t.requests[..|s.requests|] == t.requests[..|u.requests|][..|s.requests|];
    }
  }

  /** Otherwise the cap no longer holds: whatever the capacity, one request too many is let in. */
  lemma BrokenReplyOverAdmits(capacity: nat, maxQueueWait: real)
    requires capacity >= 2
    ensures var events := Arrivals(capacity) + [Reply(0, true)] + Arrivals(2);
      Count(Owns, Run(Initial(capacity, maxQueueWait), events).requests) == capacity + 1
  {
    var start := Initial(capacity, maxQueueWait);
    var full := Run(start, Arrivals(capacity));
    ArrivalsTake(start, capacity);
    PutCounts(full, 0, Done(BrokenReply), [GaveBack, GaveBack]);
    var broken := Step(full, Reply(0, true));
    RunsThrough(start, Arrivals(capacity), [Reply(0, true)]);
    assert Run(full, [Reply(0, true)]) == Run(broken, []);
    ArrivalsTake(broken, 2);
    RunsThrough(start, Arrivals(capacity) + [Reply(0, true)], Arrivals(2));
  }

  predicate IsGaveBack(a: Action) {
    a == GaveBack
  }

  predicate IsRelayed(a: Action) {
    a == Relayed
  }

  /** How often a slot was given back. */
  function GivenBack(r: Request): nat {
    Count(IsGaveBack, r.history)
  }

  /**
   * Each slot is given back once, after the last chunk, whether the stream was exhausted, failed or
   * was abandoned and whether or not recording it raised; the metric counts the chunks relayed.
   */
  lemma ReleasedOnce(capacity: nat, maxQueueWait: real, events: seq<Event>, id: nat)
    requires id < |Run(Initial(capacity, maxQueueWait), events).requests|
    ensures var r := Run(Initial(capacity, maxQueueWait), events).requests[id];
      && GivenBack(r) == (if r.phase == Done(Ended) then 1 else if r.phase == Done(BrokenReply) then 2 else 0)
      && Tidy(r.history)
      && (Owns(r) <==> r.history != [] && GivenBack(r) == 0)
  {
    InitiallyGood(capacity, maxQueueWait);
    RunKeeps(Initial(capacity, maxQueueWait), events);
    var r := Run(Initial(capacity, maxQueueWait), events).requests[id];
    assert Story(r);
    StoryCounts(r);
  }

  /** Nothing is relayed, and no slot taken, once one was given back; a metric holds the chunks relayed. */
  ghost predicate Tidy(h: seq<Action>) {
    && (forall i, j :: 0 <= i < j < |h| && h[i] == GaveBack ==> h[j] != Relayed && h[j] != Took)
    && (forall i :: 0 <= i < |h| && h[i].Recorded? ==> h[i].chunks == Count(IsRelayed, h))
  }

  lemma StoryCounts(r: Request)
    requires Story(r)
    ensures GivenBack(r) == (if r.phase == Done(Ended) then 1 else if r.phase == Done(BrokenReply) then 2 else 0)
    ensures Tidy(r.history) && (Owns(r) ==> r.history != [])
  {
    if r.phase == Done(Ended) {
      var n: nat, end: seq<Action> :| Ending(end, n) && r.history == [Took] + Relays(n) + end;
      StreamCounts(n, end);
      StreamTidy(n, end);
    } else if r.phase.Flowing? {
      assert r.history == [Took] + Relays(r.phase.chunks) + [];
      StreamCounts(r.phase.chunks, []);
      StreamTidy(r.phase.chunks, []);
    } else if r.phase == Done(BrokenReply) {
      assert r.history == [Took] + [GaveBack, GaveBack];
      CountConcat(IsGaveBack, [Took], [GaveBack, GaveBack]);
      CountShort(IsGaveBack, [Took]);
      CountShort(IsGaveBack, [GaveBack, GaveBack]);
    } else {
      CountShort(IsGaveBack, r.history);
    }
  }

  lemma StreamTidy(n: nat, end: seq<Action>)
    requires end == [] || Ending(end, n)
    ensures Tidy([Took] + Relays(n) + end)
  {
    StreamCounts(n, end);
    var h := [Took] + Relays(n) + end;
    forall i | 0 <= i < |h| ensures h[i] == if i == 0 then Took else if i <= n then Relayed else end[i - n - 1] {}
  }

  lemma CountShort(p: Action -> bool, s: seq<Action>)
    requires |s| <= 2
    ensures Count(p, s) == (if |s| > 0 && p(s[0]) then 1 else 0) + (if |s| > 1 && p(s[1]) then 1 else 0)
  {
    if |s| > 0 {
      assert Count(p, s) == (if p(s[0]) then 1 else 0) + Count(p, s[1..]);
      if |s| > 1 {
        assert s[1..][1..] == [];
      }
    }
  }

  lemma StreamCounts(n: nat, end: seq<Action>)
    requires end == [] || Ending(end, n)
    ensures Count(IsGaveBack, [Took] + Relays(n) + end) == if end == [] then 0 else 1
    ensures Count(IsRelayed, [Took] + Relays(n) + end) == n
  {
    RelaysCounted(n);
    CountShort(IsGaveBack, end);
    CountShort(IsRelayed, end);
    CountConcat(IsGaveBack, [Took] + Relays(n), end);
    CountConcat(IsRelayed, [Took] + Relays(n), end);
    CountConcat(IsGaveBack, [Took], Relays(n));
    CountConcat(IsRelayed, [Took], Relays(n));
  }

  lemma {:induction false} RelaysCounted(n: nat)
    ensures Count(IsGaveBack, Relays(n)) == 0
    ensures Count(IsRelayed, Relays(n)) == n
  {
    if n > 0 {
      RelaysCounted(n - 1);
      CountConcat(IsGaveBack, Relays(n - 1), [Relayed]);
      CountConcat(IsRelayed, Relays(n - 1), [Relayed]);
    }
  }

  predicate Over(r: Request) {
    r.phase.Done? || r.phase.Leaked?
  }

  predicate Lost(r: Request) {
    r.phase.Leaked?
  }

  /** When every request is over, the permits that are missing are those of bodies nobody started. */
  lemma QuietAtTheEnd(capacity: nat, maxQueueWait: real, events: seq<Event>)
    requires forall i :: 0 <= i < |events| ==> !Breaks(events[i])
    requires var s := Run(Initial(capacity, maxQueueWait), events);
      forall i :: 0 <= i < |s.requests| ==> Over(s.requests[i])
    ensures var s := Run(Initial(capacity, maxQueueWait), events);
      && s.waiting == 0 && s.waiters == [] && s.value == capacity - Count(Lost, s.requests)
      && (s.value == capacity && s.inFlight == 0 <==> forall i :: 0 <= i < |s.requests| ==> !Lost(s.requests[i]))
  {
    var s := Run(Initial(capacity, maxQueueWait), events);
    InitiallyGood(capacity, maxQueueWait);
    RunKeeps(Initial(capacity, maxQueueWait), events);
    CountNone(Holds, s.requests);
    CountNone(Waits, s.requests);
    WaitersCounted(s);
    OnlyLostOwn(s.requests);
    if i :| 0 <= i < |s.requests| && Lost(s.requests[i]) {
      CountSome(Lost, s.requests, i);
    } else {
      CountNone(Lost, s.requests);
    }
  }

  /** A slot can be lost: one stream, opened and never read, is over and keeps its permit for good. */
  lemma SlotCanBeLost(capacity: nat, maxQueueWait: real)
    requires capacity >= 1
    ensures var s := Run(Initial(capacity, maxQueueWait), [Arrive(true), Open(0), Drop(0)]);
      |s.requests| == 1 && Over(s.requests[0]) && Lost(s.requests[0]) && s.value == capacity - 1 && s.inFlight == 1
  {
    var es := [Arrive(true), Open(0), Drop(0)];
    var s0 := Initial(capacity, maxQueueWait);
    var s1 := Next(s0, es[0]);
    var s2 := Next(s1, es[1]);
    var s3 := Next(s2, es[2]);
    assert es[1..][0] == es[1] && es[1..][1..] == es[2..] && es[2..][0] == es[2] && es[2..][1..] == [];
    assert Run(s0, es) == Run(s1, es[1..]) == Run(s2, es[2..]) == Run(s3, []);
  }

  lemma {:induction false} OnlyLostOwn(requests: seq<Request>)
    requires forall i :: 0 <= i < |requests| ==> Over(requests[i])
    ensures Count(Owns, requests) == Count(Lost, requests)
  {
    if requests != [] {
      OnlyLostOwn(requests[1..]);
    }
  }
}
