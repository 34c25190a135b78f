/** What the totals of the admission controller count, and why each request ended as it did. */
module AdmissionRecords {
  import opened Seqs
  import opened Admission
  import opened AdmissionSafety

  // ----- the totals ----------------------------------------------------------------------

  /** It took a slot at some time. */
  predicate WasAdmitted(r: Request) {
    r.history != []
  }

  predicate WasRefused(r: Request) {
    r.phase == Done(Refused)
  }

  ghost predicate Tallied(s: State) {
    s.admittedTotal == Count(WasAdmitted, s.requests) && s.rejectedTotal == Count(WasRefused, s.requests)
  }

  /** A request that takes, gives back or merely wakes up: its part in the totals. */
  lemma PutTally(s: State, id: nat, phase: Phase, more: seq<Action>)
    requires id < |s.requests|
    ensures var t, r, q := Put(s, id, phase, more), s.requests[id], Put(s, id, phase, more).requests[id];
      && Count(WasAdmitted, t.requests) == Count(WasAdmitted, s.requests) - One(WasAdmitted(r)) + One(WasAdmitted(q))
      && Count(WasRefused, t.requests) == Count(WasRefused, s.requests) - One(WasRefused(r)) + One(WasRefused(q))
  {
    var q := Put(s, id, phase, more).requests[id];
    CountUpdate(WasAdmitted, s.requests, id, q);
    CountUpdate(WasRefused, s.requests, id, q);
  }

  ghost predicate SameTally(s: State, t: State) {
    && t.admittedTotal == s.admittedTotal && t.rejectedTotal == s.rejectedTotal
    && Count(WasAdmitted, t.requests) == Count(WasAdmitted, s.requests)
    && Count(WasRefused, t.requests) == Count(WasRefused, s.requests)
  }

  lemma WakeTally(s: State)
    requires s.value > 0
    ensures SameTally(s, Wake(s))
  {
    var r := FirstQueued(s.waiters, s.requests);
    if r.Some? {
      assert s.requests[r.value].history + [] == s.requests[r.value].history;
      PutTally(s.(value := s.value - 1), r.value, Granted, []);
    }
  }

  lemma {:induction false} WakeAllTally(s: State)
    ensures SameTally(s, WakeAll(s))
    decreases s.value
  {
    if s.value > 0 && FirstQueued(s.waiters, s.requests).Some? {
      WakeTally(s);
      WakeAllTally(Wake(s));
    }
  }

  lemma ReleasedTally(s: State)
    ensures SameTally(s, Released(s))
  {
    if s.inFlight > 0 {
      WakeTally(s.(inFlight := s.inFlight - 1, value := s.value + 1));
    }
  }

  lemma ArrivedTally(s: State, stream: bool)
    requires Tallied(s)
    ensures Tallied(Arrived(s, stream))
  {
    var r := Arrived(s, stream).requests[|s.requests|];
    CountConcat(WasAdmitted, s.requests, [r]);
    CountConcat(WasRefused, s.requests, [r]);
  }

  lemma LeftTally(s: State, id: nat, phase: Phase, more: seq<Action>, back: nat)
    requires id < |s.requests| && s.requests[id].history == [] && !WasRefused(s.requests[id])
    ensures var t := LeftQueue(s, id, phase, more, back);
      && t.admittedTotal == s.admittedTotal && t.rejectedTotal == s.rejectedTotal
      && Count(WasAdmitted, t.requests) == Count(WasAdmitted, s.requests) + One(more != [])
      && Count(WasRefused, t.requests) == Count(WasRefused, s.requests) + One(phase == Done(Refused))
  {
    PutTally(s, id, phase, more);
    WakeAllTally(Left(s, id, phase, more, back));
  }

  /** The end of a request that has a slot changes no total. */
  lemma EndTally(s: State, id: nat, phase: Phase, more: seq<Action>)
    requires id < |s.requests| && s.requests[id].history != [] && !WasRefused(s.requests[id]) && phase != Done(Refused)
    ensures SameTally(s, Put(s, id, phase, more))
    ensures SameTally(s, Released(Put(s, id, phase, more)))
    ensures SameTally(s, Released(Released(Put(s, id, phase, more))))
  {
    PutTally(s, id, phase, more);
    ReleasedTally(Put(s, id, phase, more));
    ReleasedTally(Released(Put(s, id, phase, more)));
  }

  /** A step of a request that waits. */
  lemma WaitTally(s: State, e: Event)
    requires Tallied(s) && Told(s) && Enabled(s, e) && (e.Expire? || e.Cancel? || e.Resume?)
    ensures Tallied(Step(s, e))
  {
    var r, id := s.requests[e.id], e.id;
    assert Story(r);
    if e.Resume? {
      if r.phase.Granted? {
        LeftTally(s, id, Calling, [Took], 0);
      } else {
        LeftTally(s, id, Done(if r.phase.why == TimedOut then Refused else Withdrawn), [], if r.phase.granted then 1 else 0);
      }
    } else {
      PutTally(s, id, Aborted(r, if e.Expire? then TimedOut else Cancelled), []);
    }
  }

  /** A step of a request that has a slot. */
  lemma OwnerTally(s: State, e: Event)
    requires Tallied(s) && Told(s) && Enabled(s, e) && !(e.Arrive? || e.Expire? || e.Cancel? || e.Resume?)
    ensures Tallied(Step(s, e))
  {
    var r := s.requests[e.id];
    assert Story(r);
    match e
    case Fail(id) => EndTally(s, id, Done(Ended), [GaveBack]);
    case Reply(id, broken) =>
      EndTally(s, id, Done(if broken then BrokenReply else Ended), if broken then [GaveBack, GaveBack] else [GaveBack]);
    case Open(id) => EndTally(s, id, Flowing(false, 0), []);
    case Start(id) => EndTally(s, id, Flowing(true, r.phase.chunks), []);
    case Chunk(id) => EndTally(s, id, Flowing(true, r.phase.chunks + 1), [Relayed]);
    case Close(id, completed, recorded) =>
      EndTally(s, id, Done(Ended), [GaveBack] + if recorded then [Recorded(r.phase.chunks, completed)] else []);
    case Drop(id) => EndTally(s, id, Leaked, []);
  }

  lemma StepTally(s: State, e: Event)
    requires Tallied(s) && Told(s) && Enabled(s, e)
    ensures Tallied(Step(s, e))
  {
    if e.Arrive? {
      ArrivedTally(s, e.stream);
    } else if e.Expire? || e.Cancel? || e.Resume? {
      WaitTally(s, e);
    } else {
      OwnerTally(s, e);
    }
  }

  lemma {:induction false} RunTally(s: State, events: seq<Event>)
    requires Good(s) && Tallied(s)
    ensures Tallied(Run(s, events))
    decreases |events|
  {
    if events != [] {
      if Enabled(s, events[0]) {
        StepKeeps(s, events[0]);
        StepTally(s, events[0]);
      }
      RunTally(Next(s, events[0]), events[1..]);
    }
  }

  /** The totals count exactly the requests that took a slot, and exactly those that were refused one. */
  lemma TotalsCountRequests(capacity: nat, maxQueueWait: real, events: seq<Event>)
    ensures var s := Run(Initial(capacity, maxQueueWait), events);
      s.admittedTotal == Count(WasAdmitted, s.requests) && s.rejectedTotal == Count(WasRefused, s.requests)
  {
    InitiallyGood(capacity, maxQueueWait);
    RunTally(Initial(capacity, maxQueueWait), events);
  }

  // ----- why requests end ---------------------------------------------------------------------

  /** Some event of the run accounts for how the request ended, or for its giving up. */
  predicate Explained(id: nat, r: Request, maxQueueWait: real, events: seq<Event>) {
    match r.phase
    case Aborting(TimedOut, _) => Expire(id) in events
    case Aborting(Cancelled, _) => Cancel(id) in events
    case Done(Refused) => maxQueueWait <= 0.0 || Expire(id) in events
    case Done(Withdrawn) => Cancel(id) in events
    case Done(BrokenReply) => Reply(id, true) in events
    case Leaked => Open(id) in events && Drop(id) in events
    case Flowing(started, _) => Open(id) in events && (started ==> Start(id) in events)
    case _ => true
  }

  ghost predicate AllExplained(s: State, events: seq<Event>) {
    forall i :: 0 <= i < |s.requests| ==> Explained(i, s.requests[i], s.maxQueueWait, events)
  }

  /** Requests other than `id` stay as they are, or wake up. */
  ghost predicate Bystanders(s: State, t: State, id: nat) {
    && |t.requests| == |s.requests| && t.maxQueueWait == s.maxQueueWait
    && forall j :: 0 <= j < |s.requests| && j != id ==>
         t.requests[j] == s.requests[j] || (s.requests[j].phase.Queued? && t.requests[j].phase.Granted?)
  }

  lemma WakeBystanders(s: State, id: nat)
    requires s.value > 0 && id < |s.requests| && !IsQueued(s.requests[id])
    ensures Bystanders(s, Wake(s), id) && Wake(s).requests[id] == s.requests[id]
  {}

  lemma {:induction false} WakeAllBystanders(s: State, id: nat)
    requires id < |s.requests| && !IsQueued(s.requests[id])
    ensures Bystanders(s, WakeAll(s), id) && WakeAll(s).requests[id] == s.requests[id]
    decreases s.value
  {
    if s.value > 0 && FirstQueued(s.waiters, s.requests).Some? {
      WakeBystanders(s, id);
      WakeAllBystanders(Wake(s), id);
    }
  }

  lemma ReleasedBystanders(s: State, id: nat)
    requires id < |s.requests| && !IsQueued(s.requests[id])
    ensures Bystanders(s, Released(s), id) && Released(s).requests[id] == s.requests[id]
  {
    if s.inFlight > 0 {
      WakeBystanders(s.(inFlight := s.inFlight - 1, value := s.value + 1), id);
    }
  }

  /** Where a step leaves its own request. */
  function PhaseAfter(r: Request, e: Event): Phase
    requires !e.Arrive? && (e.Resume? ==> r.phase.Granted? || r.phase.Aborting?)
    requires (e.Start? || e.Chunk?) ==> r.phase.Flowing?
  {
    match e
    case Expire(_) => Aborting(TimedOut, Holds(r))
    case Cancel(_) => Aborting(Cancelled, Holds(r))
    case Resume(_) =>
      if r.phase.Granted? then Calling
      else if r.phase.why == TimedOut then Done(Refused) else Done(Withdrawn)
    case Fail(_) => Done(Ended)
    case Reply(_, broken) => if broken then Done(BrokenReply) else Done(Ended)
    case Open(_) => Flowing(false, 0)
    case Start(_) => Flowing(true, r.phase.chunks)
    case Chunk(_) => Flowing(true, r.phase.chunks + 1)
    case Close(_, _, _) => Done(Ended)
    case Drop(_) => Leaked
  }

  lemma StepBystanders(s: State, e: Event)
    requires Enabled(s, e) && !e.Arrive?
    ensures Bystanders(s, Step(s, e), e.id)
    ensures Step(s, e).requests[e.id].phase == PhaseAfter(s.requests[e.id], e)
  {
    var r, id, t := s.requests[e.id], e.id, Step(s, e);
    match e
    case Resume(_) =>
      var more := if r.phase.Granted? then [Took] else [];
      var back := if r.phase.Aborting? && r.phase.granted then 1 else 0;
      WakeAllBystanders(Left(s, id, PhaseAfter(r, e), more, back), id);
    case Fail(_) => ReleasedBystanders(Put(s, id, Done(Ended), [GaveBack]), id);
    case Reply(_, broken) =>
      if broken {
        var p := Put(s, id, Done(BrokenReply), [GaveBack, GaveBack]);
        ReleasedBystanders(p, id);
        ReleasedBystanders(Released(p), id);
      } else {
        ReleasedBystanders(Put(s, id, Done(Ended), [GaveBack]), id);
      }
    case Close(_, completed, recorded) =>
      var metric := if recorded then [Recorded(r.phase.chunks, completed)] else [];
      ReleasedBystanders(Put(s, id, Done(Ended), [GaveBack] + metric), id);
    case _ =>
  }

  lemma StepExplained(s: State, events: seq<Event>, e: Event)
    requires AllExplained(s, events) && Enabled(s, e)
    ensures AllExplained(Step(s, e), events + [e])
  {
    var t, more := Step(s, e), events + [e];
    assert forall x :: x in events ==> x in more;
    assert e in more;
    if e.Arrive? {
      forall i | 0 <= i < |t.requests| ensures Explained(i, t.requests[i], t.maxQueueWait, more) {
        assert i < |s.requests| ==> Explained(i, s.requests[i], s.maxQueueWait, events);
      }
    } else {
      StepBystanders(s, e);
      forall i | 0 <= i < |t.requests| ensures Explained(i, t.requests[i], t.maxQueueWait, more) {
        assert Explained(i, s.requests[i], s.maxQueueWait, events);
      }
    }
  }

  lemma {:induction false} RunOneMore(s: State, events: seq<Event>, e: Event)
    ensures Run(s, events + [e]) == Next(Run(s, events), e)
  {
    RunsThrough(s, events, [e]);
    assert [e][1..] == [];
  }

  /**
   * Nobody is refused a slot but by a zero budget or an expired one, nobody withdraws but by its own
   * cancellation, and no slot is lost but by a stream that was opened and dropped.
   */
  lemma {:induction false} EndsAreExplained(capacity: nat, maxQueueWait: real, events: seq<Event>)
    ensures AllExplained(Run(Initial(capacity, maxQueueWait), events), events)
    decreases |events|
  {
    if events != [] {
      var front, e := events[..|events| - 1], events[|events| - 1];
      EndsAreExplained(capacity, maxQueueWait, front);
      assert events == front + [e];
      RunOneMore(Initial(capacity, maxQueueWait), front, e);
      var s := Run(Initial(capacity, maxQueueWait), front);
      if Enabled(s, e) {
        StepExplained(s, front, e);
      } else {
        StillExplained(s, front, e);
      }
    }
  }

  lemma StillExplained(s: State, events: seq<Event>, e: Event)
    requires AllExplained(s, events)
    ensures AllExplained(s, events + [e])
  {
    assert forall x :: x in events ==> x in events + [e];
    forall i | 0 <= i < |s.requests| ensures Explained(i, s.requests[i], s.maxQueueWait, events + [e]) {
      assert Explained(i, s.requests[i], s.maxQueueWait, events);
    }
  }

  // ----- how far broken replies go ----------------------------------------------------------------

  /** The counter may fall short of the requests that hold a slot, by at most `n`; it never exceeds them. */
  ghost predicate Slack(s: State, n: nat) {
    s.inFlight <= Count(Owns, s.requests) <= s.inFlight + n
  }

  lemma ArriveSlack(s: State, stream: bool, n: nat)
    requires Slack(s, n)
    ensures Slack(Arrived(s, stream), n)
  {
    AddCounts(s.requests, Arrived(s, stream).requests[|s.requests|]);
  }

  lemma ResumeSlack(s: State, id: nat, n: nat)
    requires Good(s) && Slack(s, n) && Enabled(s, Resume(id))
    ensures Slack(Resumed(s, id), n)
  {
    var r := s.requests[id];
    var settled := s.admittedTotal + s.rejectedTotal;
    assert Story(r);
    if r.phase.Granted? {
      assert r.history + [Took] == [Took];
      var slots, more := s.capacity - 1, settled + 1;
      var t := LeaveKeeps(s, id, Calling, [Took], 0, slots, more);
    } else {
      var back := if r.phase.granted then 1 else 0;
      var outcome, more := if r.phase.why == TimedOut then Refused else Withdrawn, if r.phase.why == TimedOut then settled + 1 else settled;
      var t := LeaveKeeps(s, id, Done(outcome), [], back, s.capacity, more);
    }
  }

  /** The end of a request gives a slot back once, or twice if its reply breaks. */
  lemma EndSlack(s: State, id: nat, outcome: Outcome, more: seq<Action>, n: nat)
    requires Good(s) && Slack(s, n) && id < |s.requests| && Owns(s.requests[id]) && outcome != Withdrawn
    requires Story(Put(s, id, Done(outcome), more).requests[id])
    ensures Slack(Released(Put(s, id, Done(outcome), more)), n)
    ensures Slack(Released(Released(Put(s, id, Done(outcome), more))), n + 1)
  {
    var p := Put(s, id, Done(outcome), more);
    QuietPut(s, id, Done(outcome), more);
    PutCounts(s, id, Done(outcome), more);
    CountSome(Owns, s.requests, id);
    ReleaseKeeps(p);
    ReleaseKeeps(Released(p));
  }

  lemma QuietSlack(s: State, id: nat, phase: Phase, more: seq<Action>, n: nat)
    requires Slack(s, n) && id < |s.requests| && Owns(s.requests[id]) == Owns(Put(s, id, phase, more).requests[id])
    ensures Slack(Put(s, id, phase, more), n)
  {
    PutCounts(s, id, phase, more);
  }

  lemma StepSlack(s: State, e: Event, n: nat)
    requires Good(s) && Slack(s, n) && Enabled(s, e)
    ensures Slack(Step(s, e), n + One(Breaks(e)))
  {
    if e.Arrive? {
      ArriveSlack(s, e.stream, n);
    } else {
      var r, id := s.requests[e.id], e.id;
      assert Story(r);
      match e
      case Resume(_) => ResumeSlack(s, id, n);
      case Fail(_) =>
        AnsweredStory();
        EndSlack(s, id, Ended, [GaveBack], n);
      case Reply(_, broken) =>
        AnsweredStory();
        assert [Took] + [GaveBack, GaveBack] == [Took, GaveBack, GaveBack];
        EndSlack(s, id, if broken then BrokenReply else Ended, if broken then [GaveBack, GaveBack] else [GaveBack], n);
      case Close(_, completed, recorded) =>
        CloseStory(s, id, completed, recorded);
        EndSlack(s, id, Ended, [GaveBack] + if recorded then [Recorded(r.phase.chunks, completed)] else [], n);
      case Expire(_) => QuietSlack(s, id, Aborted(r, TimedOut), [], n);
      case Cancel(_) => QuietSlack(s, id, Aborted(r, Cancelled), [], n);
      case Open(_) => QuietSlack(s, id, Flowing(false, 0), [], n);
      case Start(_) => QuietSlack(s, id, Flowing(true, r.phase.chunks), [], n);
      case Chunk(_) => QuietSlack(s, id, Flowing(true, r.phase.chunks + 1), [Relayed], n);
      case Drop(_) => QuietSlack(s, id, Leaked, [], n);
    }
  }

  lemma {:induction false} RunSlack(s: State, events: seq<Event>, n: nat)
    requires Good(s) && Slack(s, n)
    ensures Slack(Run(s, events), n + Count(Breaks, events))
    decreases |events|
  {
    if events != [] {
      var e := events[0];
      if Enabled(s, e) {
        StepKeeps(s, e);
        StepSlack(s, e, n);
      }
      RunSlack(Next(s, e), events[1..], n + One(Breaks(e)));
    }
  }

  /**
   * In every run the counter is at most the number of requests holding a slot, and these are at
   * most the capacity plus the number of broken replies.
   */
  lemma OwnersBounded(capacity: nat, maxQueueWait: real, events: seq<Event>)
    ensures var s := Run(Initial(capacity, maxQueueWait), events);
      && s.inFlight <= Count(Owns, s.requests) <= s.inFlight + Count(Breaks, events)
      && Count(Owns, s.requests) <= capacity + Count(Breaks, events)
  {
    InitiallyGood(capacity, maxQueueWait);
    RunKeeps(Initial(capacity, maxQueueWait), events);
    RunSlack(Initial(capacity, maxQueueWait), events, 0);
  }
}
