/** The life of one request: which phases follow which, whatever the others do. */
module AdmissionDiagram {
  import opened Admission

  /** A move that a request makes itself, by an event of its own. */
  predicate OwnMove(stream: bool, p: Phase, q: Phase) {
    match p
    case Queued => q == Aborting(TimedOut, false) || q == Aborting(Cancelled, false)
    case Granted => q == Calling || q == Aborting(TimedOut, true) || q == Aborting(Cancelled, true)
    case Aborting(why, granted) =>
      q == Aborting(Cancelled, granted) || q == Done(if why == TimedOut then Refused else Withdrawn)
    case Calling => q == Done(Ended) || (if stream then q == Flowing(false, 0) else q == Done(BrokenReply))
    case Flowing(started, chunks) =>
      if started then q == Flowing(true, chunks + 1) || q == Done(Ended) else q == Flowing(true, chunks) || q == Leaked
    case Leaked => false
    case Done(_) => false
  }

  /** The request that an event is about; none for an arrival. */
  predicate Concerns(e: Event, j: nat) {
    match e
    case Arrive(_) => false
    case _ => e.id == j
  }

  /** What may become of a request in one step: nothing, waking up, or a move of its own. */
  predicate May(r: Request, q: Request, own: bool) {
    && q.stream == r.stream
    && (q.phase == r.phase || (r.phase.Queued? && q.phase.Granted?) || (own && OwnMove(r.stream, r.phase, q.phase)))
  }

  /** Nothing but waking up. */
  ghost predicate OnlyWakes(s: State, t: State) {
    |t.requests| == |s.requests| && forall j :: 0 <= j < |s.requests| ==> May(s.requests[j], t.requests[j], false)
  }

  lemma WakeOnlyWakes(s: State)
    requires s.value > 0
    ensures OnlyWakes(s, Wake(s))
  {}

  lemma {:induction false} WakeAllOnlyWakes(s: State)
    ensures OnlyWakes(s, WakeAll(s))
    decreases s.value
  {
    if s.value > 0 && FirstQueued(s.waiters, s.requests).Some? {
      WakeOnlyWakes(s);
      WakeAllOnlyWakes(Wake(s));
    }
  }

  lemma ReleaseOnlyWakes(s: State)
    ensures OnlyWakes(s, Released(s))
  {
    if s.inFlight > 0 {
      WakeOnlyWakes(s.(inFlight := s.inFlight - 1, value := s.value + 1));
    }
  }

  /** After its own move a request that is not asleep stays where it is, and the others only wake up. */
  lemma PutThenWakes(s: State, id: nat, phase: Phase, more: seq<Action>, t: State, j: nat)
    requires id < |s.requests| && j < |s.requests| && OnlyWakes(Put(s, id, phase, more), t) && !phase.Queued?
    requires phase == s.requests[id].phase || OwnMove(s.requests[id].stream, s.requests[id].phase, phase)
    ensures |t.requests| == |s.requests| && May(s.requests[j], t.requests[j], id == j) && t.requests[id].phase == phase
  {
    var u := Put(s, id, phase, more);
    assert May(u.requests[j], t.requests[j], false) && May(u.requests[id], t.requests[id], false);
  }

  lemma NobodyWakes(s: State)
    ensures OnlyWakes(s, s)
  {}

  lemma Abort(s: State, id: nat, why: Why, j: nat)
    requires id < |s.requests| && Waits(s.requests[id]) && j < |s.requests| && (s.requests[id].phase.Aborting? ==> why == Cancelled)
    ensures var t := Put(s, id, Aborted(s.requests[id], why), []);
      |t.requests| == |s.requests| && May(s.requests[j], t.requests[j], id == j)
  {
    NobodyWakes(Put(s, id, Aborted(s.requests[id], why), []));
    PutThenWakes(s, id, Aborted(s.requests[id], why), [], Put(s, id, Aborted(s.requests[id], why), []), j);
  }

  lemma LeaveMoves(s: State, id: nat, phase: Phase, more: seq<Action>, back: nat, j: nat)
    requires id < |s.requests| && j < |s.requests| && !phase.Queued? && OwnMove(s.requests[id].stream, s.requests[id].phase, phase)
    ensures var t := LeftQueue(s, id, phase, more, back);
      |t.requests| == |s.requests| && May(s.requests[j], t.requests[j], id == j) && t.requests[id].phase == phase
  {
    WakeAllOnlyWakes(Left(s, id, phase, more, back));
    PutThenWakes(s, id, phase, more, LeftQueue(s, id, phase, more, back), j);
  }

  lemma EndMoves(s: State, id: nat, outcome: Outcome, more: seq<Action>, t: State, j: nat)
    requires id < |s.requests| && j < |s.requests| && OwnMove(s.requests[id].stream, s.requests[id].phase, Done(outcome))
    requires OnlyWakes(Put(s, id, Done(outcome), more), t)
    ensures |t.requests| == |s.requests| && May(s.requests[j], t.requests[j], id == j) && t.requests[id].phase == Done(outcome)
  {
    PutThenWakes(s, id, Done(outcome), more, t, j);
  }

  lemma BrokenOnlyWakes(s: State)
    ensures OnlyWakes(s, Released(Released(s)))
  {
    ReleaseOnlyWakes(s);
    ReleaseOnlyWakes(Released(s));
    var u, t := Released(s), Released(Released(s));
    forall j | 0 <= j < |s.requests| ensures May(s.requests[j], t.requests[j], false) {
      assert May(s.requests[j], u.requests[j], false) && May(u.requests[j], t.requests[j], false);
    }
  }

  /** Every change of phase is one of these: a request moves by its own events, and is woken by anybody's. */
  lemma MovesAreThese(s: State, e: Event, j: nat)
    requires j < |s.requests|
    ensures |Next(s, e).requests| == |s.requests| + (if e.Arrive? then 1 else 0)
    ensures May(s.requests[j], Next(s, e).requests[j], Concerns(e, j))
  {
    if Enabled(s, e) {
      match e
      case Arrive(_) =>
      case Expire(id) => Abort(s, id, TimedOut, j);
      case Cancel(id) => Abort(s, id, Cancelled, j);
      case Resume(id) =>
        var phase := s.requests[id].phase;
        if phase.Granted? {
          LeaveMoves(s, id, Calling, [Took], 0, j);
        } else {
          LeaveMoves(s, id, Done(if phase.why == TimedOut then Refused else Withdrawn), [], if phase.granted then 1 else 0, j);
        }
      case Fail(id) =>
        ReleaseOnlyWakes(Put(s, id, Done(Ended), [GaveBack]));
        EndMoves(s, id, Ended, [GaveBack], Step(s, e), j);
      case Reply(id, broken) =>
        var outcome, more := if broken then BrokenReply else Ended, if broken then [GaveBack, GaveBack] else [GaveBack];
        ReleaseOnlyWakes(Put(s, id, Done(outcome), more));
        BrokenOnlyWakes(Put(s, id, Done(outcome), more));
        EndMoves(s, id, outcome, more, Step(s, e), j);
      case Close(id, completed, recorded) =>
        var more := [GaveBack] + if recorded then [Recorded(s.requests[id].phase.chunks, completed)] else [];
        ReleaseOnlyWakes(Put(s, id, Done(Ended), more));
        EndMoves(s, id, Ended, more, Step(s, e), j);
      case _ =>
    }
  }

  lemma WaitingMoves(s: State, id: nat, q: Phase) returns (e: Event)
    requires id < |s.requests| && Waits(s.requests[id]) && OwnMove(s.requests[id].stream, s.requests[id].phase, q)
    ensures Concerns(e, id) && |Next(s, e).requests| == |s.requests| && Next(s, e).requests[id].phase == q
  {
    var phase := s.requests[id].phase;
    if phase.Granted? {
      e := if q == Calling then Resume(id) else if q.why == TimedOut then Expire(id) else Cancel(id);
      LeaveMoves(s, id, Calling, [Took], 0, id);
    } else if phase.Aborting? {
      e := if q.Done? then Resume(id) else Cancel(id);
      LeaveMoves(s, id, Done(if phase.why == TimedOut then Refused else Withdrawn), [], if phase.granted then 1 else 0, id);
    } else {
      e := if q.why == TimedOut then Expire(id) else Cancel(id);
    }
  }

  lemma CallingMoves(s: State, id: nat, q: Phase) returns (e: Event)
    requires id < |s.requests| && s.requests[id].phase.Calling? && OwnMove(s.requests[id].stream, Calling, q)
    ensures Concerns(e, id) && |Next(s, e).requests| == |s.requests| && Next(s, e).requests[id].phase == q
  {
    e := if q == Done(Ended) then Fail(id) else if s.requests[id].stream then Open(id) else Reply(id, true);
    ReleaseOnlyWakes(Put(s, id, Done(Ended), [GaveBack]));
    EndMoves(s, id, Ended, [GaveBack], Released(Put(s, id, Done(Ended), [GaveBack])), id);
    if !s.requests[id].stream {
      BrokenOnlyWakes(Put(s, id, Done(BrokenReply), [GaveBack, GaveBack]));
      EndMoves(s, id, BrokenReply, [GaveBack, GaveBack], Released(Released(Put(s, id, Done(BrokenReply), [GaveBack, GaveBack]))), id);
    }
  }

  lemma FlowingMoves(s: State, id: nat, q: Phase) returns (e: Event)
    requires id < |s.requests| && s.requests[id].phase.Flowing? && OwnMove(s.requests[id].stream, s.requests[id].phase, q)
    ensures Concerns(e, id) && |Next(s, e).requests| == |s.requests| && Next(s, e).requests[id].phase == q
  {
    if s.requests[id].phase.started {
      e := if q.Done? then Close(id, true, false) else Chunk(id);
      ReleaseOnlyWakes(Put(s, id, Done(Ended), [GaveBack] + []));
      EndMoves(s, id, Ended, [GaveBack] + [], Released(Put(s, id, Done(Ended), [GaveBack] + [])), id);
    } else {
      e := if q == Leaked then Drop(id) else Start(id);
    }
  }

  /** And each can happen, in whatever state the others are. */
  lemma MovesHappen(s: State, id: nat, q: Phase) returns (e: Event)
    requires id < |s.requests| && OwnMove(s.requests[id].stream, s.requests[id].phase, q)
    ensures Concerns(e, id) && |Next(s, e).requests| == |s.requests| && Next(s, e).requests[id].phase == q
  {
    if s.requests[id].phase.Calling? {
      e := CallingMoves(s, id, q);
    } else if s.requests[id].phase.Flowing? {
      e := FlowingMoves(s, id, q);
    } else {
      e := WaitingMoves(s, id, q);
    }
  }

  /** A complete answer goes back, too. */
  lemma AnswersGoBack(s: State, id: nat)
    requires id < |s.requests| && s.requests[id].phase.Calling? && !s.requests[id].stream
    ensures var t := Next(s, Reply(id, false));
      |t.requests| == |s.requests| && t.requests[id] == Request(false, Done(Ended), s.requests[id].history + [GaveBack])
  {
    var u := Put(s, id, Done(Ended), [GaveBack]);
    if u.inFlight > 0 {
      var r := FirstQueued(u.waiters, u.requests);
    }
  }
}
