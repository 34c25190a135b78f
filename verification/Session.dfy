/** A session of variants under a time budget (remote/kernels/bench_sweep.py). */
module Session {
  import opened Seqs
  import opened Text

  // ----- the admission rule ------------------------------------------------------------

  predicate IsRepeat(name: string) {
    exists k :: 0 <= k < |name| && At(Lower(name), k, "repeat")
  }

  /** What the skip message says. */
  datatype Reason = Reason(budget: real, elapsed: real, estimate: real, reserve: real)

  function Reserve(estimate: real, keep: bool): real {
    if keep then estimate else 0.0
  }

  function PlanSkip(index: nat, variants: seq<string>, completed: seq<real>, elapsed: real, budget: real): Option<Reason>
    requires index < |variants|
  {
    var last := |variants| - 1;
    var keep := IsRepeat(variants[last]);
    if index == last && keep then None
    else if completed == [] then None
    else
      var estimate := MaxOf(completed);
      if elapsed + estimate + Reserve(estimate, keep) <= budget then None
      else Some(Reason(budget, elapsed, estimate, Reserve(estimate, keep)))
  }

  // ----- the session --------------------------------------------------------------------

  /** What running a variant came to: a result, with a curve or without one, or an exception. */
  datatype Trial = Returned(curve: bool) | Raised(message: string)

  datatype Outcome = Skipped(name: string, reason: Reason) | Crashed(name: string, message: string) | Ran(name: string, curve: bool)

  /** The clock as the loop reads it for one variant, and what the variant does if it is run. */
  datatype Turn = Turn(planned: real, started: real, ended: real, trial: Trial)

  function Plan(variants: seq<string>, turns: seq<Turn>, budget: real, i: nat): Option<Reason>
    requires i < |variants| == |turns|
    decreases i, 1
  {
    PlanSkip(i, variants, Durations(variants, turns, budget, i), turns[i].planned, budget)
  }

  /** How long the variants that produced a curve took, among the first `i`. */
  function Durations(variants: seq<string>, turns: seq<Turn>, budget: real, i: nat): seq<real>
    requires i <= |variants| == |turns|
    decreases i, 0
  {
    if i == 0 then []
    else
      var before := Durations(variants, turns, budget, i - 1);
      if Plan(variants, turns, budget, i - 1).None? && turns[i - 1].trial.Returned? && turns[i - 1].trial.curve
      then before + [turns[i - 1].ended - turns[i - 1].started]
      else before
  }

  function OutcomeOf(variants: seq<string>, turns: seq<Turn>, budget: real, i: nat): Outcome
    requires i < |variants| == |turns|
  {
    match Plan(variants, turns, budget, i)
    case Some(reason) => Skipped(variants[i], reason)
    case None =>
      match turns[i].trial
      case Raised(message) => Crashed(variants[i], message)
      case Returned(curve) => Ran(variants[i], curve)
  }

  method RunSession(variants: seq<string>, turns: seq<Turn>, budget: real) returns (outcomes: seq<Outcome>)
    requires |variants| == |turns|
    ensures |outcomes| == |variants|
    ensures forall i :: 0 <= i < |variants| ==> outcomes[i] == OutcomeOf(variants, turns, budget, i)
    ensures forall i :: 0 <= i < |variants| ==> outcomes[i].name == variants[i]
    ensures forall i :: 0 <= i < |variants| ==> (outcomes[i].Skipped? <==> Plan(variants, turns, budget, i).Some?)
    ensures forall i :: 0 <= i < |variants| && !outcomes[i].Skipped? && turns[i].trial.Raised? ==>
      outcomes[i] == Crashed(variants[i], turns[i].trial.message)
  {
    outcomes := [];
    var durations: seq<real> := [];
    for index := 0 to |variants|
      invariant |outcomes| == index
      invariant forall i :: 0 <= i < index ==> outcomes[i] == OutcomeOf(variants, turns, budget, i)
      invariant durations == Durations(variants, turns, budget, index)
    {
      var name, turn := variants[index], turns[index];
      var reason := PlanSkip(index, variants, durations, turn.planned, budget);
      if reason.Some? {
        outcomes := outcomes + [Skipped(name, reason.value)];
      } else {
        match turn.trial
        case Raised(message) =>
          outcomes := outcomes + [Crashed(name, message)];
        case Returned(curve) =>
          if curve {
            durations := durations + [turn.ended - turn.started];
          }
          outcomes := outcomes + [Ran(name, curve)];
      }
    }
  }
}
