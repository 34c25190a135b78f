/** What a budgeted session promises, whatever its variants do. */
module SessionProperties {
  import opened Seqs
  import opened Text
  import opened Session

  predicate Runs(variants: seq<string>, turns: seq<Turn>, budget: real, i: nat)
    requires i < |variants| == |turns|
  {
    Plan(variants, turns, budget, i).None?
  }

  predicate GivesCurve(trial: Trial) {
    trial.Returned? && trial.curve
  }

  /** How a variant without a curve failed, an exception or a result, is known to nothing after it. */
  lemma {:induction false} FailureForgotten(variants: seq<string>, turns: seq<Turn>, budget: real, i: nat, trial: Trial, k: nat)
    requires i < |variants| == |turns| && k <= |variants| && !GivesCurve(turns[i].trial) && !GivesCurve(trial)
    ensures Durations(variants, turns[i := turns[i].(trial := trial)], budget, k) == Durations(variants, turns, budget, k)
    decreases k
  {
    if k > 0 {
      FailureForgotten(variants, turns, budget, i, trial, k - 1);
    }
  }

  /** So one failing never stops or changes the rest: every other variant has the outcome it would have had. */
  lemma FailureIsContained(variants: seq<string>, turns: seq<Turn>, budget: real, i: nat, trial: Trial, j: nat)
    requires i < |variants| == |turns| && j < |variants| && i != j && !GivesCurve(turns[i].trial) && !GivesCurve(trial)
    ensures OutcomeOf(variants, turns[i := turns[i].(trial := trial)], budget, j) == OutcomeOf(variants, turns, budget, j)
  {
    FailureForgotten(variants, turns, budget, i, trial, j);
  }

  /** The word is somewhere in the name, in whatever case. */
  ghost predicate SaysRepeat(name: string) {
    exists a, b :: Lower(name) == a + "repeat" + b
  }

  lemma SaysRepeatIs(name: string)
    ensures SaysRepeat(name) <==> IsRepeat(name)
  {
    var s := Lower(name);
    if a, b :| s == a + "repeat" + b {
      assert s[|a|..|a| + 6] == "repeat";
      AtSlice(s, |a|, "repeat");
    }
    if k :| 0 <= k < |name| && At(s, k, "repeat") {
      AtSlice(s, k, "repeat");
      assert s == s[..k] + "repeat" + s[k + 6..];
    }
  }

  /** A final repeat is never skipped; nor is anything before the first curve. */
  lemma AlwaysRun(variants: seq<string>, turns: seq<Turn>, budget: real, i: nat)
    requires i < |variants| == |turns|
    requires (i == |variants| - 1 && SaysRepeat(variants[i])) || forall j :: 0 <= j < i ==> turns[j].trial.Raised? || !turns[j].trial.curve
    ensures !OutcomeOf(variants, turns, budget, i).Skipped?
  {
    SaysRepeatIs(variants[i]);
    if !(i == |variants| - 1 && SaysRepeat(variants[i])) {
      NoCurveNoDuration(variants, turns, budget, i);
    }
  }

  lemma {:induction false} NoCurveNoDuration(variants: seq<string>, turns: seq<Turn>, budget: real, i: nat)
    requires i <= |variants| == |turns|
    requires forall j :: 0 <= j < i ==> turns[j].trial.Raised? || !turns[j].trial.curve
    ensures Durations(variants, turns, budget, i) == []
  {
    if i > 0 {
      NoCurveNoDuration(variants, turns, budget, i - 1);
    }
  }

  /** The longest of some durations. */
  predicate Longest(durations: seq<real>, estimate: real) {
    estimate in durations && forall i :: 0 <= i < |durations| ==> durations[i] <= estimate
  }

  /**
   * The plan, case by case. A last variant that says it is a repeat is run. So is any other while
   * nothing has given an estimate; and then if it, and the repeat that may be still to come, would end
   * within the budget when each takes as long as the longest so far.
   */
  lemma PlanExactly(variants: seq<string>, turns: seq<Turn>, budget: real, i: nat, estimate: real)
    requires i < |variants| == |turns| && (Durations(variants, turns, budget, i) != [] ==> Longest(Durations(variants, turns, budget, i), estimate))
    ensures var last := |variants| - 1;
      OutcomeOf(variants, turns, budget, i).Skipped? <==>
        && !(i == last && SaysRepeat(variants[last]))
        && Durations(variants, turns, budget, i) != []
        && (if SaysRepeat(variants[last]) then turns[i].planned + estimate + estimate > budget
            else turns[i].planned + estimate > budget)
    ensures var outcome := OutcomeOf(variants, turns, budget, i);
      outcome.Skipped? ==> outcome.reason == Reason(budget, turns[i].planned, estimate, if SaysRepeat(variants[|variants| - 1]) then estimate else 0.0)
  {
    SaysRepeatIs(variants[|variants| - 1]);
    var durations := Durations(variants, turns, budget, i);
    if durations != [] {
      assert MaxOf(durations) == estimate;
    }
  }

  /** The durations are those of the variants before that ran and gave a curve, in order. */
  lemma {:induction false} DurationsAre(variants: seq<string>, turns: seq<Turn>, budget: real, i: nat)
    requires i <= |variants| == |turns|
    ensures forall d :: d in Durations(variants, turns, budget, i) <==>
      exists j :: 0 <= j < i && OutcomeOf(variants, turns, budget, j) == Ran(variants[j], true) && d == turns[j].ended - turns[j].started
  {
    if i > 0 {
      DurationsAre(variants, turns, budget, i - 1);
    }
  }

  // ----- time ---------------------------------------------------------------------------------

  /** When variant `i` is dealt with: after its run, or straight after the decision to skip it. */
  function Left(variants: seq<string>, turns: seq<Turn>, budget: real, i: nat): real
    requires i < |variants| == |turns|
  {
    if Runs(variants, turns, budget, i) then turns[i].ended else turns[i].planned
  }

  /** The clock never goes back. */
  ghost predicate Forward(variants: seq<string>, turns: seq<Turn>, budget: real)
    requires |variants| == |turns|
  {
    && (forall i :: 0 <= i < |turns| ==> turns[i].planned <= turns[i].started <= turns[i].ended)
    && forall i :: 0 <= i < |turns| - 1 ==> Left(variants, turns, budget, i) <= turns[i + 1].planned
  }

  /** A run counts as no longer than the longest completed before it, where there is one. */
  ghost predicate NoneLonger(variants: seq<string>, turns: seq<Turn>, budget: real)
    requires |variants| == |turns|
  {
    forall i: nat :: i < |variants| && Runs(variants, turns, budget, i) && Durations(variants, turns, budget, i) != [] ==>
      turns[i].ended - turns[i].started <= MaxOf(Durations(variants, turns, budget, i))
  }

  /** Admitted because its estimate fits, not because it must run. */
  ghost predicate AdmittedByEstimate(variants: seq<string>, turns: seq<Turn>, budget: real, i: nat)
    requires i < |variants| == |turns|
  {
    && Runs(variants, turns, budget, i) && Durations(variants, turns, budget, i) != []
    && !(i == |variants| - 1 && SaysRepeat(variants[i]))
  }

  /** From the decision to run a variant to its start. */
  function Lead(variants: seq<string>, turns: seq<Turn>, budget: real, i: nat): real
    requires i < |variants| == |turns|
  {
    if Runs(variants, turns, budget, i) then turns[i].started - turns[i].planned else 0.0
  }

  /** From dealing with a variant to planning the next. */
  function Gap(variants: seq<string>, turns: seq<Turn>, budget: real, i: nat): real
    requires i + 1 < |variants| == |turns|
  {
    turns[i + 1].planned - Left(variants, turns, budget, i)
  }

  /** Time from planning variant `i` to the end of the session that no run accounts for. */
  function Idle(variants: seq<string>, turns: seq<Turn>, budget: real, i: nat): real
    requires i < |variants| == |turns|
    decreases |variants| - i
  {
    Lead(variants, turns, budget, i)
    + (if i == |variants| - 1 then 0.0
       else Gap(variants, turns, budget, i) + Idle(variants, turns, budget, i + 1))
  }

  lemma IdleNext(variants: seq<string>, turns: seq<Turn>, budget: real, i: nat)
    requires i < |variants| == |turns|
    ensures i == |variants| - 1 ==> Idle(variants, turns, budget, i) == Lead(variants, turns, budget, i)
    ensures i < |variants| - 1 ==>
      Idle(variants, turns, budget, i) == Lead(variants, turns, budget, i) + Gap(variants, turns, budget, i) + Idle(variants, turns, budget, i + 1)
  {}

  /** Whether variant `i` runs, by the time it is planned at. */
  lemma RunsWhen(variants: seq<string>, turns: seq<Turn>, budget: real, i: nat, completed: seq<real>)
    requires i < |variants| == |turns| && completed == Durations(variants, turns, budget, i)
    ensures Runs(variants, turns, budget, i) <==>
      || (i == |variants| - 1 && IsRepeat(variants[i])) || completed == []
      || turns[i].planned + MaxOf(completed) + Reserve(MaxOf(completed), IsRepeat(variants[|variants| - 1])) <= budget
  {
    assert Plan(variants, turns, budget, i) == PlanSkip(i, variants, completed, turns[i].planned, budget);
  }

  lemma MaxAppend(xs: seq<real>, d: real)
    requires xs != [] && d <= MaxOf(xs)
    ensures MaxOf(xs + [d]) == MaxOf(xs)
  {
    assert MaxOf(xs) in xs + [d];
    assert forall x :: x in xs + [d] ==> x in xs || x == d;
  }

  /** Once there is an estimate, runs that are none longer leave it alone and stay within it. */
  lemma EstimateStays(variants: seq<string>, turns: seq<Turn>, budget: real, i: nat, estimate: real)
    requires i < |variants| == |turns| && NoneLonger(variants, turns, budget)
    requires Durations(variants, turns, budget, i) != [] && estimate == MaxOf(Durations(variants, turns, budget, i))
    ensures Durations(variants, turns, budget, i + 1) != []
    ensures MaxOf(Durations(variants, turns, budget, i + 1)) == estimate
    ensures Runs(variants, turns, budget, i) ==> turns[i].ended <= turns[i].started + estimate
  {
    var before, after := Durations(variants, turns, budget, i), Durations(variants, turns, budget, i + 1);
    var d := turns[i].ended - turns[i].started;
    DurationsNext(variants, turns, budget, i, before, after, d);
    if after != before {
      MaxAppend(before, d);
    }
  }

  lemma DurationsNext(variants: seq<string>, turns: seq<Turn>, budget: real, i: nat, before: seq<real>, after: seq<real>, d: real)
    requires i < |variants| == |turns| && d == turns[i].ended - turns[i].started
    requires before == Durations(variants, turns, budget, i) && after == Durations(variants, turns, budget, i + 1)
    ensures after == before || (after == before + [d] && Runs(variants, turns, budget, i))
  {}

  lemma {:induction false} EstimatePositive(variants: seq<string>, turns: seq<Turn>, budget: real, i: nat)
    requires i <= |variants| == |turns| && Forward(variants, turns, budget)
    ensures forall k :: 0 <= k < |Durations(variants, turns, budget, i)| ==> Durations(variants, turns, budget, i)[k] >= 0.0
    ensures MaxOf(Durations(variants, turns, budget, i)) >= 0.0
  {
    if i > 0 {
      EstimatePositive(variants, turns, budget, i - 1);
    }
  }

  /** There is an estimate, and what is left before variant `i` and its reserve fit the budget. */
  ghost predicate Fits(variants: seq<string>, turns: seq<Turn>, budget: real, i: nat, estimate: real, room: real)
    requires i < |variants| == |turns|
  {
    && Durations(variants, turns, budget, i) != [] && estimate == MaxOf(Durations(variants, turns, budget, i))
    && room >= 0.0
    && (|| turns[i].planned + Reserve(estimate, IsRepeat(variants[|variants| - 1])) <= budget + room
        || AdmittedByEstimate(variants, turns, budget, i))
  }

  /** One variant takes its estimate, or nothing. */
  lemma OneTurn(variants: seq<string>, turns: seq<Turn>, budget: real, i: nat, estimate: real, room: real)
    requires i < |variants| == |turns| && Forward(variants, turns, budget) && NoneLonger(variants, turns, budget)
    requires Fits(variants, turns, budget, i, estimate, room)
    ensures Lead(variants, turns, budget, i) >= 0.0
    ensures Left(variants, turns, budget, i) <= budget + room + Lead(variants, turns, budget, i)
    ensures i < |variants| - 1 ==>
      Left(variants, turns, budget, i) + Reserve(estimate, IsRepeat(variants[|variants| - 1])) <= budget + room + Lead(variants, turns, budget, i)
  {
    SaysRepeatIs(variants[i]);
    RunsWhen(variants, turns, budget, i, Durations(variants, turns, budget, i));
    EstimateStays(variants, turns, budget, i, estimate);
    EstimatePositive(variants, turns, budget, i);
  }

  lemma NextFits(variants: seq<string>, turns: seq<Turn>, budget: real, i: nat, estimate: real, room: real) returns (more: real)
    requires i + 1 < |variants| == |turns| && Forward(variants, turns, budget) && NoneLonger(variants, turns, budget)
    requires Fits(variants, turns, budget, i, estimate, room)
    ensures more == room + Lead(variants, turns, budget, i) + Gap(variants, turns, budget, i)
    ensures Fits(variants, turns, budget, i + 1, estimate, more)
  {
    more := room + Lead(variants, turns, budget, i) + Gap(variants, turns, budget, i);
    OneTurn(variants, turns, budget, i, estimate, room);
    EstimateStays(variants, turns, budget, i, estimate);
  }

  /** From there the session ends within the budget, but for idle time. */
  lemma {:induction false} RestFits(variants: seq<string>, turns: seq<Turn>, budget: real, i: nat, estimate: real, room: real)
    requires i < |variants| == |turns| && Forward(variants, turns, budget) && NoneLonger(variants, turns, budget)
    requires Fits(variants, turns, budget, i, estimate, room)
    ensures Left(variants, turns, budget, |variants| - 1) <= budget + room + Idle(variants, turns, budget, i)
    decreases |variants| - i
  {
    IdleNext(variants, turns, budget, i);
    if i < |variants| - 1 {
      var more := NextFits(variants, turns, budget, i, estimate, room);
      RestFits(variants, turns, budget, i + 1, estimate, more);
    } else {
      OneTurn(variants, turns, budget, i, estimate, room);
    }
  }

  /**
   * When no run lasts longer than the longest completed before it, then once any variant has been
   * admitted by the estimate the whole session, a reserved final repeat included, ends within the
   * budget, but for time that no run accounts for.
   */
  lemma EndsWithinBudget(variants: seq<string>, turns: seq<Turn>, budget: real, i: nat)
    requires i < |variants| == |turns| && Forward(variants, turns, budget) && NoneLonger(variants, turns, budget)
    requires AdmittedByEstimate(variants, turns, budget, i)
    ensures Left(variants, turns, budget, |variants| - 1) <= budget + Idle(variants, turns, budget, i)
  {
    RestFits(variants, turns, budget, i, MaxOf(Durations(variants, turns, budget, i)), 0.0);
  }

  /** After the first skip nothing runs but the final repeat: time passes and the estimate stays. */
  lemma {:induction false} SkipsStick(variants: seq<string>, turns: seq<Turn>, budget: real, i: nat, j: nat)
    requires i <= j < |variants| == |turns| && Forward(variants, turns, budget)
    requires !Runs(variants, turns, budget, i)
    ensures Runs(variants, turns, budget, j) <==> j == |variants| - 1 && SaysRepeat(variants[j])
    ensures Durations(variants, turns, budget, j) == Durations(variants, turns, budget, i)
    ensures turns[i].planned <= turns[j].planned
    decreases j - i
  {
    var completed := Durations(variants, turns, budget, i);
    SaysRepeatIs(variants[i]);
    SaysRepeatIs(variants[j]);
    RunsWhen(variants, turns, budget, i, completed);
    if i < j {
      SkipsStick(variants, turns, budget, i, j - 1);
      assert Left(variants, turns, budget, j - 1) == turns[j - 1].planned;
      RunsWhen(variants, turns, budget, j, completed);
    }
  }
}
