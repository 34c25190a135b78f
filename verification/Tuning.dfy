/** Comparing engine configurations (bench/tuning.py): the Pareto frontier and the best sustained rate. */
module Tuning {
  import opened Seqs
  import opened Sorting
  import opened Text
  import opened Report

  /** What one variant came to: a curve, or none. */
  datatype VariantResult = VariantResult(name: string, steps: Option<seq<StepSummary>>, error: Option<string>) {
    predicate Ok() {
      steps.Some? && error.None?
    }

    predicate Valid() {
      Ok() && GeneratorKeptUp(steps.value)
    }

    function Sustained(): Option<real> {
      if steps.None? then None else MaxSustainable(steps.value)
    }

    /** "Sustained nothing" counts as 0. */
    function Rate(): real {
      match Sustained() case None => 0.0 case Some(r) => r
    }

    function Goodput(): real {
      if steps.None? then 0.0
      else match PeakGoodput(steps.value) case None => 0.0 case Some(s) => s.goodput
    }
  }

  predicate Dominates(a: VariantResult, b: VariantResult) {
    a.Rate() >= b.Rate() && a.Goodput() >= b.Goodput() && (a.Rate() > b.Rate() || a.Goodput() > b.Goodput())
  }

  function Candidates(results: seq<VariantResult>): seq<VariantResult> {
    Filter((r: VariantResult) => r.Valid(), results)
  }

  predicate Undominated(r: VariantResult, candidates: seq<VariantResult>) {
    forall k :: 0 <= k < |candidates| ==> !Dominates(candidates[k], r)
  }

  /** `(sustainable_rate, peak_goodput, name)` as tuples compare. */
  predicate KeyLe(a: VariantResult, b: VariantResult) {
    || a.Rate() < b.Rate()
    || (a.Rate() == b.Rate() && (a.Goodput() < b.Goodput() || (a.Goodput() == b.Goodput() && NameLe(a.name, b.name))))
  }

  function Frontier(results: seq<VariantResult>): seq<VariantResult> {
    var candidates := Candidates(results);
    Sort(Filter((r: VariantResult) => Undominated(r, candidates), candidates), KeyLe)
  }

  predicate Eligible(r: VariantResult) {
    r.Valid() && r.Sustained().Some?
  }

  predicate Beats(a: VariantResult, b: VariantResult) {
    a.Rate() > b.Rate() || (a.Rate() == b.Rate() && a.Goodput() > b.Goodput())
  }

  function BestFrom(results: seq<VariantResult>, best: Option<VariantResult>): Option<VariantResult> {
    if results == [] then best
    else if Eligible(results[0]) && (best.None? || Beats(results[0], best.value)) then BestFrom(results[1..], Some(results[0]))
    else BestFrom(results[1..], best)
  }

  method BestSustainable(results: seq<VariantResult>) returns (best: Option<VariantResult>)
    ensures best == BestFrom(results, None)
  {
    best := None;
    for i := 0 to |results|
      invariant BestFrom(results, None) == BestFrom(results[i..], best)
    {
      var result := results[i];
      assert results[i..][1..] == results[i + 1..];
      if !result.Valid() || result.steps.None? {
        continue;
      }
      if result.Sustained().None? {
        continue;
      }
      if best.None? || Beats(result, best.value) {
        best := Some(result);
      }
    }
  }
}
