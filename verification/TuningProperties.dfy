/** The frontier is exactly the maximal antichain, and the best sustained rate is its last point. */
module TuningProperties {
  import opened Seqs
  import opened Sorting
  import opened Text
  import opened Requests
  import opened Report
  import opened ReportProperties
  import opened ReportFigures
  import opened Tuning

  // ----- orders ------------------------------------------------------------------------

  lemma KeyOrder()
    ensures TotalPreorder(KeyLe)
  {
    forall x, y ensures KeyLe(x, y) || KeyLe(y, x) {
      NameTotal(x.name, y.name);
    }
    forall x, y, z | KeyLe(x, y) && KeyLe(y, z) ensures KeyLe(x, z) {
      if NameLe(x.name, y.name) && NameLe(y.name, z.name) {
        NameTransitive(x.name, y.name, z.name);
      }
    }
  }

  // ----- the frontier ---------------------------------------------------------------------

  lemma CandidatesAre(results: seq<VariantResult>)
    ensures forall r :: r in Candidates(results) <==> r in results && r.Valid()
  {
    FilterElements((r: VariantResult) => r.Valid(), results);
  }

  lemma FrontierIs(results: seq<VariantResult>)
    ensures forall r :: r in Frontier(results) <==> r in Candidates(results) && Undominated(r, Candidates(results))
    ensures Sorted(Frontier(results), KeyLe)
  {
    var candidates := Candidates(results);
    var kept := Filter((r: VariantResult) => Undominated(r, candidates), candidates);
    FilterElements((r: VariantResult) => Undominated(r, candidates), candidates);
    SortPermutes(kept, KeyLe);
    KeyOrder();
    SortSorts(kept, KeyLe);
  }

  function Dominators(r: VariantResult): VariantResult -> bool {
    (o: VariantResult) => Dominates(o, r)
  }

  /** Whoever dominates a dominator also dominates, and nobody dominates himself: so fewer dominate the dominator. */
  lemma {:induction false} FewerDominate(candidates: seq<VariantResult>, o: VariantResult, r: VariantResult)
    requires Dominates(o, r)
    ensures Count(Dominators(o), candidates) <= Count(Dominators(r), candidates)
    ensures o in candidates ==> Count(Dominators(o), candidates) < Count(Dominators(r), candidates)
  {
    if candidates != [] {
      FewerDominate(candidates[1..], o, r);
      assert candidates == [candidates[0]] + candidates[1..];
    }
  }

  /** Climbing from dominator to dominator ends at a result that nothing dominates. */
  lemma {:induction false} SomeUndominatedDominator(candidates: seq<VariantResult>, r: VariantResult) returns (top: VariantResult)
    requires !Undominated(r, candidates)
    ensures top in candidates && Dominates(top, r) && Undominated(top, candidates)
    decreases Count(Dominators(r), candidates)
  {
    var k :| 0 <= k < |candidates| && Dominates(candidates[k], r);
    top := candidates[k];
    if !Undominated(top, candidates) {
      FewerDominate(candidates, top, r);
      top := SomeUndominatedDominator(candidates, top);
    }
  }

  /**
   * The frontier: valid results only, none dominating another, and every valid result left out is
   * dominated by one that is on it.
   */
  lemma FrontierIsMaximal(results: seq<VariantResult>)
    ensures forall r :: r in Frontier(results) ==> r in results && r.Valid()
    ensures forall a, b :: a in Frontier(results) && b in Frontier(results) ==> !Dominates(a, b)
    ensures forall r :: r in results && r.Valid() && r !in Frontier(results) ==>
      exists a :: a in Frontier(results) && Dominates(a, r)
  {
    var candidates := Candidates(results);
    CandidatesAre(results);
    FrontierIs(results);
    forall a, b | a in Frontier(results) && b in Frontier(results) ensures !Dominates(a, b) {
      assert a in candidates;
      var k :| 0 <= k < |candidates| && candidates[k] == a;
    }
    forall r | r in results && r.Valid() && r !in Frontier(results) ensures exists a :: a in Frontier(results) && Dominates(a, r) {
      var top := SomeUndominatedDominator(candidates, r);
      assert top in Frontier(results);
    }
  }

  lemma {:induction false} FilterKeepsCopies<A>(p: A -> bool, s: seq<A>, x: A)
    ensures multiset(Filter(p, s))[x] == if p(x) then multiset(s)[x] else 0
  {
    if s != [] {
      assert s == [s[0]] + s[1..];
      FilterKeepsCopies(p, s[1..], x);
    }
  }

  /** Results that tie on both axes are all kept: each as often as it was measured. */
  lemma FrontierKeepsTies(results: seq<VariantResult>, r: VariantResult)
    requires r in Frontier(results)
    ensures multiset(Frontier(results))[r] == multiset(results)[r]
    ensures forall q :: q in results && q.Valid() && q.Rate() == r.Rate() && q.Goodput() == r.Goodput() ==> q in Frontier(results)
  {
    var candidates := Candidates(results);
    var kept := Filter((x: VariantResult) => Undominated(x, candidates), candidates);
    FrontierIs(results);
    CandidatesAre(results);
    SortPermutes(kept, KeyLe);
    assert Frontier(results) == Sort(kept, KeyLe);
    FilterKeepsCopies((x: VariantResult) => Undominated(x, candidates), candidates, r);
    FilterKeepsCopies((x: VariantResult) => x.Valid(), results, r);
    forall q | q in results && q.Valid() && q.Rate() == r.Rate() && q.Goodput() == r.Goodput() ensures q in Frontier(results) {
      assert q in candidates;
      forall k | 0 <= k < |candidates| ensures !Dominates(candidates[k], q) {
        assert !Dominates(candidates[k], r);
      }
    }
  }

  /** Along the frontier the rate rises and the goodput falls; only ties stand still on either axis, in the order of their names. */
  lemma FrontierTradesOff(results: seq<VariantResult>, i: nat, j: nat)
    requires i < j < |Frontier(results)|
    ensures var a, b := Frontier(results)[i], Frontier(results)[j];
      && a.Rate() <= b.Rate() && a.Goodput() >= b.Goodput()
      && (a.Rate() == b.Rate() <==> a.Goodput() == b.Goodput())
      && (a.Rate() == b.Rate() ==> NameLe(a.name, b.name))
  {
    var a, b := Frontier(results)[i], Frontier(results)[j];
    FrontierIsMaximal(results);
    FrontierIs(results);
    assert a in Frontier(results) && b in Frontier(results);
    assert KeyLe(a, b);
  }

  // ----- what counts, on both axes ---------------------------------------------------------------

  /** It was measured without an error, and in no step was the generator a quarter of a second late. */
  predicate Trusted(r: VariantResult) {
    r.error.None? && r.steps.Some? && forall i :: 0 <= i < |r.steps.value| ==> r.steps.value[i].maxScheduleLag < 0.25
  }

  /** The sustained rate, 0 where nothing was sustained. */
  predicate HasRate(r: VariantResult, rate: real) {
    if r.steps.None? || MaxSustainable(r.steps.value).None? then rate == 0.0 else rate == MaxSustainable(r.steps.value).value
  }

  /** The highest goodput of any step, 0 without steps. */
  ghost predicate HasGoodput(r: VariantResult, goodput: real) {
    if r.steps.None? || r.steps.value == [] then goodput == 0.0
    else
      && (exists i :: 0 <= i < |r.steps.value| && r.steps.value[i].goodput == goodput)
      && forall i :: 0 <= i < |r.steps.value| ==> r.steps.value[i].goodput <= goodput
  }

  lemma AxesMean(r: VariantResult)
    ensures HasRate(r, r.Rate()) && HasGoodput(r, r.Goodput()) && (r.Valid() <==> Trusted(r))
    ensures forall x :: HasRate(r, x) ==> x == r.Rate()
    ensures forall x :: HasGoodput(r, x) ==> x == r.Goodput()
  {
    if r.steps.Some? && r.steps.value != [] {
      PeakGoodputMeans(r.steps.value);
      forall x | HasGoodput(r, x) ensures x == r.Goodput() {
        var i :| 0 <= i < |r.steps.value| && r.steps.value[i].goodput == x;
        assert r.steps.value[i] in r.steps.value;
      }
    }
  }

  /** At least as good on both axes, and better on one. */
  ghost predicate Tops(a: VariantResult, b: VariantResult) {
    exists rateA, rateB, goodA, goodB ::
      && HasRate(a, rateA) && HasRate(b, rateB) && HasGoodput(a, goodA) && HasGoodput(b, goodB)
      && rateA >= rateB && goodA >= goodB && (rateA > rateB || goodA > goodB)
  }

  lemma TopsIsDominates(a: VariantResult, b: VariantResult)
    ensures Tops(a, b) <==> Dominates(a, b)
  {
    AxesMean(a);
    AxesMean(b);
  }

  /** A result is on the frontier exactly when it is to be trusted and no other that is tops it. */
  lemma FrontierExactly(results: seq<VariantResult>, r: VariantResult)
    ensures r in Frontier(results) <==>
      r in results && Trusted(r) && !exists a :: a in results && Trusted(a) && Tops(a, r)
  {
    FrontierIsMaximal(results);
    AxesMean(r);
    if r in Frontier(results) {
      forall a | a in results && Trusted(a) ensures !Tops(a, r) {
        AxesMean(a);
        NotTopped(results, r, a);
      }
    } else if r in results && Trusted(r) {
      var a :| a in Frontier(results) && Dominates(a, r);
      AxesMean(a);
      TopsIsDominates(a, r);
    }
  }

  lemma NotTopped(results: seq<VariantResult>, r: VariantResult, a: VariantResult)
    requires r in Frontier(results) && a in results && a.Valid()
    ensures !Tops(a, r)
  {
    TopsIsDominates(a, r);
    FrontierIs(results);
    CandidatesAre(results);
    var k :| 0 <= k < |Candidates(results)| && Candidates(results)[k] == a;
  }

  /** For a report of runs: no request behind a variant on the frontier was sent a quarter of a second late. */
  lemma FrontierWasOnTime(results: seq<VariantResult>, r: VariantResult, i: nat, result: LoadResult, slo: ServiceLevel, k: nat)
    requires r in Frontier(results) && r.steps.Some? && i < |r.steps.value| && r.steps.value[i] == Summarise(result, slo)
    requires k < |result.records|
    ensures result.records[k].sentAt < result.records[k].scheduledAt + 0.25
  {
    FrontierExactly(results, r);
    LagMeans(result, slo);
    assert Late(result.records[k]) <= r.steps.value[i].maxScheduleLag;
  }

  // ----- the best sustained rate ----------------------------------------------------------------

  /** No eligible result beats the best, none measured earlier ties with it, and there is one unless none is eligible. */
  ghost predicate IsBest(results: seq<VariantResult>, best: Option<VariantResult>) {
    match best
    case None => forall i :: 0 <= i < |results| ==> !Eligible(results[i])
    case Some(b) => exists k :: 0 <= k < |results| && FirstBest(results, b, k)
  }

  ghost predicate FirstBest(results: seq<VariantResult>, b: VariantResult, k: nat) {
    && k < |results| && results[k] == b && Eligible(b)
    && (forall i :: 0 <= i < |results| && Eligible(results[i]) ==> !Beats(results[i], b))
    && forall i :: 0 <= i < k && Eligible(results[i]) ==> Beats(b, results[i])
  }

  lemma {:induction false} BestFromLeft(done: seq<VariantResult>, rest: seq<VariantResult>, best: Option<VariantResult>)
    requires IsBest(done, best)
    ensures IsBest(done + rest, BestFrom(rest, best))
    decreases |rest|
  {
    if rest == [] {
      assert done + rest == done;
    } else {
      var r := rest[0];
      var next := if Eligible(r) && (best.None? || Beats(r, best.value)) then Some(r) else best;
      BestOneMore(done, r, best, next);
      assert done + rest == done + [r] + rest[1..];
      BestFromLeft(done + [r], rest[1..], next);
    }
  }

  lemma BestOneMore(done: seq<VariantResult>, r: VariantResult, best: Option<VariantResult>, next: Option<VariantResult>)
    requires IsBest(done, best)
    requires next == if Eligible(r) && (best.None? || Beats(r, best.value)) then Some(r) else best
    ensures IsBest(done + [r], next)
  {
    var all := done + [r];
    if next == Some(r) && Eligible(r) && (best.None? || Beats(r, best.value)) {
      if best.Some? {
        var k :| 0 <= k < |done| && FirstBest(done, best.value, k);
      }
      assert FirstBest(all, r, |done|);
    } else if best.Some? {
      var k :| 0 <= k < |done| && FirstBest(done, best.value, k);
      assert FirstBest(all, best.value, k);
    }
  }

  lemma BestMeans(results: seq<VariantResult>)
    ensures IsBest(results, BestFrom(results, None))
  {
    BestFromLeft([], results, None);
    assert [] + results == results;
  }

  /** It may be the best: trusted, and something was sustained. */
  predicate Runs(r: VariantResult) {
    Trusted(r) && MaxSustainable(r.steps.value).Some?
  }

  /** A higher rate, or the same with more goodput. */
  ghost predicate Outranks(a: VariantResult, b: VariantResult) {
    exists rateA, rateB, goodA, goodB ::
      && HasRate(a, rateA) && HasRate(b, rateB) && HasGoodput(a, goodA) && HasGoodput(b, goodB)
      && (rateA > rateB || (rateA == rateB && goodA > goodB))
  }

  lemma OutranksIsBeats(a: VariantResult, b: VariantResult)
    ensures (Outranks(a, b) <==> Beats(a, b)) && (Runs(a) <==> Eligible(a)) && (Runs(b) <==> Eligible(b))
  {
    AxesMean(a);
    AxesMean(b);
  }

  /** The best is the earliest of the results that nothing outranks, among those that may be. */
  lemma BestExactly(results: seq<VariantResult>, k: nat)
    requires k < |results| && Runs(results[k])
    requires forall i :: 0 <= i < |results| && Runs(results[i]) ==> !Outranks(results[i], results[k])
    requires forall i :: 0 <= i < k && Runs(results[i]) ==> Outranks(results[k], results[i])
    ensures BestFrom(results, None) == Some(results[k])
  {
    BestMeans(results);
    OutranksIsBeats(results[k], results[k]);
    var best := BestFrom(results, None).value;
    var m :| 0 <= m < |results| && FirstBest(results, best, m);
    OutranksIsBeats(results[k], results[m]);
    OutranksIsBeats(results[m], results[k]);
  }

  /** There is one exactly when some result may be. */
  lemma SomeBestExactly(results: seq<VariantResult>)
    ensures BestFrom(results, None).Some? <==> exists i :: 0 <= i < |results| && Runs(results[i])
  {
    BestMeans(results);
    forall i | 0 <= i < |results| ensures Runs(results[i]) <==> Eligible(results[i]) {
      OutranksIsBeats(results[i], results[i]);
    }
  }

  lemma LastIsGreatest(front: seq<VariantResult>, r: VariantResult)
    requires Sorted(front, KeyLe) && r in front
    ensures front != [] && front[|front| - 1] in front && (front[|front| - 1] == r || KeyLe(r, front[|front| - 1]))
  {
    var k :| 0 <= k < |front| && front[k] == r;
  }

  /** With a positive rate it is on the frontier, and ties its last point. */
  lemma BestIsLastOfFrontier(results: seq<VariantResult>, best: VariantResult)
    requires BestFrom(results, None) == Some(best) && best.Rate() > 0.0
    ensures var front := Frontier(results);
      && best in front && front != []
      && front[|front| - 1].Rate() == best.Rate() && front[|front| - 1].Goodput() == best.Goodput()
  {
    BestDominatedOnly(results, best);
    FrontierIs(results);
    FrontierIsMaximal(results);
    var front := Frontier(results);
    LastIsGreatest(front, best);
    BestUnbeaten(results, best, front[|front| - 1]);
  }

  lemma BestUnbeaten(results: seq<VariantResult>, best: VariantResult, r: VariantResult)
    requires BestFrom(results, None) == Some(best)
    ensures best in results && Eligible(best)
    ensures r in results && Eligible(r) ==> !Beats(r, best)
  {
    BestMeans(results);
    var k :| 0 <= k < |results| && FirstBest(results, best, k);
  }

  /** The best is on the frontier unless its rate is 0 and something that sustained nothing has more goodput. */
  lemma BestDominatedOnly(results: seq<VariantResult>, best: VariantResult)
    requires BestFrom(results, None) == Some(best) && best.Rate() >= 0.0
    ensures best in Frontier(results) <==>
      best.Rate() > 0.0 || forall r :: r in results && r.Valid() && r.Sustained().None? ==> r.Goodput() <= best.Goodput()
  {
    var candidates := Candidates(results);
    CandidatesAre(results);
    FrontierIs(results);
    BestUnbeaten(results, best, best);
    forall r | r in candidates ensures Dominates(r, best) <==> r.Sustained().None? && best.Rate() == 0.0 && r.Goodput() > best.Goodput() {
      BestUnbeaten(results, best, r);
    }
    forall r | r in candidates && Dominates(r, best) ensures !Undominated(best, candidates) {
      var k :| 0 <= k < |candidates| && candidates[k] == r;
    }
    forall k | 0 <= k < |candidates| ensures candidates[k] in candidates {}
  }

  predicate Outdone(r: VariantResult, results: seq<VariantResult>) {
    forall i :: 0 <= i < |results| && Eligible(results[i]) ==> r.Goodput() > results[i].Goodput()
  }

  /** For reports with rates that are not negative, known before the call. */
  ghost predicate BestIsSafe(results: seq<VariantResult>) {
    || (exists r :: r in results && Eligible(r) && r.Rate() > 0.0)
    || (forall r :: r in results && r.Valid() && r.Sustained().None? ==> !Outdone(r, results))
  }

  /**
   * A best rate of 0 can be off the frontier: a variant that sustained nothing also counts as 0
   * there, and may have more goodput than every one that did. That is the only way.
   */
  lemma BestOnFrontierExactly(results: seq<VariantResult>)
    requires exists r :: r in results && Eligible(r)
    requires forall r :: r in results && Eligible(r) ==> r.Rate() >= 0.0
    ensures BestFrom(results, None).Some?
    ensures BestFrom(results, None).value in Frontier(results) <==> BestIsSafe(results)
  {
    BestMeans(results);
    var some :| some in results && Eligible(some);
    var best := BestFrom(results, None).value;
    BestDominatedOnly(results, best);
    forall r | r in results && Eligible(r) ensures r.Rate() <= best.Rate() && (best.Rate() == 0.0 ==> r.Goodput() <= best.Goodput()) {
      BestUnbeaten(results, best, r);
    }
    BestUnbeaten(results, best, best);
    var k :| 0 <= k < |results| && results[k] == best;
    forall r | r in results && r.Sustained().None? && best.Rate() == 0.0
      ensures Outdone(r, results) <==> r.Goodput() > best.Goodput()
    {
      forall i | 0 <= i < |results| && Eligible(results[i]) ensures results[i].Goodput() <= best.Goodput() {
        assert results[i] in results;
      }
    }
  }

  /** For example: met at a rate of 0, beside something that sustained nothing and did twice the good. */
  lemma ZeroRateOffFrontier()
    ensures exists results: seq<VariantResult> ::
      && (exists r :: r in results && Eligible(r)) && (forall r :: r in results && Eligible(r) ==> r.Rate() >= 0.0)
      && BestFrom(results, None).Some? && BestFrom(results, None).value !in Frontier(results)
  {
    var met, missed := Probe(0.0, true), Probe(1.0, false).(goodput := 2.0);
    var a, b := VariantResult("a", Some([met]), None), VariantResult("b", Some([missed]), None);
    var results := [a, b];
    SortFixed([met], RateLe);
    SortFixed([missed], RateLe);
    assert [met][1..] == [] && [missed][1..] == [];
    assert Sustained([met], None) == Sustained([], Some(0.0)) == Some(0.0);
    assert a.Sustained() == Some(0.0) && b.Sustained() == None;
    assert PeakGoodput([met]) == Some(met) && PeakGoodput([missed]) == Some(missed);
    assert a in results && b in results && Eligible(a) && b.Valid();
    assert Outdone(b, results);
    BestOnFrontierExactly(results);
  }

  // ----- reports of runs -------------------------------------------------------------------------

  /** Every step summarises a run. */
  ghost predicate FromRuns(r: VariantResult) {
    r.steps.Some? ==> forall s :: s in r.steps.value ==> exists result, slo :: Spans(result) && s == Summarise(result, slo)
  }

  lemma RunsSustainPositive(r: VariantResult)
    requires FromRuns(r) && r.Sustained().Some?
    ensures r.Rate() > 0.0
  {
    MaxSustainableMeans(r.steps.value);
    var s :| s in r.steps.value && s.Healthy() && s.offeredRate == r.Rate();
    var result, slo :| Spans(result) && s == Summarise(result, slo);
    HealthyWasOffered(result, slo);
  }

  /** So for reports of runs the best is on the frontier, and ties its last point, without any condition. */
  lemma BestOfRunsIsLastOfFrontier(results: seq<VariantResult>, best: VariantResult)
    requires BestFrom(results, None) == Some(best) && forall r :: r in results ==> FromRuns(r)
    ensures var front := Frontier(results);
      && best in front && front != []
      && front[|front| - 1].Rate() == best.Rate() && front[|front| - 1].Goodput() == best.Goodput()
  {
    BestUnbeaten(results, best, best);
    RunsSustainPositive(best);
    BestIsLastOfFrontier(results, best);
  }
}
