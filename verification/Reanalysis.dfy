/** Re-judging a finished run from its files: the curve, its capacity and its peak (bench/records.py). */
module Reanalysis {
  import opened Seqs
  import opened Text
  import opened Sorting
  import opened Requests
  import opened OpenLoop
  import opened Report
  import opened ReportProperties
  import opened Replay
  import opened ReplayProperties
  import opened RunExamples

  // ----- curves that stand for each other ------------------------------------------------------

  /** Alike in what a curve is judged by. */
  ghost predicate Echo(a: StepSummary, b: StepSummary) {
    a.offeredRate == b.offeredRate && a.Healthy() == b.Healthy() && a.goodput == b.goodput
  }

  ghost predicate Covered(s: StepSummary, steps: seq<StepSummary>) {
    exists t :: t in steps && Echo(t, s)
  }

  ghost predicate Covers(a: seq<StepSummary>, b: seq<StepSummary>) {
    forall s :: s in a ==> Covered(s, b)
  }

  ghost predicate MissedBelow(steps: seq<StepSummary>, rate: real) {
    exists v :: v in steps && !v.Healthy() && v.offeredRate < rate
  }

  /** At every rate below which nothing was missed, the first step of either list is healthy in both or in neither. */
  ghost predicate FirstsAgree(a: seq<StepSummary>, b: seq<StepSummary>) {
    forall i, j :: 0 <= i < |a| && 0 <= j < |b| ==> FirstsAgreeAt(a, b, i, j)
  }

  ghost predicate FirstsAgreeAt(a: seq<StepSummary>, b: seq<StepSummary>, i: nat, j: nat)
    requires i < |a| && j < |b|
  {
    a[i].offeredRate == b[j].offeredRate && FirstAtRate(a, i) && FirstAtRate(b, j) && !MissedBelow(a, a[i].offeredRate) ==>
      (a[i].Healthy() <==> b[j].Healthy())
  }

  lemma MissesCarry(a: seq<StepSummary>, b: seq<StepSummary>, rate: real)
    requires Covers(a, b) && MissedBelow(a, rate)
    ensures MissedBelow(b, rate)
  {
    var v :| v in a && !v.Healthy() && v.offeredRate < rate;
    assert Covered(v, b);
  }

  lemma FirstsAgreeBack(a: seq<StepSummary>, b: seq<StepSummary>)
    requires Covers(a, b) && Covers(b, a) && FirstsAgree(a, b)
    ensures FirstsAgree(b, a)
  {
    forall j, i | 0 <= j < |b| && 0 <= i < |a| ensures FirstsAgreeAt(b, a, j, i) {
      assert FirstsAgreeAt(a, b, i, j);
      if MissedBelow(a, b[j].offeredRate) {
        MissesCarry(a, b, b[j].offeredRate);
      }
    }
  }

  /** A first step with nothing missed up to it has its counterpart. */
  lemma ClearMoves(a: seq<StepSummary>, b: seq<StepSummary>, i: nat) returns (j: nat)
    requires Covers(a, b) && Covers(b, a) && FirstsAgree(a, b) && i < |a| && Clear(a, i)
    ensures j < |b| && Clear(b, j) && b[j].offeredRate == a[i].offeredRate
  {
    var rate := a[i].offeredRate;
    assert a[i] in a && Covered(a[i], b);
    j := FirstIndex(AtRate(rate), b);
    if MissedBelow(b, rate) {
      MissesCarry(b, a, rate);
    }
    assert FirstsAgreeAt(a, b, i, j);
  }

  lemma CapacityMoves(a: seq<StepSummary>, b: seq<StepSummary>)
    requires Covers(a, b) && Covers(b, a) && FirstsAgree(a, b)
    ensures RateAtMost(MaxSustainable(a), MaxSustainable(b))
  {
    if MaxSustainable(a).Some? {
      var i := CapacityIsClear(a);
      var j := ClearMoves(a, b, i);
      ClearIsReached(b, j);
    }
  }

  /** With one capacity, a healthy first step in one list is healthy in the other. */
  lemma HealthMoves(a: seq<StepSummary>, b: seq<StepSummary>, i: nat, j: nat)
    requires MaxSustainable(a) == MaxSustainable(b)
    requires i < |a| && j < |b| && a[i].offeredRate == b[j].offeredRate && FirstAtRate(a, i) && FirstAtRate(b, j)
    requires !MissedBelow(a, a[i].offeredRate) && a[i].Healthy()
    ensures b[j].Healthy()
  {
    assert Clear(a, i);
    ClearIsReached(a, i);
    SustainableExactly(b, b[j].offeredRate);
    var x :| 0 <= x < |b| && Clear(b, x) && b[x].offeredRate >= b[j].offeredRate;
    assert b[j] in b;
    if b[x].offeredRate == b[j].offeredRate {
      assert x == j;
    }
  }

  /** Two curves of the same steps have one capacity exactly when their first steps agree. */
  lemma CapacitiesExactly(a: seq<StepSummary>, b: seq<StepSummary>)
    requires Covers(a, b) && Covers(b, a)
    ensures MaxSustainable(a) == MaxSustainable(b) <==> FirstsAgree(a, b)
  {
    if FirstsAgree(a, b) {
      CapacityMoves(a, b);
      FirstsAgreeBack(a, b);
      CapacityMoves(b, a);
    }
    if MaxSustainable(a) == MaxSustainable(b) {
      forall i, j | 0 <= i < |a| && 0 <= j < |b| ensures FirstsAgreeAt(a, b, i, j) {
        SameFirstHealth(a, b, i, j);
      }
    }
  }

  lemma SameFirstHealth(a: seq<StepSummary>, b: seq<StepSummary>, i: nat, j: nat)
    requires Covers(a, b) && Covers(b, a) && MaxSustainable(a) == MaxSustainable(b) && i < |a| && j < |b|
    ensures FirstsAgreeAt(a, b, i, j)
  {
    if a[i].offeredRate == b[j].offeredRate && FirstAtRate(a, i) && FirstAtRate(b, j) && !MissedBelow(a, a[i].offeredRate) {
      if MissedBelow(b, b[j].offeredRate) {
        MissesCarry(b, a, b[j].offeredRate);
      }
      if a[i].Healthy() {
        HealthMoves(a, b, i, j);
      }
      if b[j].Healthy() {
        HealthMoves(b, a, j, i);
      }
    }
  }

  lemma EchoCovers(a: seq<StepSummary>, b: seq<StepSummary>)
    requires |a| == |b| && forall i :: 0 <= i < |a| ==> Echo(a[i], b[i])
    ensures Covers(a, b) && Covers(b, a)
  {
    forall s | s in a ensures Covered(s, b) {
      var i :| 0 <= i < |a| && a[i] == s;
      assert Echo(b[i], s) && b[i] in b;
    }
    forall s | s in b ensures Covered(s, a) {
      var i :| 0 <= i < |b| && b[i] == s;
      assert Echo(a[i], s) && a[i] in a;
    }
  }

  /** Curves alike step by step are judged alike. */
  lemma EchoCapacity(a: seq<StepSummary>, b: seq<StepSummary>)
    requires |a| == |b| && forall i :: 0 <= i < |a| ==> Echo(a[i], b[i])
    ensures MaxSustainable(a) == MaxSustainable(b)
  {
    EchoCovers(a, b);
    forall i, j | 0 <= i < |a| && 0 <= j < |b| ensures FirstsAgreeAt(a, b, i, j) {
      assert Echo(a[j], b[j]) && Echo(a[i], b[i]);
      assert i < j ==> b[i].offeredRate == a[i].offeredRate;
      assert j < i ==> a[j].offeredRate == b[j].offeredRate;
    }
    CapacitiesExactly(a, b);
  }

  lemma CoversTwice(a: seq<StepSummary>, b: seq<StepSummary>, c: seq<StepSummary>)
    requires Covers(a, b) && Covers(b, c)
    ensures Covers(a, c)
  {
    forall s | s in a ensures Covered(s, c) {
      assert Covered(s, b);
      var t :| t in b && Echo(t, s);
      assert Covered(t, c);
    }
  }

  predicate SamePeakGoodput(a: seq<StepSummary>, b: seq<StepSummary>) {
    && PeakGoodput(a).Some? == PeakGoodput(b).Some?
    && (PeakGoodput(a).Some? ==> PeakGoodput(a).value.goodput == PeakGoodput(b).value.goodput)
  }

  lemma CoversSome(a: seq<StepSummary>, b: seq<StepSummary>)
    requires Covers(a, b)
    ensures a != [] ==> b != []
  {
    if a != [] {
      assert a[0] in a && Covered(a[0], b);
    }
  }

  lemma SamePeak(live: seq<StepSummary>, replay: seq<StepSummary>)
    requires Covers(live, replay) && Covers(replay, live)
    ensures SamePeakGoodput(replay, live)
  {
    PeakGoodputMeans(live);
    PeakGoodputMeans(replay);
    CoversSome(live, replay);
    CoversSome(replay, live);
    if live != [] {
      assert Covered(PeakGoodput(live).value, replay);
      assert Covered(PeakGoodput(replay).value, live);
    }
  }

  // ----- the curve that is replayed ------------------------------------------------------------

  /** Each step of the run, replayed. */
  ghost predicate Replayable(results: seq<LoadResult>) {
    forall i :: 0 <= i < |results| ==> KeptWhole(results[i])
  }

  lemma StepEchoes(result: LoadResult, slo: ServiceLevel)
    requires KeptWhole(result)
    ensures Echo(Summarise(result, slo), Summarise(Replayed(result), slo))
  {
    ReplayAgrees(result, slo);
  }

  /** The replayed curve is judged as if its steps came in the order of the files. */
  lemma JudgedInFileOrder(files: seq<seq<Row>>, slo: ServiceLevel)
    ensures MaxSustainable(Reanalyse(files, slo)) == MaxSustainable(Summaries(Map(Loaded, files), slo))
  {
    var steps := Summaries(Map(Loaded, files), slo);
    OrderedSummaries(Map(Loaded, files), slo);
    RateOrder();
    SortSorts(steps, RateLe);
    SortFixed(Ordered(steps), RateLe);
  }

  lemma ReplayEchoes(results: seq<LoadResult>, slo: ServiceLevel)
    requires Replayable(results)
    ensures var steps := Summaries(Map(Loaded, Map(Written, results)), slo);
      |steps| == |results| && forall i :: 0 <= i < |results| ==> Echo(Summaries(results, slo)[i], steps[i])
  {
    forall i | 0 <= i < |results| ensures Echo(Summaries(results, slo)[i], Summaries(Map(Loaded, Map(Written, results)), slo)[i]) {
      StepEchoes(results[i], slo);
    }
  }

  /** Steps replayed from files are judged as the live steps would be in the order of the files. */
  lemma JudgedInOrder(results: seq<LoadResult>, slo: ServiceLevel)
    requires Replayable(results)
    ensures MaxSustainable(Reanalyse(Map(Written, results), slo)) == MaxSustainable(Summaries(results, slo))
  {
    JudgedInFileOrder(Map(Written, results), slo);
    ReplayEchoes(results, slo);
    EchoCapacity(Summaries(results, slo), Summaries(Map(Loaded, Map(Written, results)), slo));
  }

  /** And at their peak they are as good. */
  lemma SamePeakInOrder(results: seq<LoadResult>, slo: ServiceLevel)
    requires Replayable(results)
    ensures SamePeakGoodput(Reanalyse(Map(Written, results), slo), Summaries(results, slo))
  {
    var live, steps := Summaries(results, slo), Summaries(Map(Loaded, Map(Written, results)), slo);
    var replay := Reanalyse(Map(Written, results), slo);
    ReplayEchoes(results, slo);
    EchoCovers(live, steps);
    OrderedSummaries(Map(Loaded, Map(Written, results)), slo);
    SortPermutes(steps, RateLe);
    SameCovers(steps, replay);
    CoversTwice(live, steps, replay);
    CoversTwice(replay, steps, live);
    SamePeak(live, replay);
  }

  lemma SameCovers(a: seq<StepSummary>, b: seq<StepSummary>)
    requires multiset(a) == multiset(b)
    ensures Covers(a, b) && Covers(b, a)
  {
    SameMultiset(a, b);
    forall s | s in a ensures Covered(s, b) {
      assert Echo(s, s) && s in b;
    }
    forall s | s in b ensures Covered(s, a) {
      assert Echo(s, s) && s in a;
    }
  }

  lemma PermutedCovers(a: seq<LoadResult>, b: seq<LoadResult>, slo: ServiceLevel)
    requires multiset(a) == multiset(b)
    ensures Covers(Summaries(a, slo), Summaries(b, slo))
  {
    SameMultiset(a, b);
    forall s | s in Summaries(a, slo) ensures Covered(s, Summaries(b, slo)) {
      var i :| 0 <= i < |a| && Summaries(a, slo)[i] == s;
      assert a[i] in b;
      var j :| 0 <= j < |b| && b[j] == a[i];
      assert Echo(s, s) && Summaries(b, slo)[j] == s;
    }
  }

  lemma PermutedReplayable(a: seq<LoadResult>, b: seq<LoadResult>)
    requires multiset(a) == multiset(b) && Replayable(a)
    ensures Replayable(b)
  {
    SameMultiset(a, b);
    forall i | 0 <= i < |b| ensures KeptWhole(b[i]) {
      assert b[i] in a;
      var j :| 0 <= j < |a| && a[j] == b[i];
    }
  }

  /**
   * The files of a run, read in some order, give the peak goodput of the live report for any service
   * level, and its sustainable rate exactly when, at every rate below which nothing was missed, the
   * step that came first was healthy just if the one that is listed first was.
   */
  lemma ReanalysisAgreesExactly(results: seq<LoadResult>, listed: seq<LoadResult>, slo: ServiceLevel)
    requires Replayable(results) && multiset(listed) == multiset(results)
    ensures SamePeakGoodput(Reanalyse(Map(Written, listed), slo), Summaries(results, slo))
    ensures MaxSustainable(Reanalyse(Map(Written, listed), slo)) == MaxSustainable(Summaries(results, slo))
       <==> FirstsAgree(Summaries(results, slo), Summaries(listed, slo))
  {
    PermutedReplayable(results, listed);
    PermutedCovers(results, listed, slo);
    PermutedCovers(listed, results, slo);
    JudgedInOrder(listed, slo);
    SamePeakInOrder(listed, slo);
    SamePeakTwice(results, listed, slo);
    CapacitiesExactly(Summaries(results, slo), Summaries(listed, slo));
  }

  lemma SamePeakTwice(results: seq<LoadResult>, listed: seq<LoadResult>, slo: ServiceLevel)
    requires Covers(Summaries(results, slo), Summaries(listed, slo)) && Covers(Summaries(listed, slo), Summaries(results, slo))
    requires SamePeakGoodput(Reanalyse(Map(Written, listed), slo), Summaries(listed, slo))
    ensures SamePeakGoodput(Reanalyse(Map(Written, listed), slo), Summaries(results, slo))
  {
    SamePeak(Summaries(results, slo), Summaries(listed, slo));
  }

  // ----- whatever the order of the files ---------------------------------------------------------

  /** Where a rate was both met and missed, a lower rate was already missed. */
  ghost predicate TiesDecided(steps: seq<StepSummary>) {
    forall u, s :: u in steps && s in steps && !u.Healthy() && s.Healthy() && u.offeredRate == s.offeredRate ==> MissedBelow(steps, u.offeredRate)
  }

  lemma DecidedAgrees(a: seq<StepSummary>, b: seq<StepSummary>)
    requires Covers(b, a) && TiesDecided(a)
    ensures FirstsAgree(a, b)
  {
    forall i, j | 0 <= i < |a| && 0 <= j < |b| ensures FirstsAgreeAt(a, b, i, j) {
      assert b[j] in b && Covered(b[j], a);
      var t :| t in a && Echo(t, b[j]);
      assert a[i] in a;
    }
  }

  function ToFront<A>(s: seq<A>, i: nat): seq<A>
    requires i < |s|
  {
    [s[i]] + s[..i] + s[i + 1..]
  }

  lemma ToFrontPermutes<A>(s: seq<A>, i: nat)
    requires i < |s|
    ensures multiset(ToFront(s, i)) == multiset(s)
    ensures forall x :: x in ToFront(s, i) ==> x in s
  {
    assert s == s[..i] + [s[i]] + s[i + 1..];
    SameMultiset(ToFront(s, i), s);
  }

  /** Listed first, a step at a rate below which nothing was missed decides whether that rate is sustained. */
  lemma FrontDecides(results: seq<LoadResult>, i: nat, slo: ServiceLevel)
    requires i < |results| && !MissedBelow(Summaries(results, slo), Summaries(results, slo)[i].offeredRate)
    ensures var step := Summaries(results, slo)[i];
      RateAtMost(Some(step.offeredRate), MaxSustainable(Summaries(ToFront(results, i), slo))) <==> step.Healthy()
  {
    var live, steps := Summaries(results, slo), Summaries(ToFront(results, i), slo);
    ToFrontPermutes(results, i);
    forall s | s in steps ensures s in live {
      var k :| 0 <= k < |steps| && steps[k] == s;
      assert ToFront(results, i)[k] in results;
      var j :| 0 <= j < |results| && results[j] == ToFront(results, i)[k];
      assert live[j] == s;
    }
    FirstDecides(steps);
  }

  /** The sustainable rate survives every order of the files exactly when no tie leaves it open. */
  lemma AgreesInAnyOrder(results: seq<LoadResult>, slo: ServiceLevel)
    requires Replayable(results)
    ensures (forall listed :: multiset(listed) == multiset(results) ==>
               MaxSustainable(Reanalyse(Map(Written, listed), slo)) == MaxSustainable(Summaries(results, slo)))
            <==> TiesDecided(Summaries(results, slo))
  {
    var live := Summaries(results, slo);
    if TiesDecided(live) {
      forall listed | multiset(listed) == multiset(results)
        ensures MaxSustainable(Reanalyse(Map(Written, listed), slo)) == MaxSustainable(live)
      {
        PermutedCovers(listed, results, slo);
        DecidedAgrees(live, Summaries(listed, slo));
        ReanalysisAgreesExactly(results, listed, slo);
      }
    } else {
      var i, j := UndecidedTie(live);
      ToFrontJudged(results, i, slo);
      ToFrontJudged(results, j, slo);
    }
  }

  lemma ToFrontJudged(results: seq<LoadResult>, i: nat, slo: ServiceLevel)
    requires Replayable(results) && i < |results|
    requires !MissedBelow(Summaries(results, slo), Summaries(results, slo)[i].offeredRate)
    ensures multiset(ToFront(results, i)) == multiset(results)
    ensures var step := Summaries(results, slo)[i];
      RateAtMost(Some(step.offeredRate), MaxSustainable(Reanalyse(Map(Written, ToFront(results, i)), slo))) <==> step.Healthy()
  {
    ToFrontPermutes(results, i);
    PermutedReplayable(results, ToFront(results, i));
    JudgedInOrder(ToFront(results, i), slo);
    FrontDecides(results, i, slo);
  }

  lemma UndecidedTie(steps: seq<StepSummary>) returns (i: nat, j: nat)
    requires !TiesDecided(steps)
    ensures i < |steps| && j < |steps| && !steps[i].Healthy() && steps[j].Healthy()
    ensures steps[i].offeredRate == steps[j].offeredRate && !MissedBelow(steps, steps[i].offeredRate)
  {
    var u, s :| u in steps && s in steps && !u.Healthy() && s.Healthy() && u.offeredRate == s.offeredRate
                && !MissedBelow(steps, u.offeredRate);
    i :| 0 <= i < |steps| && steps[i] == u;
    j :| 0 <= j < |steps| && steps[j] == s;
  }

  // ----- the order in which a directory is listed ------------------------------------------------

  /** By name, with no name twice. */
  ghost predicate Listed<T>(dir: seq<Named<T>>) {
    forall i, j :: 0 <= i < j < |dir| ==> NameLe(dir[i].name, dir[j].name) && dir[i].name != dir[j].name
  }

  predicate HasName<T>(dir: seq<Named<T>>, name: string) {
    exists i :: 0 <= i < |dir| && dir[i].name == name
  }

  lemma HasNameCons<T>(dir: seq<Named<T>>, n: string)
    requires dir != []
    ensures HasName(dir, n) <==> n == dir[0].name || HasName(dir[1..], n)
  {
    if i :| 0 <= i < |dir| && dir[i].name == n {
      assert i > 0 ==> dir[1..][i - 1].name == n;
    }
    if i :| 0 <= i < |dir[1..]| && dir[1..][i].name == n {
      assert dir[i + 1].name == n;
    }
  }

  lemma {:induction false} PutNames<T>(dir: seq<Named<T>>, file: Named<T>, n: string)
    ensures HasName(Put(dir, file), n) <==> HasName(dir, n) || n == file.name
  {
    var put := Put(dir, file);
    HasNameCons(put, n);
    if dir != [] {
      HasNameCons(dir, n);
      if file.name == dir[0].name {
        assert put[1..] == dir[1..];
      } else if NameLe(file.name, dir[0].name) {
        assert put[1..] == dir;
      } else {
        PutNames(dir[1..], file, n);
        assert put[1..] == Put(dir[1..], file);
      }
    }
  }

  /** A name before the first of a listing is not in it. */
  lemma NotListed<T>(dir: seq<Named<T>>, name: string)
    requires Listed(dir) && dir != [] && name != dir[0].name && NameLe(name, dir[0].name)
    ensures forall k :: 0 <= k < |dir| ==> NameLe(name, dir[k].name) && name != dir[k].name
  {
    forall k | 0 < k < |dir| ensures NameLe(name, dir[k].name) && name != dir[k].name {
      NameTransitive(name, dir[0].name, dir[k].name);
      if NameLe(dir[k].name, dir[0].name) {
        NameAntisymmetric(dir[0].name, dir[k].name);
      }
    }
  }

  lemma ListedCons<T>(first: Named<T>, dir: seq<Named<T>>)
    requires Listed(dir) && forall n :: HasName(dir, n) ==> NameLe(first.name, n) && first.name != n
    ensures Listed([first] + dir)
  {
    forall k | 0 <= k < |dir| ensures NameLe(first.name, dir[k].name) && first.name != dir[k].name {
      assert HasName(dir, dir[k].name);
    }
  }

  lemma {:induction false} PutListed<T>(dir: seq<Named<T>>, file: Named<T>)
    requires Listed(dir)
    ensures Listed(Put(dir, file))
  {
    if dir == [] {
    } else if file.name == dir[0].name {
    } else if NameLe(file.name, dir[0].name) {
      NotListed(dir, file.name);
    } else {
      var rest := Put(dir[1..], file);
      PutListed(dir[1..], file);
      NameTotal(file.name, dir[0].name);
      forall n | HasName(rest, n) ensures NameLe(dir[0].name, n) && dir[0].name != n {
        PutNames(dir[1..], file, n);
        assert n != file.name ==> exists k :: 0 <= k < |dir[1..]| && dir[1..][k].name == n && dir[k + 1].name == n;
      }
      ListedCons(dir[0], rest);
    }
  }

  lemma {:induction false} PutContents<T>(dir: seq<Named<T>>, file: Named<T>)
    requires Listed(dir)
    ensures HasName(dir, file.name) ==> |Put(dir, file)| == |dir|
    ensures !HasName(dir, file.name) ==> multiset(Put(dir, file)) == multiset(dir) + multiset{file} && |Put(dir, file)| == |dir| + 1
  {
    if dir != [] {
      HasNameCons(dir, file.name);
      assert dir == [dir[0]] + dir[1..];
      if file.name == dir[0].name {
      } else if NameLe(file.name, dir[0].name) {
        NotListed(dir, file.name);
      } else {
        PutContents(dir[1..], file);
      }
    }
  }

  /** Names that are in use neither before nor twice. */
  ghost predicate AllNew<T>(files: seq<Named<T>>, dir: seq<Named<T>>) {
    && (forall i :: 0 <= i < |files| ==> !HasName(dir, files[i].name))
    && forall i, j :: 0 <= i < j < |files| ==> files[i].name != files[j].name
  }

  lemma AllNewCons<T>(files: seq<Named<T>>, dir: seq<Named<T>>)
    requires files != []
    ensures AllNew(files, dir) <==> !HasName(dir, files[0].name) && AllNew(files[1..], Put(dir, files[0]))
  {
    var rest, put := files[1..], Put(dir, files[0]);
    forall i | 0 <= i < |rest| ensures HasName(put, rest[i].name) <==> HasName(dir, rest[i].name) || rest[i].name == files[0].name {
      PutNames(dir, files[0], rest[i].name);
    }
    if AllNew(files, dir) {
      forall i | 0 <= i < |rest| ensures !HasName(put, rest[i].name) {
        assert rest[i] == files[i + 1];
      }
    }
    if !HasName(dir, files[0].name) && AllNew(rest, put) {
      forall i | 0 < i < |files| ensures !HasName(dir, files[i].name) && files[0].name != files[i].name {
        assert rest[i - 1] == files[i];
      }
      forall i, j | 0 < i < j < |files| ensures files[i].name != files[j].name {
        assert rest[i - 1] == files[i] && rest[j - 1] == files[j];
      }
    }
  }

  lemma {:induction false} PutAllContents<T>(files: seq<Named<T>>, dir: seq<Named<T>>)
    requires Listed(dir)
    ensures Listed(PutAll(files, dir)) && |dir| <= |PutAll(files, dir)| <= |dir| + |files|
    ensures |PutAll(files, dir)| == |dir| + |files| <==> AllNew(files, dir)
    ensures AllNew(files, dir) ==> multiset(PutAll(files, dir)) == multiset(dir) + multiset(files)
    decreases |files|
  {
    if files != [] {
      PutListed(dir, files[0]);
      PutContents(dir, files[0]);
      PutAllContents(files[1..], Put(dir, files[0]));
      AllNewCons(files, dir);
      assert files == [files[0]] + files[1..];
    }
  }

  lemma {:induction false} PutMap<A, B>(g: Named<A> -> Named<B>, dir: seq<Named<A>>, file: Named<A>)
    requires forall n :: g(n).name == n.name
    ensures Put(Map(g, dir), g(file)) == Map(g, Put(dir, file))
  {
    if dir != [] && file.name != dir[0].name && !NameLe(file.name, dir[0].name) {
      assert Map(g, dir)[1..] == Map(g, dir[1..]);
      PutMap(g, dir[1..], file);
      assert Map(g, [dir[0]] + Put(dir[1..], file)) == [g(dir[0])] + Map(g, Put(dir[1..], file));
    } else if dir != [] && file.name == dir[0].name {
      assert Map(g, [file] + dir[1..]) == [g(file)] + Map(g, dir)[1..];
    } else if dir != [] {
      assert Map(g, [file] + dir) == [g(file)] + Map(g, dir);
    }
  }

  lemma {:induction false} PutAllMap<A, B>(g: Named<A> -> Named<B>, files: seq<Named<A>>, dir: seq<Named<A>>)
    requires forall n :: g(n).name == n.name
    ensures PutAll(Map(g, files), Map(g, dir)) == Map(g, PutAll(files, dir))
    decreases |files|
  {
    if files != [] {
      assert Map(g, files)[1..] == Map(g, files[1..]);
      PutMap(g, dir, files[0]);
      PutAllMap(g, files[1..], Put(dir, files[0]));
    }
  }

  /** The steps of a run under the names of their files, and in the order of those. */
  function Labelled(results: seq<LoadResult>, name: real -> string): seq<Named<LoadResult>> {
    Map((r: LoadResult) => Named(name(r.schedule.rate), r), results)
  }

  function ByName(results: seq<LoadResult>, name: real -> string): seq<LoadResult> {
    Items(PutAll(Labelled(results, name), []))
  }

  lemma DirectoryIsByName(results: seq<LoadResult>, name: real -> string)
    ensures Items(Directory(results, name)) == Map(Written, ByName(results, name))
    ensures |Directory(results, name)| == |ByName(results, name)|
  {
    var g := (f: Named<LoadResult>) => Named(f.name, Written(f.item));
    PutAllMap(g, Labelled(results, name), []);
    assert Map(g, Labelled(results, name)) == Map((r: LoadResult) => Named(name(r.schedule.rate), Written(r)), results);
    assert Map(g, []) == [];
  }

  ghost predicate OwnNames(results: seq<LoadResult>, name: real -> string) {
    forall i, j :: 0 <= i < j < |results| ==> name(results[i].schedule.rate) != name(results[j].schedule.rate)
  }

  lemma {:induction false} ItemsPermuted<T>(a: seq<Named<T>>, b: seq<Named<T>>)
    requires multiset(a) == multiset(b)
    ensures multiset(Items(a)) == multiset(Items(b))
    decreases |a|
  {
    if a == [] {
      assert |multiset(b)| == 0;
    } else {
      assert a == [a[0]] + a[1..];
      var before, after := TakeOut(a[0], b);
      ItemsPermuted(a[1..], before + after);
      ItemsAround([], a[0], a[1..]);
      ItemsAround(before, a[0], after);
      assert [] + ([a[0]] + a[1..]) == a && [] + a[1..] == a[1..];
    }
  }

  lemma ItemsAround<T>(before: seq<Named<T>>, x: Named<T>, after: seq<Named<T>>)
    ensures multiset(Items(before + ([x] + after))) == multiset{x.item} + multiset(Items(before + after))
  {
    assert Items(before + after) == Items(before) + Items(after);
    assert Items(before + ([x] + after)) == Items(before) + ([x.item] + Items(after));
  }

  /** Every step keeps a file exactly when no two requested rates are formatted alike; the files are listed by name. */
  lemma FilesKept(results: seq<LoadResult>, name: real -> string)
    ensures Listed(Directory(results, name)) && |Directory(results, name)| <= |results|
    ensures |Directory(results, name)| == |results| <==> OwnNames(results, name)
    ensures OwnNames(results, name) ==> multiset(ByName(results, name)) == multiset(results)
  {
    DirectoryListed(results, name);
    DirectoryIsByName(results, name);
    StepsKept(results, name);
  }

  lemma DirectoryListed(results: seq<LoadResult>, name: real -> string)
    ensures Listed(Directory(results, name))
  {
    PutAllContents(Map((r: LoadResult) => Named(name(r.schedule.rate), Written(r)), results), []);
  }

  lemma OwnNamesNew(results: seq<LoadResult>, name: real -> string)
    ensures OwnNames(results, name) <==> AllNew(Labelled(results, name), [])
  {
    var labelled := Labelled(results, name);
    if AllNew(labelled, []) {
      forall i, j | 0 <= i < j < |results| ensures name(results[i].schedule.rate) != name(results[j].schedule.rate) {
        assert labelled[i].name != labelled[j].name;
      }
    }
  }

  lemma StepsKept(results: seq<LoadResult>, name: real -> string)
    ensures |ByName(results, name)| <= |results|
    ensures |ByName(results, name)| == |results| <==> OwnNames(results, name)
    ensures OwnNames(results, name) ==> multiset(ByName(results, name)) == multiset(results)
  {
    var labelled := Labelled(results, name);
    PutAllContents(labelled, []);
    OwnNamesNew(results, name);
    if OwnNames(results, name) {
      ItemsPermuted(PutAll(labelled, []), labelled);
      assert Items(labelled) == results;
    }
  }

  /**
   * A records directory is judged by name: its peak goodput is that of the live report, and its
   * sustainable rate is exactly when the order of the names keeps, at every rate below which nothing
   * was missed, a healthy step first where one came first, and an unhealthy one where one did.
   */
  lemma DirectoryAgreesExactly(results: seq<LoadResult>, name: real -> string, slo: ServiceLevel)
    requires Replayable(results) && OwnNames(results, name)
    ensures ReanalyseDirectory(Directory(results, name), slo).None? <==> results == []
    ensures results != [] ==>
      var live, replay := Summaries(results, slo), ReanalyseDirectory(Directory(results, name), slo).value;
      && SamePeakGoodput(replay, live)
      && (MaxSustainable(replay) == MaxSustainable(live) <==> FirstsAgree(live, Summaries(ByName(results, name), slo)))
  {
    StepsKept(results, name);
    DirectoryIsByName(results, name);
    ReanalysisAgreesExactly(results, ByName(results, name), slo);
  }

  lemma {:induction false} PutElements<T>(dir: seq<Named<T>>, file: Named<T>)
    ensures Put(dir, file) != [] && forall f :: f in Put(dir, file) ==> f in dir || f == file
  {
    if dir != [] {
      PutElements(dir[1..], file);
    }
  }

  lemma {:induction false} PutAllElements<T>(files: seq<Named<T>>, dir: seq<Named<T>>)
    ensures dir != [] || files != [] ==> PutAll(files, dir) != []
    ensures forall f :: f in PutAll(files, dir) ==> f in dir || f in files
    decreases |files|
  {
    if files != [] {
      PutElements(dir, files[0]);
      PutAllElements(files[1..], Put(dir, files[0]));
    }
  }

  lemma SurvivorsReplayable(results: seq<LoadResult>, name: real -> string)
    requires Replayable(results) && results != []
    ensures ByName(results, name) != [] && Replayable(ByName(results, name))
  {
    var labelled, listed := Labelled(results, name), PutAll(Labelled(results, name), []);
    PutAllElements(labelled, []);
    forall i | 0 <= i < |listed| ensures KeptWhole(listed[i].item) {
      assert listed[i] in labelled;
      var j :| 0 <= j < |labelled| && labelled[j] == listed[i];
      assert results[j] == listed[i].item;
    }
  }

  /** Whatever the names, a directory has the capacity of the steps whose files are left, in the order of the names. */
  lemma JudgedByName(results: seq<LoadResult>, name: real -> string, slo: ServiceLevel)
    requires Replayable(results) && results != []
    ensures ReanalyseDirectory(Directory(results, name), slo).Some?
    ensures MaxSustainable(ReanalyseDirectory(Directory(results, name), slo).value) == MaxSustainable(Summaries(ByName(results, name), slo))
  {
    SurvivorsReplayable(results, name);
    DirectoryIsByName(results, name);
    JudgedInOrder(ByName(results, name), slo);
  }

  // ----- where the names mislead --------------------------------------------------------------

  lemma TenBeforeNine(nine: string, ten: string)
    requires nine == "rate-9.jsonl" && ten == "rate-10.jsonl"
    ensures NameLe(ten, nine) && nine != ten
  {
    assert ten == "rate-" + "10.jsonl" && nine == "rate-" + "9.jsonl";
    NamePrefix("rate-", "10.jsonl", "9.jsonl");
  }

  lemma TwoByName(a: LoadResult, b: LoadResult, name: real -> string)
    requires var x, y := name(a.schedule.rate), name(b.schedule.rate); x != y && NameLe(y, x)
    ensures ByName([a, b], name) == [b, a] && OwnNames([a, b], name)
  {
    var x, y := Named(name(a.schedule.rate), a), Named(name(b.schedule.rate), b);
    assert Labelled([a, b], name) == [x, y] && [x, y][1..] == [y] && [y][1..] == [];
    assert PutAll([x, y], []) == PutAll([y], [x]) == PutAll([], Put([x], y));
    assert Put([x], y) == [y] + [x];
  }

  /** Two steps tied at a rate: the first listed decides. */
  lemma TwoTied(steps: seq<StepSummary>)
    requires |steps| == 2 && steps[0].offeredRate == steps[1].offeredRate
    ensures MaxSustainable(steps) == if steps[0].Healthy() then Some(steps[0].offeredRate) else None
  {
    FirstDecides(steps);
    if MaxSustainable(steps).Some? {
      var i := CapacityIsClear(steps);
    }
  }

  /**
   * Nine and ten requests per second were asked for and one drawn both times; nine was missed and ten
   * was met. The run sustained nothing, and its files, of which that of ten is listed first, say one.
   */
  lemma NamesMislead(name: real -> string, slo: ServiceLevel) returns (results: seq<LoadResult>)
    requires name(9.0) == "rate-9.jsonl" && name(10.0) == "rate-10.jsonl" && slo.ttft >= 0.0
    ensures |results| == 2 && IsRun(results[0]) && IsRun(results[1]) && Replayable(results) && OwnNames(results, name)
    ensures results[0].schedule.rate == 9.0 && results[1].schedule.rate == 10.0
    ensures MaxSustainable(Summaries(results, slo)) == None
    ensures ReanalyseDirectory(Directory(results, name), slo).Some?
    ensures MaxSustainable(ReanalyseDirectory(Directory(results, name), slo).value) == Some(1.0)
  {
    var missed := RunSummarised(9.0, 1.0, false, slo);
    var met := RunSummarised(10.0, 1.0, true, slo);
    TenBeforeNine(name(9.0), name(10.0));
    PairReplayable(missed, met);
    NamesSwap(missed, met, name, slo);
    results := [missed, met];
  }

  lemma PairReplayable(a: LoadResult, b: LoadResult)
    requires KeptWhole(a) && KeptWhole(b)
    ensures Replayable([a, b])
  {}

  /** A missed and a met step at one rate, the names of whose files sort the other way. */
  lemma NamesSwap(missed: LoadResult, met: LoadResult, name: real -> string, slo: ServiceLevel)
    requires Replayable([missed, met])
    requires var x, y := name(missed.schedule.rate), name(met.schedule.rate); x != y && NameLe(y, x)
    requires var u, s := Summarise(missed, slo), Summarise(met, slo); u.offeredRate == s.offeredRate && !u.Healthy() && s.Healthy()
    ensures OwnNames([missed, met], name) && MaxSustainable(Summaries([missed, met], slo)) == None
    ensures ReanalyseDirectory(Directory([missed, met], name), slo).Some?
    ensures MaxSustainable(ReanalyseDirectory(Directory([missed, met], name), slo).value) == Some(Summarise(met, slo).offeredRate)
  {
    TwoByName(missed, met, name);
    JudgedByName([missed, met], name, slo);
    TwoTied(Summaries([missed, met], slo));
    TwoTied(Summaries([met, missed], slo));
  }

  // ----- judged by a looser level ------------------------------------------------------------------

  /** Files whose times are not negative and whose requests were due after the start. */
  ghost predicate Timed(files: seq<seq<Row>>) {
    forall i, j :: 0 <= i < |files| && 0 <= j < |files[i]| ==> files[i][j].scheduledAt > 0.0 && files[i][j].finishedAt >= 0.0
  }

  lemma LoadedIsMeasured(rows: seq<Row>)
    requires forall j :: 0 <= j < |rows| ==> rows[j].scheduledAt > 0.0 && rows[j].finishedAt >= 0.0
    ensures Measured(Loaded(rows))
  {
    var all := Map(FromRow, rows);
    var records := Sort(all, IndexLe);
    SortPermutes(all, IndexLe);
    forall k | 0 <= k < |records| ensures records[k].scheduledAt > 0.0 {
      assert records[k] in records;
      var j :| 0 <= j < |all| && all[j] == records[k];
    }
    if records == [] {
      assert Ends(records) == [];
    }
  }

  /** And whose requests were due after the start span a time, so their healthy steps were offered something. */
  lemma LoadedSpans(rows: seq<Row>)
    requires forall j :: 0 <= j < |rows| ==> rows[j].scheduledAt > 0.0
    ensures Spans(Loaded(rows))
  {
    var all := Map(FromRow, rows);
    SortPermutes(all, IndexLe);
    forall r | r in all ensures r.scheduledAt > 0.0 {
      var j :| 0 <= j < |all| && all[j] == r;
    }
    RebuiltSpans(Sort(all, IndexLe));
  }

  lemma RebuiltSpans(records: seq<RequestRecord>)
    requires forall r :: r in records ==> r.scheduledAt > 0.0
    ensures Spans(Rebuilt(records))
  {
    if records != [] {
      assert records[|records| - 1] in records;
    }
  }

  /** What a run returns spans a time, and so does its replay. */
  lemma RunsAndReplaysSpan(result: LoadResult)
    requires Settled(result) && result.schedule.Valid()
    ensures Spans(result) && Spans(Replayed(result))
  {
    ValidSpans(result);
    LoadedSpans(Written(result));
  }

  /** So re-judging the same files by a looser level never looks worse. */
  lemma LooserReanalysisNeverWorse(files: seq<seq<Row>>, tight: ServiceLevel, loose: ServiceLevel)
    requires Looser(tight, loose) && Timed(files)
    ensures var a, b := Reanalyse(files, tight), Reanalyse(files, loose);
      && |a| == |b| == |files| && (forall i :: 0 <= i < |files| ==> Improves(a[i], b[i]))
      && RateAtMost(MaxSustainable(a), MaxSustainable(b))
      && (files != [] ==> PeakGoodput(a).Some? && PeakGoodput(b).Some?
                          && PeakGoodput(a).value.goodput <= PeakGoodput(b).value.goodput)
  {
    var sweep, loaded := LoadSweep(files), Map(Loaded, files);
    SortPermutes(loaded, AchievedLe);
    forall i | 0 <= i < |sweep| ensures Measured(sweep[i]) {
      assert sweep[i] in sweep;
      var k :| 0 <= k < |loaded| && loaded[k] == sweep[i];
      LoadedIsMeasured(files[k]);
    }
    LooserNeverWorse(sweep, tight, loose);
  }
}
