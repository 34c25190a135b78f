/**
 * From the engine's metrics text to the figures of one step: parsing, regrouping and subtracting
 * put together (observability/promtext.py, observability/histograms.py, bench/sweep.py).
 */
module Scrapes {
  import opened Seqs
  import opened Text
  import opened Sorting
  import opened OrderStatistics
  import opened Exposition
  import RoundTrips = ExpositionRoundTrip
  import opened Quantiles
  import opened HistogramAccuracy
  import opened Histograms
  import opened HistogramRebuild
  import opened HistogramWindows

  // ----- text to histograms ----------------------------------------------------------------

  /** A text that exports these histograms, in any order of lines and among any other metrics. */
  ghost predicate Exports(doc: seq<RoundTrips.Entry<real>>, hs: seq<HistogramRebuild.Series>, others: seq<Sample<real>>,
                          name: string, show: Bound -> string) {
    && (forall i :: 0 <= i < |doc| ==> RoundTrips.Writable(doc[i]) && RoundTrips.Intact(doc[i]))
    && Separate(hs) && Unrelated(others, name)
    && multiset(RoundTrips.Samples(doc)) == multiset(FlattenedAll(hs, name, show) + others)
  }

  /** Numbers and bounds are read as they were written, as far as they are written. */
  ghost predicate WrittenToBeRead(doc: seq<RoundTrips.Entry<real>>, hs: seq<HistogramRebuild.Series>, num: string -> Option<real>,
                                  show: real -> string, bound: string -> Option<Bound>, showBound: Bound -> string) {
    RoundTrips.Legible(doc, num, show) && HistogramRebuild.Legible(hs, bound, showBound)
  }

  /** Scraping an exported text gives back the exported histograms. */
  lemma ScrapeGivesHistograms(doc: seq<RoundTrips.Entry<real>>, hs: seq<HistogramRebuild.Series>, others: seq<Sample<real>>, name: string,
                              num: string -> Option<real>, show: real -> string, bound: string -> Option<Bound>, showBound: Bound -> string)
    requires WrittenToBeRead(doc, hs, num, show, bound, showBound) && Exports(doc, hs, others, name, showBound)
    ensures var parsed := Parsed(RoundTrips.Print(doc, show), num);
      parsed.Ok? && multiset(Built(parsed.value, name, bound)) == multiset(Map(h => SeriesView(h, name), hs))
  {
    RoundTrips.RoundTrip(doc, num, show);
    Rebuilds(RoundTrips.Samples(doc), hs, others, name, bound, showBound);
  }

  /** The one series of a metric that an engine exports after these observations. */
  function SeriesOf(labels: map<string, string>, bounds: seq<real>, obs: seq<real>): HistogramRebuild.Series {
    HistogramRebuild.Series(labels, Observed(bounds, obs), |obs| as real, Sum(obs))
  }

  lemma ScrapeOfOne(doc: seq<RoundTrips.Entry<real>>, labels: map<string, string>, bounds: seq<real>, obs: seq<real>,
                    others: seq<Sample<real>>, name: string, num: string -> Option<real>, show: real -> string,
                    bound: string -> Option<Bound>, showBound: Bound -> string)
    requires WrittenToBeRead(doc, [SeriesOf(labels, bounds, obs)], num, show, bound, showBound) && Layout(bounds)
    requires Exports(doc, [SeriesOf(labels, bounds, obs)], others, name, showBound)
    ensures var parsed := Parsed(RoundTrips.Print(doc, show), num);
      parsed.Ok? && Built(parsed.value, name, bound) == [Scrape(name, labels, bounds, obs)]
  {
    var h := SeriesOf(labels, bounds, obs);
    ScrapeGivesHistograms(doc, [h], others, name, num, show, bound, showBound);
    ObservedGrows(bounds, obs);
    SortFixed(h.buckets, BucketLe);
    var built := Built(Parsed(RoundTrips.Print(doc, show), num).value, name, bound);
    assert Map(h => SeriesView(h, name), [h]) == [Scrape(name, labels, bounds, obs)];
    SingleView(built, Scrape(name, labels, bounds, obs));
  }

  lemma SingleView(a: seq<View>, x: View)
    requires multiset(a) == multiset([x])
    ensures a == [x]
  {
    SameMultiset(a, [x]);
    assert a[0] in a;
  }

  /** The histogram of a metric that has one series. */
  function OnlyView(text: string, name: string, num: string -> Option<real>, bound: string -> Option<Bound>): Option<View> {
    var parsed := Parsed(text, num);
    if parsed.Err? then None
    else
      var views := Built(parsed.value, name, bound);
      if |views| == 1 then Some(views[0]) else None
  }

  /** A text with the one series that an engine exports after these observations, and with anything unrelated. */
  ghost predicate ScrapedWhole(doc: seq<RoundTrips.Entry<real>>, labels: map<string, string>, bounds: seq<real>, obs: seq<real>,
                               others: seq<Sample<real>>, name: string, num: string -> Option<real>, show: real -> string,
                               bound: string -> Option<Bound>, showBound: Bound -> string) {
    && WrittenToBeRead(doc, [SeriesOf(labels, bounds, obs)], num, show, bound, showBound)
    && Exports(doc, [SeriesOf(labels, bounds, obs)], others, name, showBound)
  }

  /**
   * Two scrapes of an engine, as text: whatever else they hold and however their lines are ordered,
   * their difference is the histogram of exactly the observations made between them.
   */
  lemma TextsGiveTheWindow(earlier: seq<RoundTrips.Entry<real>>, later: seq<RoundTrips.Entry<real>>, labels: map<string, string>,
                           bounds: seq<real>, before: seq<real>, during: seq<real>,
                           othersEarlier: seq<Sample<real>>, othersLater: seq<Sample<real>>, name: string,
                           num: string -> Option<real>, show: real -> string, bound: string -> Option<Bound>, showBound: Bound -> string)
    requires Layout(bounds)
    requires ScrapedWhole(earlier, labels, bounds, before, othersEarlier, name, num, show, bound, showBound)
    requires ScrapedWhole(later, labels, bounds, before + during, othersLater, name, num, show, bound, showBound)
    ensures var a, b := OnlyView(RoundTrips.Print(earlier, show), name, num, bound), OnlyView(RoundTrips.Print(later, show), name, num, bound);
      a.Some? && b.Some? && HistogramDelta(b.value, a.value) == Delta(Scrape(name, labels, bounds, during))
  {
    ScrapeOfOne(earlier, labels, bounds, before, othersEarlier, name, num, show, bound, showBound);
    ScrapeOfOne(later, labels, bounds, before + during, othersLater, name, num, show, bound, showBound);
    WindowIsItsObservations(name, labels, bounds, before, during);
  }

  // ----- such texts exist ----------------------------------------------------------------------

  /** The lines an exporter writes for one series. */
  function Exported(name: string, pairs: seq<(string, string)>, h: HistogramRebuild.Series, show: Bound -> string): seq<RoundTrips.Entry<real>> {
    Map((b: Bucket) => RoundTrips.Series(name + "_bucket", pairs + [("le", show(b.0))], b.1, None), h.buckets)
    + [RoundTrips.Series(name + "_count", pairs, h.count, None), RoundTrips.Series(name + "_sum", pairs, h.sum, None)]
  }

  lemma {:induction false} LabelsAppend(pairs: seq<(string, string)>, p: (string, string), onto: map<string, string>)
    ensures RoundTrips.Labels(pairs + [p], onto) == RoundTrips.Labels(pairs, onto)[p.0 := p.1]
  {
    if pairs == [] {
      assert pairs + [p] == [p];
    } else {
      assert (pairs + [p])[1..] == pairs[1..] + [p];
      LabelsAppend(pairs[1..], p, onto[pairs[0].0 := pairs[0].1]);
    }
  }

  lemma {:induction false} SamplesConcat(a: seq<RoundTrips.Entry<real>>, b: seq<RoundTrips.Entry<real>>)
    ensures RoundTrips.Samples(a + b) == RoundTrips.Samples(a) + RoundTrips.Samples(b)
  {
    if a == [] {
      assert a + b == b;
    } else {
      assert (a + b)[1..] == a[1..] + b;
      SamplesConcat(a[1..], b);
    }
  }

  lemma {:induction false} BucketLines(name: string, pairs: seq<(string, string)>, h: HistogramRebuild.Series, buckets: seq<Bucket>, show: Bound -> string)
    requires h.labels == RoundTrips.Labels(pairs, map[])
    ensures RoundTrips.Samples(Map((b: Bucket) => RoundTrips.Series(name + "_bucket", pairs + [("le", show(b.0))], b.1, None), buckets))
         == Map((b: Bucket) => BucketSample(h, b, name, show), buckets)
  {
    if buckets != [] {
      var lines := Map((b: Bucket) => RoundTrips.Series(name + "_bucket", pairs + [("le", show(b.0))], b.1, None), buckets);
      assert lines[1..] == Map((b: Bucket) => RoundTrips.Series(name + "_bucket", pairs + [("le", show(b.0))], b.1, None), buckets[1..]);
      BucketLines(name, pairs, h, buckets[1..], show);
      LabelsAppend(pairs, ("le", show(buckets[0].0)), map[]);
    }
  }

  lemma OneLineOneSample(e: RoundTrips.Entry<real>)
    requires e.Series?
    ensures RoundTrips.Samples([e]) == [Sample(e.name, RoundTrips.Labels(e.pairs, map[]), e.value)]
  {
    assert [e][1..] == [];
    assert RoundTrips.Samples([e][1..]) == [];
  }

  lemma ExportedSamples(name: string, pairs: seq<(string, string)>, h: HistogramRebuild.Series, show: Bound -> string)
    requires h.labels == RoundTrips.Labels(pairs, map[])
    ensures RoundTrips.Samples(Exported(name, pairs, h, show)) == Flattened(h, name, show)
  {
    var lines := Map((b: Bucket) => RoundTrips.Series(name + "_bucket", pairs + [("le", show(b.0))], b.1, None), h.buckets);
    var c, t := RoundTrips.Series(name + "_count", pairs, h.count, None), RoundTrips.Series(name + "_sum", pairs, h.sum, None);
    BucketLines(name, pairs, h, h.buckets, show);
    SamplesConcat(lines, [c, t]);
    SamplesConcat([c], [t]);
    OneLineOneSample(c);
    OneLineOneSample(t);
    assert [c] + [t] == [c, t];
  }

  /** A metric name and labels that can be exported. */
  predicate Exportable(name: string, pairs: seq<(string, string)>) {
    && RoundTrips.IsName(name)
    && (forall i :: 0 <= i < |pairs| ==> RoundTrips.IsKey(pairs[i].0) && RoundTrips.OneLine(pairs[i].1))
    && "le" !in RoundTrips.Labels(pairs, map[])
  }

  lemma LongerName(name: string, suffix: string)
    requires RoundTrips.IsName(name) && (suffix == "_bucket" || suffix == "_count" || suffix == "_sum")
    ensures RoundTrips.IsName(name + suffix)
  {
    var s := name + suffix;
    forall i | 0 <= i < |s| ensures !IsSpace(s[i]) && s[i] != '{' {
      assert s[i] == if i < |name| then name[i] else suffix[i - |name|];
      assert i < |name| ==> name[i] in name;
    }
  }

  lemma ExportedWritable(name: string, pairs: seq<(string, string)>, h: HistogramRebuild.Series, bounds: seq<Bound>)
    requires Exportable(name, pairs)
    ensures var doc := Exported(name, pairs, h, RoundTrips.Token(bounds));
      forall i :: 0 <= i < |doc| ==> RoundTrips.Writable(doc[i]) && RoundTrips.Intact(doc[i])
  {
    var doc := Exported(name, pairs, h, RoundTrips.Token(bounds));
    LongerName(name, "_count");
    LongerName(name, "_sum");
    forall i | 0 <= i < |doc| ensures RoundTrips.Writable(doc[i]) && RoundTrips.Intact(doc[i]) {
      if i < |h.buckets| {
        BucketLineWritable(name, pairs, h.buckets[i], bounds);
      }
    }
  }

  lemma FlattenedOne(h: HistogramRebuild.Series, name: string, show: Bound -> string)
    ensures FlattenedAll([h], name, show) + [] == Flattened(h, name, show)
  {
    assert [h][1..] == [];
    assert FlattenedAll([h][1..], name, show) == [];
  }

  lemma ExportedExports(name: string, pairs: seq<(string, string)>, h: HistogramRebuild.Series, bounds: seq<Bound>)
    requires Exportable(name, pairs) && h.labels == RoundTrips.Labels(pairs, map[])
    ensures Exports(Exported(name, pairs, h, RoundTrips.Token(bounds)), [h], [], name, RoundTrips.Token(bounds))
  {
    var show := RoundTrips.Token(bounds);
    ExportedSamples(name, pairs, h, show);
    FlattenedOne(h, name, show);
    ExportedWritable(name, pairs, h, bounds);
  }

  lemma BucketLineWritable(name: string, pairs: seq<(string, string)>, b: Bucket, bounds: seq<Bound>)
    requires Exportable(name, pairs)
    ensures var line := RoundTrips.Series(name + "_bucket", pairs + [("le", RoundTrips.Token(bounds)(b.0))], b.1, None);
      RoundTrips.Writable(line) && RoundTrips.Intact(line)
  {
    var token := RoundTrips.Token(bounds)(b.0);
    LongerName(name, "_bucket");
    assert token == RoundTrips.Unary(RoundTrips.IndexOf(b.0, bounds));
  }

  /** Whatever was observed before and in between, there are texts and numerals that the result below is about. */
  lemma WindowsCanBeScraped(name: string, pairs: seq<(string, string)>, bounds: seq<real>, before: seq<real>, during: seq<real>)
    requires Exportable(name, pairs)
    ensures exists num, show, bound, showBound, earlier, later :: var labels := RoundTrips.Labels(pairs, map[]);
      && ScrapedWhole(earlier, labels, bounds, before, [], name, num, show, bound, showBound)
      && ScrapedWhole(later, labels, bounds, before + during, [], name, num, show, bound, showBound)
  {
    var labels := RoundTrips.Labels(pairs, map[]);
    var h, k := SeriesOf(labels, bounds, before), SeriesOf(labels, bounds, before + during);
    var all := BoundsOf(h.buckets) + BoundsOf(k.buckets);
    var bound, showBound := RoundTrips.Numeral(all), RoundTrips.Token(all);
    var earlier, later := Exported(name, pairs, h, showBound), Exported(name, pairs, k, showBound);
    var num, show := RoundTrips.Numeral(RoundTrips.ValuesIn(earlier + later)), RoundTrips.Token(RoundTrips.ValuesIn(earlier + later));
    ExportedExports(name, pairs, h, all);
    ExportedExports(name, pairs, k, all);
    RoundTrips.EveryDocumentCanBeLegible(earlier + later);
    PartsLegible(earlier, later, num, show);
    BoundsShown(h, all);
    BoundsShown(k, all);
    assert ScrapedWhole(earlier, labels, bounds, before, [], name, num, show, bound, showBound);
    assert ScrapedWhole(later, labels, bounds, before + during, [], name, num, show, bound, showBound);
  }

  lemma PartsLegible(a: seq<RoundTrips.Entry<real>>, b: seq<RoundTrips.Entry<real>>, num: string -> Option<real>, show: real -> string)
    requires RoundTrips.Legible(a + b, num, show)
    ensures RoundTrips.Legible(a, num, show) && RoundTrips.Legible(b, num, show)
  {
    forall i | 0 <= i < |a| ensures RoundTrips.Readable(a[i], num, show) {
      assert (a + b)[i] == a[i];
    }
    forall i | 0 <= i < |b| ensures RoundTrips.Readable(b[i], num, show) {
      assert (a + b)[|a| + i] == b[i];
    }
  }

  lemma BoundsShown(h: HistogramRebuild.Series, all: seq<Bound>)
    requires forall b :: b in BoundsOf(h.buckets) ==> b in all
    ensures HistogramRebuild.Legible([h], RoundTrips.Numeral(all), RoundTrips.Token(all))
  {
    forall i | 0 <= i < |h.buckets|
      ensures RoundTrips.Numeral(all)(RoundTrips.Token(all)(h.buckets[i].0)) == Some(h.buckets[i].0)
    {
      assert BoundsOf(h.buckets)[i] == h.buckets[i].0;
      RoundTrips.ListedIsShown(h.buckets[i].0, all);
    }
  }

  // ----- the figures of a step ------------------------------------------------------------------

  /** What a scrape of the engine holds: histograms by signal, and single values. */
  datatype Snapshot = Snapshot(scrapedAt: real, histograms: map<string, View>, values: map<string, real>)

  datatype Figures = Figures(count: real, p50: Answer, p99: Answer, mean: Option<real>)

  datatype Why = NoBaseline | NoFinal | NotEmitted | LayoutChanged | CounterReset

  datatype Reading = Measured(figures: Figures) | Unavailable(why: Why)

  const STEP_HISTOGRAMS: seq<(string, string)> := [
    ("ttft", "ttft"), ("queue_time", "queue_time"), ("prefill_time", "prefill_time"),
    ("decode_time", "decode_time"), ("tpot", "tpot"), ("e2e", "e2e_latency")]

  const STEP_COUNTERS: seq<string> := ["preemptions", "generation_tokens", "prompt_tokens"]

  /** What a step is told about the engine: what it started from, its window and its figures. */
  datatype StepReport = StepReport(
    baselineRunning: Option<real>,
    baselineWaiting: Option<real>,
    window: Option<real>,
    counters: map<string, real>,
    steps: map<string, Option<Figures>>,
    completed: Option<real>,
    unavailable: map<string, Why>)

  function Lookup(values: map<string, real>, key: string): Option<real> {
    if key in values then Some(values[key]) else None
  }

  function Mean(v: View): Option<real> {
    if v.count == 0.0 then None else Some(v.sum / v.count)
  }

  function FiguresOf(v: View): Figures {
    Figures(v.count, Quantile(v.buckets, 0.50), Quantile(v.buckets, 0.99), Mean(v))
  }

  /** One `<key>_step` figure, or why there is none. */
  function ReadingOf(baseline: Option<Snapshot>, final: Option<Snapshot>, signal: string): Reading {
    if baseline.None? then Unavailable(NoBaseline)
    else if final.None? then Unavailable(NoFinal)
    else if signal !in baseline.value.histograms || signal !in final.value.histograms then Unavailable(NotEmitted)
    else
      match HistogramDelta(final.value.histograms[signal], baseline.value.histograms[signal])
      case NotTheSameSeries => Unavailable(LayoutChanged)
      case Reset => Unavailable(CounterReset)
      case Delta(view) => Measured(FiguresOf(view))
  }

  /** Every key is in `out`, and in `unavailable` exactly when it has no figures. */
  predicate Filed(key: string, reading: Reading, out: map<string, Option<Figures>>, unavailable: map<string, Why>) {
    && key in out
    && match reading
       case Measured(figures) => out[key] == Some(figures) && key !in unavailable
       case Unavailable(why) => out[key] == None && key in unavailable && unavailable[key] == why
  }

  ghost predicate DistinctKeys(keys: seq<(string, string)>) {
    forall j, k :: 0 <= j < k < |keys| ==> keys[j].0 != keys[k].0
  }

  predicate IsStepKey(keys: seq<(string, string)>, key: string) {
    exists k :: 0 <= k < |keys| && keys[k].0 == key
  }

  lemma StepKeysAreDistinct()
    ensures DistinctKeys(STEP_HISTOGRAMS)
  {
    assert STEP_HISTOGRAMS[0].0[1] == 't' && STEP_HISTOGRAMS[4].0[1] == 'p' && STEP_HISTOGRAMS[5].0[1] == '2';
    assert STEP_HISTOGRAMS[1].0[0] == 'q' && STEP_HISTOGRAMS[2].0[0] == 'p' && STEP_HISTOGRAMS[3].0[0] == 'd';
  }

  /** The difference of each counter that is on both sides and did not fall, and of no other. */
  ghost predicate CounterGrowth(first: map<string, real>, last: map<string, real>, keys: seq<string>, deltas: map<string, real>) {
    && (forall key :: key in deltas <==> key in keys && key in first && key in last && first[key] <= last[key])
    && (forall key :: key in deltas ==> first[key] + deltas[key] == last[key])
  }

  /** The value under that key, if there is a baseline and it has one. */
  predicate Found(baseline: Option<Snapshot>, key: string, r: Option<real>) {
    && (r.Some? <==> baseline.Some? && key in baseline.value.values)
    && (r.Some? ==> r.value == baseline.value.values[key])
  }

  /** No two results grow alike from the same values. */
  lemma GrowthIsUnique(first: map<string, real>, last: map<string, real>, keys: seq<string>, a: map<string, real>, b: map<string, real>)
    requires CounterGrowth(first, last, keys, a) && CounterGrowth(first, last, keys, b)
    ensures a == b
  {}

  method StepDeltas(baseline: Option<Snapshot>, final: Option<Snapshot>) returns (report: StepReport)
    ensures forall k :: 0 <= k < |STEP_HISTOGRAMS| ==>
      Filed(STEP_HISTOGRAMS[k].0, ReadingOf(baseline, final, STEP_HISTOGRAMS[k].1), report.steps, report.unavailable)
    ensures forall key :: key in report.steps || key in report.unavailable ==> IsStepKey(STEP_HISTOGRAMS, key)
    ensures report.completed == match ReadingOf(baseline, final, "e2e_latency")
      case Measured(figures) => Some(figures.count)
      case Unavailable(_) => None
    ensures Found(baseline, "running", report.baselineRunning) && Found(baseline, "waiting", report.baselineWaiting)
    ensures report.window.Some? <==> baseline.Some? && final.Some?
    ensures report.window.Some? ==> baseline.value.scrapedAt + report.window.value == final.value.scrapedAt
    ensures baseline.Some? && final.Some? ==>
      CounterGrowth(baseline.value.values, final.value.values, STEP_COUNTERS, report.counters)
    ensures baseline.None? || final.None? ==> report.counters == map[]
  {
    var running: Option<real>, waiting: Option<real> := None, None;
    if baseline.Some? {
      running, waiting := Lookup(baseline.value.values, "running"), Lookup(baseline.value.values, "waiting");
    }
    var window: Option<real>, counters: map<string, real> := None, map[];
    if baseline.Some? && final.Some? {
      window := Some(final.value.scrapedAt - baseline.value.scrapedAt);
      counters := CounterDeltas(baseline.value.values, final.value.values, STEP_COUNTERS);
    }
    StepKeysAreDistinct();
    var steps, unavailable := StepFigures(baseline, final, STEP_HISTOGRAMS);
    var completed: Option<real> := None;
    assert STEP_HISTOGRAMS[5] == ("e2e", "e2e_latency");
    if "e2e" in steps && steps["e2e"].Some? {
      completed := Some(steps["e2e"].value.count);
    }
    report := StepReport(running, waiting, window, counters, steps, completed, unavailable);
  }

  /** The loop over the histograms. */
  method StepFigures(baseline: Option<Snapshot>, final: Option<Snapshot>, keys: seq<(string, string)>)
    returns (out: map<string, Option<Figures>>, unavailable: map<string, Why>)
    requires DistinctKeys(keys)
    ensures forall k :: 0 <= k < |keys| ==> Filed(keys[k].0, ReadingOf(baseline, final, keys[k].1), out, unavailable)
    ensures forall key :: key in out || key in unavailable ==> IsStepKey(keys, key)
  {
    out, unavailable := map[], map[];
    for i := 0 to |keys|
      invariant forall k :: 0 <= k < i ==> Filed(keys[k].0, ReadingOf(baseline, final, keys[k].1), out, unavailable)
      invariant forall k :: i <= k < |keys| ==> keys[k].0 !in unavailable
      invariant forall key :: key in out || key in unavailable ==> IsStepKey(keys, key)
    {
      var (key, signal) := keys[i];
      assert IsStepKey(keys, key) && forall k :: 0 <= k < |keys| && k != i ==> keys[k].0 != key;
      out := out[key := None];
      var reading := ReadStep(baseline, final, signal);
      if reading.Measured? {
        out := out[key := Some(reading.figures)];
      } else {
        unavailable := unavailable[key := reading.why];
      }
    }
  }

  /** The body of the loop of `_step_deltas`, as far as the figures. */
  method ReadStep(baseline: Option<Snapshot>, final: Option<Snapshot>, signal: string) returns (reading: Reading)
    ensures reading == ReadingOf(baseline, final, signal)
  {
    if baseline.None? || final.None? {
      return Unavailable(if baseline.None? then NoBaseline else NoFinal);
    }
    var before, after := baseline.value.histograms, final.value.histograms;
    if signal !in before || signal !in after {
      return Unavailable(NotEmitted);
    }
    var delta := HistogramDelta(after[signal], before[signal]);
    if delta.NotTheSameSeries? {
      return Unavailable(LayoutChanged);
    }
    if delta.Reset? {
      return Unavailable(CounterReset);
    }
    return Measured(FiguresOf(delta.view));
  }

  /** `_counter_deltas`: a counter that fell, or is missing on either side, is left out. */
  method CounterDeltas(first: map<string, real>, last: map<string, real>, keys: seq<string>) returns (deltas: map<string, real>)
    ensures CounterGrowth(first, last, keys, deltas)
  {
    deltas := map[];
    for k := 0 to |keys|
      invariant CounterGrowth(first, last, keys[..k], deltas)
    {
      var key := keys[k];
      assert forall x :: x in keys[..k + 1] <==> x in keys[..k] || x == key;
      if key in first && key in last && last[key] >= first[key] {
        deltas := deltas[key := last[key] - first[key]];
      }
    }
    assert keys[..|keys|] == keys;
  }

  /** The window of a step, read off two scrapes of one series. */
  lemma StepReadsWindow(baseline: Snapshot, final: Snapshot, signal: string, later: View, earlier: View, window: View)
    requires signal in baseline.histograms && baseline.histograms[signal] == earlier
    requires signal in final.histograms && final.histograms[signal] == later
    requires HistogramDelta(later, earlier) == Delta(window)
    ensures ReadingOf(Some(baseline), Some(final), signal) == Measured(FiguresOf(window))
  {}

  /** The figures of a window: how many, their p50 and p99, and their mean if there are any. */
  ghost predicate AreFiguresOf(f: Figures, window: View) {
    && f.count == window.count && f.p50 == Quantile(window.buckets, 0.50) && f.p99 == Quantile(window.buckets, 0.99)
    && (f.mean.Some? <==> window.count != 0.0) && (f.mean.Some? ==> f.mean.value * window.count == window.sum)
  }

  /** Both scrapes hold the signal. */
  predicate HasBoth(baseline: Option<Snapshot>, final: Option<Snapshot>, signal: string) {
    baseline.Some? && final.Some? && signal in baseline.value.histograms && signal in final.value.histograms
  }

  /** Why a figure is missing while the scrapes are not both there and hold the signal. */
  lemma MissingExactly(baseline: Option<Snapshot>, final: Option<Snapshot>, signal: string)
    ensures var r := ReadingOf(baseline, final, signal);
      && (r == Unavailable(NoBaseline) <==> baseline.None?)
      && (r == Unavailable(NoFinal) <==> baseline.Some? && final.None?)
      && (r == Unavailable(NotEmitted) <==> baseline.Some? && final.Some? && !HasBoth(baseline, final, signal))
  {}

  /** And otherwise what it is taken of: what the later scrape has more than the earlier. */
  lemma ReadingExactly(baseline: Snapshot, final: Snapshot, signal: string, earlier: View, later: View)
    requires signal in baseline.histograms && baseline.histograms[signal] == earlier
    requires signal in final.histograms && final.histograms[signal] == later
    ensures var r := ReadingOf(Some(baseline), Some(final), signal);
      if !Alike(later, earlier) then r == Unavailable(LayoutChanged)
      else if Fell(later, earlier) then r == Unavailable(CounterReset)
      else r.Measured? && exists window :: GrownBy(earlier, window, later) && AreFiguresOf(r.figures, window)
  {
    DifferenceExactly(later, earlier);
    var d := HistogramDelta(later, earlier);
    if d.Delta? {
      StepReadsWindow(baseline, final, signal, later, earlier, d.view);
      AreTheFigures(d.view);
    }
  }

  lemma AreTheFigures(window: View)
    ensures AreFiguresOf(FiguresOf(window), window)
  {}

  /** The number and mean of the observations, and their p50 and p99 as near as the buckets allow. */
  ghost predicate Describes(f: Figures, bounds: seq<real>, obs: seq<real>) {
    && f.count == |obs| as real
    && (if obs == [] then f.mean.None? else f.mean.Some? && f.mean.value == Sum(obs) / |obs| as real)
    && (obs != [] ==> InTheBucketOf(bounds, obs, 50.0, f.p50) && InTheBucketOf(bounds, obs, 99.0, f.p99))
  }

  lemma FiguresOfWindow(name: string, labels: map<string, string>, bounds: seq<real>, during: seq<real>)
    requires Layout(bounds) && forall i :: 0 <= i < |during| ==> 0.0 <= during[i]
    ensures Describes(FiguresOf(Scrape(name, labels, bounds, during)), bounds, during)
  {
    if during != [] {
      WindowIsEstimated(bounds, during, 50.0, 0.50);
      WindowIsEstimated(bounds, during, 99.0, 0.99);
    }
  }

  lemma WindowIsEstimated(bounds: seq<real>, during: seq<real>, pct: real, q: real)
    requires Layout(bounds) && during != [] && 0.0 < pct <= 100.0 && forall i :: 0 <= i < |during| ==> 0.0 <= during[i]
    requires q == pct / 100.0
    ensures InTheBucketOf(bounds, during, pct, Quantile(Observed(bounds, during), q))
  {
    assert q == Fraction(pct);
    SameBucket(bounds, during, pct);
  }

  /**
   * The figures of a step are those of its own observations: their number, their mean, and p50 and
   * p99 in the buckets of the true nearest-rank percentiles, whatever the engine had served before.
   */
  lemma StepMeasuresItself(baseline: Snapshot, final: Snapshot, signal: string, name: string, labels: map<string, string>,
                           bounds: seq<real>, before: seq<real>, during: seq<real>)
    requires signal in baseline.histograms && baseline.histograms[signal] == Scrape(name, labels, bounds, before)
    requires signal in final.histograms && final.histograms[signal] == Scrape(name, labels, bounds, before + during)
    requires Layout(bounds) && forall i :: 0 <= i < |during| ==> 0.0 <= during[i]
    ensures var r := ReadingOf(Some(baseline), Some(final), signal);
      r.Measured? && Describes(r.figures, bounds, during)
  {
    var window := Scrape(name, labels, bounds, during);
    WindowIsItsObservations(name, labels, bounds, before, during);
    StepReadsWindow(baseline, final, signal, final.histograms[signal], baseline.histograms[signal], window);
    FiguresOfWindow(name, labels, bounds, during);
  }

  /** The answer lies in the bucket of the true percentile, or is the highest finite bound below it. */
  ghost predicate InTheBucketOf(bounds: seq<real>, obs: seq<real>, pct: real, answer: Answer)
    requires obs != []
  {
    && Percentile(obs, pct).Some? && answer.Value?
    && var i := BucketOf(bounds, Percentile(obs, pct).value);
       && i <= |bounds|
       && (i < |bounds| ==> LowerEdge(bounds, i) < answer.r <= bounds[i])
       && (i == |bounds| && bounds != [] ==> answer.r == bounds[|bounds| - 1] < Percentile(obs, pct).value)
  }
}
