/** Differences of cumulative scrapes are histograms of what happened between them. */
module HistogramWindows {
  import opened Seqs
  import opened OrderStatistics
  import opened Quantiles
  import opened HistogramAccuracy
  import opened Histograms

  /** A scrape of a series that has counted these observations since it started. */
  function Scrape(name: string, labels: map<string, string>, bounds: seq<real>, obs: seq<real>): View {
    View(name, labels, Observed(bounds, obs), |obs| as real, Sum(obs))
  }

  /** Subtracting an earlier scrape leaves the histogram of exactly the later observations. */
  lemma WindowIsItsObservations(name: string, labels: map<string, string>, bounds: seq<real>, before: seq<real>, during: seq<real>)
    ensures HistogramDelta(Scrape(name, labels, bounds, before + during), Scrape(name, labels, bounds, before))
         == Delta(Scrape(name, labels, bounds, during))
  {
    var later, earlier := Scrape(name, labels, bounds, before + during), Scrape(name, labels, bounds, before);
    var window := Scrape(name, labels, bounds, during);
    SumConcat(before, during);
    forall i | 0 <= i < |later.buckets|
      ensures later.buckets[i].0 == earlier.buckets[i].0 == window.buckets[i].0
      ensures later.buckets[i].1 - earlier.buckets[i].1 == window.buckets[i].1 >= 0.0
    {
      if i < |bounds| {
        CountConcat((v: real) => v <= bounds[i], before, during);
      }
    }
    assert Bounds(later) == Bounds(earlier);
    var d := HistogramDelta(later, earlier);
    assert d.Delta?;
    assert d.view.buckets == window.buckets;
  }

  /** So its quantiles are those of the later observations, whatever came before. */
  lemma WindowQuantile(name: string, labels: map<string, string>, bounds: seq<real>, before: seq<real>, during: seq<real>, pct: real)
    requires Layout(bounds) && during != [] && 0.0 < pct <= 100.0
    requires forall i :: 0 <= i < |during| ==> 0.0 <= during[i]
    ensures var d := HistogramDelta(Scrape(name, labels, bounds, before + during), Scrape(name, labels, bounds, before));
      && d.Delta? && Percentile(during, pct).Some? && Quantile(d.view.buckets, Fraction(pct)).Value?
      && var x, estimate := Percentile(during, pct).value, Quantile(d.view.buckets, Fraction(pct)).r;
         var i := BucketOf(bounds, x);
         && i <= |bounds|
         && (i < |bounds| ==> LowerEdge(bounds, i) <= x <= bounds[i] && LowerEdge(bounds, i) < estimate <= bounds[i])
         && (i == |bounds| ==> estimate == bounds[|bounds| - 1] < x)
  {
    WindowIsItsObservations(name, labels, bounds, before, during);
    SameBucket(bounds, during, pct);
  }

  /** A restart shows exactly when the new engine has done less than the old one in some bucket or in all. */
  lemma RestartShows(name: string, labels: map<string, string>, bounds: seq<real>, before: seq<real>, after: seq<real>)
    ensures HistogramDelta(Scrape(name, labels, bounds, after), Scrape(name, labels, bounds, before)).Reset?
       <==> |after| < |before| || exists i :: 0 <= i < |bounds| && AtMost(after, bounds[i]) < AtMost(before, bounds[i])
    ensures !HistogramDelta(Scrape(name, labels, bounds, after), Scrape(name, labels, bounds, before)).NotTheSameSeries?
  {
    var later, earlier := Scrape(name, labels, bounds, after), Scrape(name, labels, bounds, before);
    assert Bounds(later) == Bounds(earlier);
    var n := |later.buckets|;
    var deltas := seq(n, i requires 0 <= i < n => (later.buckets[i].0, later.buckets[i].1 - earlier.buckets[i].1));
    if i :| 0 <= i < |bounds| && AtMost(after, bounds[i]) < AtMost(before, bounds[i]) {
      assert deltas[i].1 < 0.0;
    }
    if i :| 0 <= i < n && deltas[i].1 < 0.0 {
      assert if i < |bounds| then AtMost(after, bounds[i]) < AtMost(before, bounds[i]) else |after| < |before|;
    }
  }

  /** Two views of one series: of one name, with the same bounds. */
  predicate Alike(later: View, earlier: View) {
    && later.name == earlier.name && |later.buckets| == |earlier.buckets|
    && forall i :: 0 <= i < |later.buckets| ==> later.buckets[i].0 == earlier.buckets[i].0
  }

  predicate Fell(later: View, earlier: View)
    requires |later.buckets| == |earlier.buckets|
  {
    later.count < earlier.count || exists i :: 0 <= i < |later.buckets| && later.buckets[i].1 < earlier.buckets[i].1
  }

  /** Nothing is subtracted across a change of name or layout, or below zero; else the window put back on the earlier scrape is the later one. */
  lemma DifferenceExactly(later: View, earlier: View)
    ensures var d := HistogramDelta(later, earlier);
      if !Alike(later, earlier) then d.NotTheSameSeries?
      else if Fell(later, earlier) then d.Reset?
      else d.Delta? && GrownBy(earlier, d.view, later)
  {
    if |later.buckets| == |earlier.buckets| {
      if Bounds(later) == Bounds(earlier) {
        SameBounds(later, earlier);
      }
      assert Alike(later, earlier) ==> Bounds(later) == Bounds(earlier);
      if Bounds(later) == Bounds(earlier) {
        FellExactly(later, earlier);
      }
    } else {
      assert |Bounds(later)| != |Bounds(earlier)|;
    }
  }

  lemma FellExactly(later: View, earlier: View)
    requires |later.buckets| == |earlier.buckets|
    ensures var n := |later.buckets|;
      var deltas := seq(n, i requires 0 <= i < n => (later.buckets[i].0, later.buckets[i].1 - earlier.buckets[i].1));
      (exists i :: 0 <= i < n && deltas[i].1 < 0.0) <==> exists i :: 0 <= i < n && later.buckets[i].1 < earlier.buckets[i].1
  {
    var n := |later.buckets|;
    var deltas := seq(n, i requires 0 <= i < n => (later.buckets[i].0, later.buckets[i].1 - earlier.buckets[i].1));
    if i :| 0 <= i < n && later.buckets[i].1 < earlier.buckets[i].1 {
      assert deltas[i].1 < 0.0;
    }
    if i :| 0 <= i < n && deltas[i].1 < 0.0 {
      assert later.buckets[i].1 < earlier.buckets[i].1;
    }
  }

  predicate GrownBy(earlier: View, window: View, later: View) {
    && earlier.name == window.name == later.name && window.labels == later.labels
    && |earlier.buckets| == |window.buckets| == |later.buckets|
    && 0.0 <= window.count && earlier.count + window.count == later.count && earlier.sum + window.sum == later.sum
    && forall i :: 0 <= i < |later.buckets| ==>
         && earlier.buckets[i].0 == window.buckets[i].0 == later.buckets[i].0
         && 0.0 <= window.buckets[i].1 && earlier.buckets[i].1 + window.buckets[i].1 == later.buckets[i].1
  }

  // ----- telescoping over arbitrary scrapes -------------------------------------------

  /** Every consecutive difference exists. */
  ghost predicate Unreset(scrapes: seq<View>) {
    |scrapes| >= 2 ==> HistogramDelta(scrapes[1], scrapes[0]).Delta? && Unreset(scrapes[1..])
  }

  /** The count of bucket `k` over the windows between consecutive scrapes. */
  ghost function WindowsBucket(scrapes: seq<View>, k: nat): real
    requires scrapes != [] && Unreset(scrapes) && k < |scrapes[0].buckets|
    decreases |scrapes|
  {
    if |scrapes| == 1 then 0.0
    else
      assert |Bounds(scrapes[1])| == |Bounds(scrapes[0])|;
      HistogramDelta(scrapes[1], scrapes[0]).view.buckets[k].1 + WindowsBucket(scrapes[1..], k)
  }

  ghost function WindowsCount(scrapes: seq<View>): real
    requires scrapes != [] && Unreset(scrapes)
    decreases |scrapes|
  {
    if |scrapes| == 1 then 0.0
    else HistogramDelta(scrapes[1], scrapes[0]).view.count + WindowsCount(scrapes[1..])
  }

  /** Consecutive windows add up to the window from the first scrape to the last: nothing is counted twice or missed. */
  lemma {:induction false} Telescopes(scrapes: seq<View>)
    requires scrapes != [] && Unreset(scrapes)
    ensures var d := HistogramDelta(scrapes[|scrapes| - 1], scrapes[0]);
      && d.Delta? && |d.view.buckets| == |scrapes[0].buckets|
      && d.view.count == WindowsCount(scrapes)
      && forall k :: 0 <= k < |scrapes[0].buckets| ==> d.view.buckets[k].1 == WindowsBucket(scrapes, k)
    decreases |scrapes|
  {
    if |scrapes| > 1 {
      var rest, last := scrapes[1..], scrapes[|scrapes| - 1];
      Telescopes(rest);
      assert rest[|rest| - 1] == last;
      TwoWindows(last, scrapes[1], scrapes[0]);
    }
  }

  lemma SameBounds(a: View, b: View)
    requires Bounds(a) == Bounds(b)
    ensures |a.buckets| == |b.buckets| && forall k :: 0 <= k < |a.buckets| ==> a.buckets[k].0 == b.buckets[k].0
  {
    forall k | 0 <= k < |a.buckets| ensures a.buckets[k].0 == b.buckets[k].0 {
      assert Bounds(a)[k] == Bounds(b)[k];
    }
  }

  lemma TwoWindows(last: View, middle: View, first: View)
    requires HistogramDelta(last, middle).Delta? && HistogramDelta(middle, first).Delta?
    ensures var d, d1, d2 := HistogramDelta(last, first), HistogramDelta(middle, first), HistogramDelta(last, middle);
      && d.Delta? && |d.view.buckets| == |d1.view.buckets| == |d2.view.buckets| == |first.buckets|
      && d.view.count == d1.view.count + d2.view.count
      && forall k :: 0 <= k < |first.buckets| ==> d.view.buckets[k].1 == d1.view.buckets[k].1 + d2.view.buckets[k].1
  {
    var d1, d2 := HistogramDelta(middle, first), HistogramDelta(last, middle);
    SameBounds(last, middle);
    SameBounds(middle, first);
    forall k | 0 <= k < |first.buckets| ensures last.buckets[k].1 - first.buckets[k].1 == d1.view.buckets[k].1 + d2.view.buckets[k].1 >= 0.0 {
      assert d1.view.buckets[k].1 >= 0.0 && d2.view.buckets[k].1 >= 0.0;
    }
  }
}
