/**
 * Histogram series (observability/histograms.py): reassembled from flat samples by
 * `build_histograms`, subtracted by `histogram_delta`.
 */
module Histograms {
  import opened Seqs
  import opened Sorting
  import opened Exposition
  import opened Quantiles

  datatype View = View(name: string, labels: map<string, string>, buckets: seq<Bucket>, count: real, sum: real)

  type Key = map<string, string>

  // ----- build_histograms -------------------------------------------------------

  datatype Entry = Entry(buckets: seq<Bucket>, count: Option<real>, sum: Option<real>)

  /** The dict being filled, with the order its keys were first set in. */
  datatype Grouped = Grouped(order: seq<Key>, entries: map<Key, Entry>)

  const NO_ENTRY := Entry([], None, None)

  /** The label set a sample is filed under: `le` is left out for buckets only. */
  function KeyOf(s: Sample<real>, name: string): Option<Key> {
    if s.name == name + "_bucket" then Some(s.labels - {"le"})
    else if s.name == name + "_count" || s.name == name + "_sum" then Some(s.labels)
    else None
  }

  function SetDefault(g: Grouped, key: Key): Grouped {
    if key in g.entries then g else Grouped(g.order + [key], g.entries[key := NO_ENTRY])
  }

  /** The bucket a sample adds to its entry, if its `le` is there and is a number. */
  function BucketOfSample(s: Sample<real>, num: string -> Option<Bound>): Option<Bucket> {
    if "le" !in s.labels then None
    else match num(s.labels["le"])
      case None => None
      case Some(bound) => Some((bound, s.value))
  }

  function Filed(e: Entry, s: Sample<real>, name: string, num: string -> Option<Bound>): Entry {
    if s.name == name + "_bucket" then
      match BucketOfSample(s, num)
      case None => e
      case Some(b) => e.(buckets := e.buckets + [b])
    else if s.name == name + "_count" then e.(count := Some(s.value))
    else if s.name == name + "_sum" then e.(sum := Some(s.value))
    else e
  }

  function Absorb(g: Grouped, s: Sample<real>, name: string, num: string -> Option<Bound>): Grouped {
    match KeyOf(s, name)
    case None => g
    case Some(key) =>
      var h := SetDefault(g, key);
      h.(entries := h.entries[key := Filed(h.entries[key], s, name, num)])
  }

  function AbsorbAll(g: Grouped, samples: seq<Sample<real>>, name: string, num: string -> Option<Bound>): Grouped
    decreases |samples|
  {
    if samples == [] then g else AbsorbAll(Absorb(g, samples[0], name, num), samples[1..], name, num)
  }

  function OrZero(v: Option<real>): real {
    match v case None => 0.0 case Some(r) => r
  }

  function ViewOf(name: string, key: Key, e: Entry): View {
    View(name, key, Sort(e.buckets, BucketLe), OrZero(e.count), OrZero(e.sum))
  }

  function Views(name: string, g: Grouped): seq<View> {
    Map((k: Key) => if k in g.entries then ViewOf(name, k, g.entries[k]) else ViewOf(name, k, NO_ENTRY), g.order)
  }

  function Built(samples: seq<Sample<real>>, name: string, num: string -> Option<Bound>): seq<View> {
    Views(name, AbsorbAll(Grouped([], map[]), samples, name, num))
  }

  method BuildHistograms(samples: seq<Sample<real>>, name: string, num: string -> Option<Bound>) returns (views: seq<View>)
    ensures views == Built(samples, name, num)
  {
    var order: seq<Key>, entries: map<Key, Entry> := [], map[];
    for i := 0 to |samples|
      invariant AbsorbAll(Grouped([], map[]), samples, name, num)
             == AbsorbAll(Grouped(order, entries), samples[i..], name, num)
      invariant forall k :: k in order ==> k in entries
    {
      var s := samples[i];
      assert samples[i..][1..] == samples[i + 1..];
      var key := KeyOf(s, name);
      if key.Some? {
        if key.value !in entries {
          order := order + [key.value];
          entries := entries[key.value := NO_ENTRY];
        }
        entries := entries[key.value := Filed(entries[key.value], s, name, num)];
      }
    }
    views := [];
    for i := 0 to |order|
      invariant views == Views(name, Grouped(order, entries))[..i]
    {
      views := views + [ViewOf(name, order[i], entries[order[i]])];
    }
  }

  // ----- histogram_delta --------------------------------------------------------

  /** The delta, `None` for a counter reset, or the `ValueError` for two different series. */
  datatype Difference = Delta(view: View) | Reset | NotTheSameSeries

  function Bounds(v: View): seq<Bound> {
    Map((b: Bucket) => b.0, v.buckets)
  }

  function HistogramDelta(later: View, earlier: View): Difference {
    if later.name != earlier.name || Bounds(later) != Bounds(earlier) then NotTheSameSeries
    else
      var n := |later.buckets|;
      var deltas := seq(n, i requires 0 <= i < n => (later.buckets[i].0, later.buckets[i].1 - earlier.buckets[i].1));
      if later.count < earlier.count || exists i :: 0 <= i < n && deltas[i].1 < 0.0 then Reset
      else Delta(View(later.name, later.labels, deltas, later.count - earlier.count, later.sum - earlier.sum))
  }
}
