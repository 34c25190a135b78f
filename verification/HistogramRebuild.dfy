/** `build_histograms` inverts the flattening of histograms into samples, in any order. */
module HistogramRebuild {
  import opened Seqs
  import opened Sorting
  import opened Exposition
  import opened Quantiles
  import opened Histograms

  // ----- what the grouping holds after any samples -------------------------------

  function BucketUnder(key: Key, s: Sample<real>, name: string, num: string -> Option<Bound>): Option<Bucket> {
    if s.name == name + "_bucket" && s.labels - {"le"} == key then BucketOfSample(s, num) else None
  }

  function ValueUnder(key: Key, s: Sample<real>, full: string): Option<real> {
    if s.name == full && s.labels == key then Some(s.value) else None
  }

  function BucketsUnder(key: Key, samples: seq<Sample<real>>, name: string, num: string -> Option<Bound>): seq<Bucket> {
    FilterMap((s: Sample<real>) => BucketUnder(key, s, name, num), samples)
  }

  function ValuesUnder(key: Key, samples: seq<Sample<real>>, full: string): seq<real> {
    FilterMap((s: Sample<real>) => ValueUnder(key, s, full), samples)
  }

  function LastOr(values: seq<real>, otherwise: Option<real>): Option<real> {
    if values == [] then otherwise else Some(values[|values| - 1])
  }

  ghost predicate Wellformed(g: Grouped) {
    NoDuplicates(g.order) && forall k :: k in g.order <==> k in g.entries
  }

  function EntryAt(g: Grouped, key: Key): Entry {
    if key in g.entries then g.entries[key] else NO_ENTRY
  }

  lemma AbsorbOne(g: Grouped, s: Sample<real>, name: string, num: string -> Option<Bound>)
    requires Wellformed(g)
    ensures var h := Absorb(g, s, name, num);
      && Wellformed(h)
      && forall k :: k in h.entries <==> k in g.entries || KeyOf(s, name) == Some(k)
  {}

  lemma AbsorbEntry(g: Grouped, s: Sample<real>, name: string, num: string -> Option<Bound>, key: Key)
    requires Wellformed(g)
    ensures EntryAt(Absorb(g, s, name, num), key)
         == if KeyOf(s, name) == Some(key) then Filed(EntryAt(g, key), s, name, num) else EntryAt(g, key)
  {}

  function Listed<A>(o: Option<A>): seq<A> {
    match o case None => [] case Some(x) => [x]
  }

  /** One sample extends the lists an entry is made of. */
  lemma OneMore(g: Grouped, s: Sample<real>, name: string, num: string -> Option<Bound>, key: Key)
    requires Wellformed(g)
    ensures Extends(EntryAt(Absorb(g, s, name, num), key), EntryAt(g, key), Listed(BucketUnder(key, s, name, num)),
                    Listed(ValueUnder(key, s, name + "_count")), Listed(ValueUnder(key, s, name + "_sum")))
  {
    assert |name + "_bucket"| == |name| + 7 && |name + "_count"| == |name| + 6 && |name + "_sum"| == |name| + 4;
    AbsorbEntry(g, s, name, num, key);
  }

  lemma UnderCons(key: Key, samples: seq<Sample<real>>, name: string, num: string -> Option<Bound>, full: string)
    requires samples != []
    ensures BucketsUnder(key, samples, name, num)
         == Listed(BucketUnder(key, samples[0], name, num)) + BucketsUnder(key, samples[1..], name, num)
    ensures ValuesUnder(key, samples, full) == Listed(ValueUnder(key, samples[0], full)) + ValuesUnder(key, samples[1..], full)
  {}

  ghost predicate Extends(e: Entry, d: Entry, buckets: seq<Bucket>, counts: seq<real>, sums: seq<real>) {
    e.buckets == d.buckets + buckets && e.count == LastOr(counts, d.count) && e.sum == LastOr(sums, d.sum)
  }

  lemma ExtendsTwice(f: Entry, e: Entry, d: Entry, b1: seq<Bucket>, c1: seq<real>, s1: seq<real>, b2: seq<Bucket>, c2: seq<real>, s2: seq<real>)
    requires Extends(e, d, b1, c1, s1) && Extends(f, e, b2, c2, s2)
    ensures Extends(f, d, b1 + b2, c1 + c2, s1 + s2)
  {}

  /** Every entry collects exactly the samples filed under its key, in order; the last count and sum win. */
  lemma {:induction false} AbsorbedEntry(g: Grouped, samples: seq<Sample<real>>, name: string, num: string -> Option<Bound>, key: Key)
    requires Wellformed(g)
    ensures Extends(EntryAt(AbsorbAll(g, samples, name, num), key), EntryAt(g, key), BucketsUnder(key, samples, name, num),
                    ValuesUnder(key, samples, name + "_count"), ValuesUnder(key, samples, name + "_sum"))
    decreases |samples|
  {
    if samples != [] {
      var s, rest, h := samples[0], samples[1..], Absorb(g, samples[0], name, num);
      AbsorbOne(g, s, name, num);
      OneMore(g, s, name, num, key);
      AbsorbedEntry(h, rest, name, num, key);
      UnderCons(key, samples, name, num, name + "_count");
      UnderCons(key, samples, name, num, name + "_sum");
      ExtendsTwice(EntryAt(AbsorbAll(g, samples, name, num), key), EntryAt(h, key), EntryAt(g, key),
                   Listed(BucketUnder(key, s, name, num)), Listed(ValueUnder(key, s, name + "_count")), Listed(ValueUnder(key, s, name + "_sum")),
                   BucketsUnder(key, rest, name, num), ValuesUnder(key, rest, name + "_count"), ValuesUnder(key, rest, name + "_sum"));
    }
  }

  /** There is an entry for a key exactly when some sample is filed under it. */
  lemma {:induction false} AbsorbedKeys(g: Grouped, samples: seq<Sample<real>>, name: string, num: string -> Option<Bound>)
    requires Wellformed(g)
    ensures var h := AbsorbAll(g, samples, name, num);
      && Wellformed(h)
      && forall k :: k in h.entries <==> k in g.entries || exists i :: 0 <= i < |samples| && KeyOf(samples[i], name) == Some(k)
    decreases |samples|
  {
    if samples != [] {
      AbsorbOne(g, samples[0], name, num);
      AbsorbedKeys(Absorb(g, samples[0], name, num), samples[1..], name, num);
      forall k ensures
        (exists i :: 0 <= i < |samples| && KeyOf(samples[i], name) == Some(k))
        <==> KeyOf(samples[0], name) == Some(k) || exists i :: 0 <= i < |samples[1..]| && KeyOf(samples[1..][i], name) == Some(k)
      {
        if i :| 0 <= i < |samples| && KeyOf(samples[i], name) == Some(k) {
          if i > 0 {
            assert samples[1..][i - 1] == samples[i];
          }
        }
      }
    }
  }

  /** The views: one for each label set that occurs, with what was filed under it. */
  lemma BuiltViews(samples: seq<Sample<real>>, name: string, num: string -> Option<Bound>) returns (order: seq<Key>)
    ensures NoDuplicates(order) && |Built(samples, name, num)| == |order|
    ensures forall k :: k in order <==> exists i :: 0 <= i < |samples| && KeyOf(samples[i], name) == Some(k)
    ensures forall i :: 0 <= i < |order| ==>
      Built(samples, name, num)[i] == Expected(order[i], samples, name, num)
  {
    var empty := Grouped([], map[]);
    var g := AbsorbAll(empty, samples, name, num);
    AbsorbedKeys(empty, samples, name, num);
    order := g.order;
    forall i | 0 <= i < |order| ensures Built(samples, name, num)[i] == Expected(order[i], samples, name, num) {
      assert order[i] in g.entries;
      AbsorbedEntry(empty, samples, name, num, order[i]);
      assert [] + BucketsUnder(order[i], samples, name, num) == BucketsUnder(order[i], samples, name, num);
    }
  }

  /** The view of a label set, read off the samples directly. */
  function Expected(key: Key, samples: seq<Sample<real>>, name: string, num: string -> Option<Bound>): View {
    View(name, key, Sort(BucketsUnder(key, samples, name, num), BucketLe),
         OrZero(LastOr(ValuesUnder(key, samples, name + "_count"), None)),
         OrZero(LastOr(ValuesUnder(key, samples, name + "_sum"), None)))
  }

  // ----- the views of any samples ------------------------------------------------------

  /** The label set of a sample of the metric; the `le` of a bucket is no part of it. */
  predicate Labelled(s: Sample<real>, name: string, key: Key) {
    || (s.name == name + "_bucket" && s.labels - {"le"} == key)
    || ((s.name == name + "_count" || s.name == name + "_sum") && s.labels == key)
  }

  predicate Occurs(samples: seq<Sample<real>>, name: string, key: Key) {
    exists i :: 0 <= i < |samples| && Labelled(samples[i], name, key)
  }

  predicate IsViewed(views: seq<View>, key: Key) {
    exists i :: 0 <= i < |views| && views[i].labels == key
  }

  /** A sample that says this of a bucket: its `le` is there and is a number. */
  predicate Tells(s: Sample<real>, b: Bucket, key: Key, name: string, num: string -> Option<Bound>) {
    && s.name == name + "_bucket" && s.labels - {"le"} == key
    && "le" in s.labels && num(s.labels["le"]) == Some(b.0) && s.value == b.1
  }

  ghost function Told(samples: seq<Sample<real>>, b: Bucket, key: Key, name: string, num: string -> Option<Bound>): nat {
    Count((s: Sample<real>) => Tells(s, b, key, name, num), samples)
  }

  predicate Gives(s: Sample<real>, full: string, key: Key) {
    s.name == full && s.labels == key
  }

  /** The value of the last sample of that name and label set, or zero without any. */
  predicate LastGiven(v: real, samples: seq<Sample<real>>, full: string, key: Key) {
    || (v == 0.0 && forall i :: 0 <= i < |samples| ==> !Gives(samples[i], full, key))
    || exists i :: 0 <= i < |samples| && Gives(samples[i], full, key) && samples[i].value == v
                   && forall j :: i < j < |samples| ==> !Gives(samples[j], full, key)
  }

  /** Everything the samples say of a label set: every legible bucket as often as it occurs, in order, and the last totals. */
  ghost predicate Faithful(v: View, samples: seq<Sample<real>>, name: string, num: string -> Option<Bound>) {
    && v.name == name && Sorted(v.buckets, BucketLe)
    && (forall b :: multiset(v.buckets)[b] == Told(samples, b, v.labels, name, num))
    && LastGiven(v.count, samples, name + "_count", v.labels)
    && LastGiven(v.sum, samples, name + "_sum", v.labels)
  }

  lemma {:induction false} BucketsTold(key: Key, samples: seq<Sample<real>>, name: string, num: string -> Option<Bound>, b: Bucket)
    ensures multiset(BucketsUnder(key, samples, name, num))[b] == Told(samples, b, key, name, num)
    decreases |samples|
  {
    if samples != [] {
      UnderCons(key, samples, name, num, name);
      BucketsTold(key, samples[1..], name, num, b);
    }
  }

  lemma {:induction false} LastUnder(key: Key, samples: seq<Sample<real>>, full: string)
    ensures LastGiven(OrZero(LastOr(ValuesUnder(key, samples, full), None)), samples, full, key)
    ensures ValuesUnder(key, samples, full) == [] <==> forall i :: 0 <= i < |samples| ==> !Gives(samples[i], full, key)
    decreases |samples|
  {
    if samples != [] {
      var rest, values := samples[1..], ValuesUnder(key, samples[1..], full);
      UnderCons(key, samples, full, (s: string) => None, full);
      LastUnder(key, rest, full);
      forall i | 0 <= i < |rest| ensures samples[i + 1] == rest[i] {}
      if values == [] {
        assert forall j :: 1 <= j < |samples| ==> samples[j] == rest[j - 1];
      } else {
        var i :| 0 <= i < |rest| && Gives(rest[i], full, key) && rest[i].value == values[|values| - 1]
                 && forall j :: i < j < |rest| ==> !Gives(rest[j], full, key);
        assert Gives(samples[i + 1], full, key);
        assert forall j :: i + 1 < j < |samples| ==> samples[j] == rest[j - 1];
      }
    }
  }

  /**
   * Of any samples, malformed ones among them, there is one view for each label set that occurs, and it
   * holds what the samples of that label set say: no bucket is merged, lost or invented.
   */
  lemma ViewsExactly(samples: seq<Sample<real>>, name: string, num: string -> Option<Bound>)
    ensures var views := Built(samples, name, num);
      && (forall i, j :: 0 <= i < j < |views| ==> views[i].labels != views[j].labels)
      && (forall key :: IsViewed(views, key) <==> Occurs(samples, name, key))
      && forall i :: 0 <= i < |views| ==> Faithful(views[i], samples, name, num)
  {
    var views := Built(samples, name, num);
    var order := BuiltViews(samples, name, num);
    forall i | 0 <= i < |views| ensures views[i].labels == order[i] && Faithful(views[i], samples, name, num) {
      var buckets := BucketsUnder(order[i], samples, name, num);
      BucketOrder();
      SortPermutes(buckets, BucketLe);
      SortSorts(buckets, BucketLe);
      forall b ensures multiset(buckets)[b] == Told(samples, b, order[i], name, num) {
        BucketsTold(order[i], samples, name, num, b);
      }
      LastUnder(order[i], samples, name + "_count");
      LastUnder(order[i], samples, name + "_sum");
    }
    forall key ensures IsViewed(views, key) <==> Occurs(samples, name, key) {
      ViewOfKey(samples, name, num, order, key);
    }
  }

  lemma ViewOfKey(samples: seq<Sample<real>>, name: string, num: string -> Option<Bound>, order: seq<Key>, key: Key)
    requires |Built(samples, name, num)| == |order|
    requires forall i :: 0 <= i < |order| ==> Built(samples, name, num)[i].labels == order[i]
    requires forall k :: k in order <==> exists i :: 0 <= i < |samples| && KeyOf(samples[i], name) == Some(k)
    ensures IsViewed(Built(samples, name, num), key) <==> Occurs(samples, name, key)
  {
    var views := Built(samples, name, num);
    if i :| 0 <= i < |views| && views[i].labels == key {
      assert order[i] == key && key in order;
      var j :| 0 <= j < |samples| && KeyOf(samples[j], name) == Some(key);
      KeyMeans(samples[j], name, key);
    }
    if i :| 0 <= i < |samples| && Labelled(samples[i], name, key) {
      KeyMeans(samples[i], name, key);
      assert key in order;
      var j :| 0 <= j < |order| && order[j] == key;
      assert views[j].labels == key;
    }
  }

  lemma KeyMeans(s: Sample<real>, name: string, key: Key)
    ensures KeyOf(s, name) == Some(key) <==> Labelled(s, name, key)
  {
    FlattenedName(name);
  }

  // ----- flattening -----------------------------------------------------------------

  /** One histogram as an exporter holds it. */
  datatype Series = Series(labels: map<string, string>, buckets: seq<Bucket>, count: real, sum: real)

  function BucketSample(h: Series, b: Bucket, name: string, show: Bound -> string): Sample<real> {
    Sample(name + "_bucket", h.labels["le" := show(b.0)], b.1)
  }

  function Flattened(h: Series, name: string, show: Bound -> string): seq<Sample<real>> {
    Map((b: Bucket) => BucketSample(h, b, name, show), h.buckets)
    + [Sample(name + "_count", h.labels, h.count), Sample(name + "_sum", h.labels, h.sum)]
  }

  function FlattenedAll(hs: seq<Series>, name: string, show: Bound -> string): seq<Sample<real>> {
    if hs == [] then [] else Flattened(hs[0], name, show) + FlattenedAll(hs[1..], name, show)
  }

  /** `num` reads back what `show` writes for these bounds; nothing is asked of other bounds. */
  predicate Shown(buckets: seq<Bucket>, num: string -> Option<Bound>, show: Bound -> string) {
    forall i :: 0 <= i < |buckets| ==> num(show(buckets[i].0)) == Some(buckets[i].0)
  }

  predicate Legible(hs: seq<Series>, num: string -> Option<Bound>, show: Bound -> string) {
    forall k :: 0 <= k < |hs| ==> Shown(hs[k].buckets, num, show)
  }

  /** Distinct label sets, none with a label of its own called `le`. */
  ghost predicate Separate(hs: seq<Series>) {
    && (forall i :: 0 <= i < |hs| ==> "le" !in hs[i].labels)
    && forall i, j :: 0 <= i < j < |hs| ==> hs[i].labels != hs[j].labels
  }

  ghost predicate Unrelated(others: seq<Sample<real>>, name: string) {
    forall i :: 0 <= i < |others| ==>
      others[i].name != name + "_bucket" && others[i].name != name + "_count" && others[i].name != name + "_sum"
  }

  lemma FlattenedName(name: string)
    ensures name + "_bucket" != name + "_count" && name + "_bucket" != name + "_sum" && name + "_count" != name + "_sum"
  {
    assert |name + "_bucket"| == |name| + 7 && |name + "_count"| == |name| + 6 && |name + "_sum"| == |name| + 4;
  }

  lemma {:induction false} MappedBuckets(key: Key, h: Series, buckets: seq<Bucket>, name: string, num: string -> Option<Bound>, show: Bound -> string)
    requires Shown(buckets, num, show) && "le" !in h.labels
    ensures BucketsUnder(key, Map((b: Bucket) => BucketSample(h, b, name, show), buckets), name, num)
         == if key == h.labels then buckets else []
  {
    if buckets != [] {
      var all := Map((b: Bucket) => BucketSample(h, b, name, show), buckets);
      assert all[1..] == Map((b: Bucket) => BucketSample(h, b, name, show), buckets[1..]);
      MappedBuckets(key, h, buckets[1..], name, num, show);
      UnderCons(key, all, name, num, name);
      assert h.labels["le" := show(buckets[0].0)] - {"le"} == h.labels;
    }
  }

  lemma {:induction false} NoneUnder<A, B>(f: A -> Option<B>, s: seq<A>)
    requires forall i :: 0 <= i < |s| ==> f(s[i]) == None
    ensures FilterMap(f, s) == []
  {
    if s != [] {
      NoneUnder(f, s[1..]);
    }
  }

  lemma UnderConcat(key: Key, a: seq<Sample<real>>, b: seq<Sample<real>>, name: string, num: string -> Option<Bound>, full: string)
    ensures BucketsUnder(key, a + b, name, num) == BucketsUnder(key, a, name, num) + BucketsUnder(key, b, name, num)
    ensures ValuesUnder(key, a + b, full) == ValuesUnder(key, a, full) + ValuesUnder(key, b, full)
  {
    FilterMapConcat((s: Sample<real>) => BucketUnder(key, s, name, num), a, b);
    FilterMapConcat((s: Sample<real>) => ValueUnder(key, s, full), a, b);
  }

  lemma NoBucketsUnder(key: Key, s: seq<Sample<real>>, name: string, num: string -> Option<Bound>)
    requires forall i :: 0 <= i < |s| ==> s[i].name != name + "_bucket"
    ensures BucketsUnder(key, s, name, num) == []
  {
    NoneUnder((s: Sample<real>) => BucketUnder(key, s, name, num), s);
  }

  lemma NoValuesUnder(key: Key, s: seq<Sample<real>>, full: string)
    requires forall i :: 0 <= i < |s| ==> s[i].name != full
    ensures ValuesUnder(key, s, full) == []
  {
    NoneUnder((s: Sample<real>) => ValueUnder(key, s, full), s);
  }

  lemma PairUnder(key: Key, c: Sample<real>, t: Sample<real>, full: string)
    ensures ValuesUnder(key, [c, t], full) == Listed(ValueUnder(key, c, full)) + Listed(ValueUnder(key, t, full))
  {
    assert [c, t][1..] == [t];
    UnderCons(key, [c, t], "", (s: string) => None, full);
    UnderCons(key, [t], "", (s: string) => None, full);
  }

  /** What one flattened series files under a label set. */
  lemma FlattenedUnder(key: Key, h: Series, name: string, num: string -> Option<Bound>, show: Bound -> string)
    requires Shown(h.buckets, num, show) && "le" !in h.labels
    ensures BucketsUnder(key, Flattened(h, name, show), name, num) == if key == h.labels then h.buckets else []
    ensures ValuesUnder(key, Flattened(h, name, show), name + "_count") == if key == h.labels then [h.count] else []
    ensures ValuesUnder(key, Flattened(h, name, show), name + "_sum") == if key == h.labels then [h.sum] else []
  {
    var front := Map((b: Bucket) => BucketSample(h, b, name, show), h.buckets);
    var count, sum := name + "_count", name + "_sum";
    var c, t := Sample(count, h.labels, h.count), Sample(sum, h.labels, h.sum);
    FlattenedName(name);
    MappedBuckets(key, h, h.buckets, name, num, show);
    NoBucketsUnder(key, [c, t], name, num);
    NoValuesUnder(key, front, count);
    NoValuesUnder(key, front, sum);
    UnderConcat(key, front, [c, t], name, num, count);
    UnderConcat(key, front, [c, t], name, num, sum);
    PairUnder(key, c, t, count);
    PairUnder(key, c, t, sum);
  }

  ghost predicate Holds(key: Key, all: seq<Sample<real>>, name: string, num: string -> Option<Bound>,
                        buckets: seq<Bucket>, counts: seq<real>, sums: seq<real>) {
    && BucketsUnder(key, all, name, num) == buckets
    && ValuesUnder(key, all, name + "_count") == counts
    && ValuesUnder(key, all, name + "_sum") == sums
  }

  lemma HoldsConcat(key: Key, a: seq<Sample<real>>, b: seq<Sample<real>>, name: string, num: string -> Option<Bound>,
                    b1: seq<Bucket>, c1: seq<real>, s1: seq<real>, b2: seq<Bucket>, c2: seq<real>, s2: seq<real>)
    requires Holds(key, a, name, num, b1, c1, s1) && Holds(key, b, name, num, b2, c2, s2)
    ensures Holds(key, a + b, name, num, b1 + b2, c1 + c2, s1 + s2)
  {
    UnderConcat(key, a, b, name, num, name + "_count");
    UnderConcat(key, a, b, name, num, name + "_sum");
  }

  /** No series with that label set, nothing. */
  lemma {:induction false} NothingUnder(key: Key, hs: seq<Series>, name: string, num: string -> Option<Bound>, show: Bound -> string)
    requires Legible(hs, num, show) && Separate(hs) && forall i :: 0 <= i < |hs| ==> hs[i].labels != key
    ensures Holds(key, FlattenedAll(hs, name, show), name, num, [], [], [])
    decreases |hs|
  {
    if hs != [] {
      NothingUnder(key, hs[1..], name, num, show);
      FlattenedUnder(key, hs[0], name, num, show);
      HoldsConcat(key, Flattened(hs[0], name, show), FlattenedAll(hs[1..], name, show), name, num, [], [], [], [], [], []);
    }
  }

  /** Only the series with that label set contributes. */
  lemma {:induction false} AllUnder(hs: seq<Series>, k: nat, name: string, num: string -> Option<Bound>, show: Bound -> string)
    requires Legible(hs, num, show) && Separate(hs) && k < |hs|
    ensures Holds(hs[k].labels, FlattenedAll(hs, name, show), name, num, hs[k].buckets, [hs[k].count], [hs[k].sum])
    decreases |hs|
  {
    var h, first, rest := hs[k], Flattened(hs[0], name, show), FlattenedAll(hs[1..], name, show);
    FlattenedUnder(h.labels, hs[0], name, num, show);
    if k == 0 {
      NothingUnder(h.labels, hs[1..], name, num, show);
      HoldsConcat(h.labels, first, rest, name, num, h.buckets, [h.count], [h.sum], [], [], []);
      assert h.buckets + [] == h.buckets && [h.count] + [] == [h.count] && [h.sum] + [] == [h.sum];
    } else {
      AllUnder(hs[1..], k - 1, name, num, show);
      HoldsConcat(h.labels, first, rest, name, num, [], [], [], h.buckets, [h.count], [h.sum]);
      assert [] + h.buckets == h.buckets && [] + [h.count] == [h.count] && [] + [h.sum] == [h.sum];
    }
  }

  // ----- any order, among unrelated samples --------------------------------------------

  lemma OthersUnder(key: Key, others: seq<Sample<real>>, name: string, num: string -> Option<Bound>)
    requires Unrelated(others, name)
    ensures Holds(key, others, name, num, [], [], [])
  {
    NoBucketsUnder(key, others, name, num);
    NoValuesUnder(key, others, name + "_count");
    NoValuesUnder(key, others, name + "_sum");
  }

  lemma SingletonPermuted(a: seq<real>, x: real)
    requires multiset(a) == multiset([x])
    ensures a == [x]
  {
    SameMultiset(a, [x]);
    assert a[0] in a;
  }

  /** Whatever the order of the samples, a series' view comes out whole. */
  lemma ExpectedView(samples: seq<Sample<real>>, hs: seq<Series>, others: seq<Sample<real>>, k: nat,
                     name: string, num: string -> Option<Bound>, show: Bound -> string)
    requires Legible(hs, num, show) && Separate(hs) && Unrelated(others, name) && k < |hs|
    requires multiset(samples) == multiset(FlattenedAll(hs, name, show) + others)
    ensures Expected(hs[k].labels, samples, name, num)
         == View(name, hs[k].labels, Sort(hs[k].buckets, BucketLe), hs[k].count, hs[k].sum)
  {
    var key := hs[k].labels;
    SampledUnder(samples, hs, others, k, name, num, show);
    BucketOrder();
    SortOrderFree(BucketsUnder(key, samples, name, num), hs[k].buckets, BucketLe);
  }

  lemma SampledUnder(samples: seq<Sample<real>>, hs: seq<Series>, others: seq<Sample<real>>, k: nat,
                     name: string, num: string -> Option<Bound>, show: Bound -> string)
    requires Legible(hs, num, show) && Separate(hs) && Unrelated(others, name) && k < |hs|
    requires multiset(samples) == multiset(FlattenedAll(hs, name, show) + others)
    ensures multiset(BucketsUnder(hs[k].labels, samples, name, num)) == multiset(hs[k].buckets)
    ensures ValuesUnder(hs[k].labels, samples, name + "_count") == [hs[k].count]
    ensures ValuesUnder(hs[k].labels, samples, name + "_sum") == [hs[k].sum]
  {
    var key, all := hs[k].labels, FlattenedAll(hs, name, show);
    AllUnder(hs, k, name, num, show);
    OthersUnder(key, others, name, num);
    MixedUnder(key, samples, all, others, name, num, name + "_count", hs[k].buckets, hs[k].count);
    MixedUnder(key, samples, all, others, name, num, name + "_sum", hs[k].buckets, hs[k].sum);
  }

  lemma MixedUnder(key: Key, samples: seq<Sample<real>>, all: seq<Sample<real>>, others: seq<Sample<real>>,
                   name: string, num: string -> Option<Bound>, full: string, buckets: seq<Bucket>, value: real)
    requires multiset(samples) == multiset(all + others)
    requires BucketsUnder(key, all, name, num) == buckets && BucketsUnder(key, others, name, num) == []
    requires ValuesUnder(key, all, full) == [value] && ValuesUnder(key, others, full) == []
    ensures multiset(BucketsUnder(key, samples, name, num)) == multiset(buckets)
    ensures ValuesUnder(key, samples, full) == [value]
  {
    UnderConcat(key, all, others, name, num, full);
    UnderPermuted(key, samples, all + others, name, num, full);
    assert buckets + [] == buckets && [value] + [] == [value];
    SingletonPermuted(ValuesUnder(key, samples, full), value);
  }

  lemma UnderPermuted(key: Key, a: seq<Sample<real>>, b: seq<Sample<real>>, name: string, num: string -> Option<Bound>, full: string)
    requires multiset(a) == multiset(b)
    ensures multiset(BucketsUnder(key, a, name, num)) == multiset(BucketsUnder(key, b, name, num))
    ensures multiset(ValuesUnder(key, a, full)) == multiset(ValuesUnder(key, b, full))
  {
    FilterMapPermuted((s: Sample<real>) => BucketUnder(key, s, name, num), a, b);
    FilterMapPermuted((s: Sample<real>) => ValueUnder(key, s, full), a, b);
  }

  predicate FiledUnder(samples: seq<Sample<real>>, name: string, key: Key) {
    exists i :: 0 <= i < |samples| && KeyOf(samples[i], name) == Some(key)
  }

  /** The label sets that occur are those of the series. */
  lemma {:induction false} FlattenedKeys(hs: seq<Series>, name: string, show: Bound -> string, s: Sample<real>, key: Key)
    requires Separate(hs)
    ensures s in FlattenedAll(hs, name, show) && KeyOf(s, name) == Some(key) ==> exists k :: 0 <= k < |hs| && hs[k].labels == key
    decreases |hs|
  {
    if hs != [] && s in FlattenedAll(hs, name, show) && KeyOf(s, name) == Some(key) {
      FlattenedName(name);
      if s in Flattened(hs[0], name, show) {
        var i :| 0 <= i < |Flattened(hs[0], name, show)| && Flattened(hs[0], name, show)[i] == s;
        if i < |hs[0].buckets| {
          assert hs[0].labels["le" := show(hs[0].buckets[i].0)] - {"le"} == hs[0].labels;
        }
        assert hs[0].labels == key;
      } else {
        FlattenedKeys(hs[1..], name, show, s, key);
        var k :| 0 <= k < |hs[1..]| && hs[1..][k].labels == key;
        assert hs[k + 1].labels == key;
      }
    }
  }

  lemma {:induction false} CountSampleThere(hs: seq<Series>, name: string, show: Bound -> string, k: nat)
    requires k < |hs|
    ensures Sample(name + "_count", hs[k].labels, hs[k].count) in FlattenedAll(hs, name, show)
    decreases k
  {
    if k == 0 {
      var f := Flattened(hs[0], name, show);
      assert f[|hs[0].buckets|] == Sample(name + "_count", hs[0].labels, hs[0].count);
      assert f[|hs[0].buckets|] in f;
    } else {
      CountSampleThere(hs[1..], name, show, k - 1);
    }
  }

  lemma CountFiles(samples: seq<Sample<real>>, c: Sample<real>, name: string)
    requires c in samples && c.name == name + "_count"
    ensures FiledUnder(samples, name, c.labels)
  {
    FlattenedName(name);
    var i :| 0 <= i < |samples| && samples[i] == c;
    assert KeyOf(samples[i], name) == Some(c.labels);
  }

  lemma KeysFiled(samples: seq<Sample<real>>, hs: seq<Series>, others: seq<Sample<real>>, name: string, show: Bound -> string, key: Key)
    requires Separate(hs) && Unrelated(others, name)
    requires multiset(samples) == multiset(FlattenedAll(hs, name, show) + others)
    ensures FiledUnder(samples, name, key) <==> exists k :: 0 <= k < |hs| && hs[k].labels == key
  {
    SameMultiset(samples, FlattenedAll(hs, name, show) + others);
    if FiledUnder(samples, name, key) {
      var i :| 0 <= i < |samples| && KeyOf(samples[i], name) == Some(key);
      var s := samples[i];
      assert s in samples;
      assert s in FlattenedAll(hs, name, show) + others;
      assert s !in others;
      FlattenedKeys(hs, name, show, s, key);
    }
    if k :| 0 <= k < |hs| && hs[k].labels == key {
      CountSampleThere(hs, name, show, k);
      var c := Sample(name + "_count", key, hs[k].count);
      assert c in FlattenedAll(hs, name, show) + others;
      CountFiles(samples, c, name);
    }
  }

  /** Two lists without repetition that have the same elements are permutations of one another. */
  lemma SameElements<A>(a: seq<A>, b: seq<A>)
    requires NoDuplicates(a) && NoDuplicates(b) && forall x :: x in a <==> x in b
    ensures multiset(a) == multiset(b)
  {
    forall x ensures multiset(a)[x] == multiset(b)[x] {
      Multiplicity(a, x);
      Multiplicity(b, x);
    }
  }

  lemma {:induction false} Multiplicity<A>(a: seq<A>, x: A)
    requires NoDuplicates(a)
    ensures multiset(a)[x] == if x in a then 1 else 0
  {
    if a != [] {
      assert a == [a[0]] + a[1..];
      Multiplicity(a[1..], x);
    }
  }

  function SeriesView(h: Series, name: string): View {
    View(name, h.labels, Sort(h.buckets, BucketLe), h.count, h.sum)
  }

  /**
   * Flattening and regrouping is the identity: from any arrangement of the samples of some
   * histograms, mixed with samples of other metrics, come exactly the views of those histograms,
   * one for each label set, with its buckets in order.
   */
  lemma Rebuilds(samples: seq<Sample<real>>, hs: seq<Series>, others: seq<Sample<real>>,
                 name: string, num: string -> Option<Bound>, show: Bound -> string)
    requires Legible(hs, num, show) && Separate(hs) && Unrelated(others, name)
    requires multiset(samples) == multiset(FlattenedAll(hs, name, show) + others)
    ensures multiset(Built(samples, name, num)) == multiset(Map(h => SeriesView(h, name), hs))
  {
    var built, wanted := Built(samples, name, num), Map(h => SeriesView(h, name), hs);
    var order := BuiltViews(samples, name, num);
    forall k | 0 <= k < |hs| ensures wanted[k] in built {
      KeysFiled(samples, hs, others, name, show, hs[k].labels);
      assert FiledUnder(samples, name, hs[k].labels);
      assert hs[k].labels in order;
      ExpectedView(samples, hs, others, k, name, num, show);
      var i :| 0 <= i < |order| && order[i] == hs[k].labels;
      assert built[i] == wanted[k];
    }
    forall i | 0 <= i < |built| ensures built[i] in wanted {
      assert order[i] in order;
      assert FiledUnder(samples, name, order[i]);
      KeysFiled(samples, hs, others, name, show, order[i]);
      var k :| 0 <= k < |hs| && hs[k].labels == order[i];
      ExpectedView(samples, hs, others, k, name, num, show);
      assert built[i] == wanted[k];
    }
    assert NoDuplicates(built) by {
      forall i, j | 0 <= i < j < |built| ensures built[i] != built[j] {
        assert built[i].labels == order[i] && built[j].labels == order[j];
      }
    }
    assert NoDuplicates(wanted) by {
      forall i, j | 0 <= i < j < |wanted| ensures wanted[i] != wanted[j] {
        assert wanted[i].labels == hs[i].labels && wanted[j].labels == hs[j].labels;
      }
    }
    SameElements(built, wanted);
  }
}
