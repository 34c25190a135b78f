/** The reconstructed in-flight peak (bench/report.py, `_client_peak_in_flight`): a scan of sorted events. */
module InFlightPeak {
  import opened Seqs
  import opened Sorting
  import opened Requests

  /** A send (+1) or a finish (-1) and when it happened. */
  type Event = (real, int)

  /** By time, a finish before a send at the same instant. */
  predicate EventLe(a: Event, b: Event) {
    a.0 < b.0 || (a.0 == b.0 && a.1 <= b.1)
  }

  lemma EventOrder()
    ensures TotalPreorder(EventLe) && Antisymmetric(EventLe)
  {}

  /** The events of the records that carry real send times. */
  function Events(records: seq<RequestRecord>): seq<Event> {
    if records == [] then []
    else if records[0].index < 0 then Events(records[1..])
    else [(records[0].sentAt, 1), (records[0].finishedAt, -1)] + Events(records[1..])
  }

  function Scan(events: seq<Event>, current: int, best: int): int {
    if events == [] then best
    else
      var now := current + events[0].1;
      Scan(events[1..], now, if now > best then now else best)
  }

  /** The recorded peak if there is one, else the scan, else nothing. */
  function ClientPeak(result: LoadResult): Option<int> {
    if result.peakInFlight != 0 then Some(result.peakInFlight)
    else
      var events := Events(result.records);
      if events == [] then None else Some(Scan(Sort(events, EventLe), 0, 0))
  }

  method ClientPeakInFlight(result: LoadResult) returns (peak: Option<int>)
    ensures peak == ClientPeak(result)
  {
    if result.peakInFlight != 0 {
      return Some(result.peakInFlight);
    }
    var events: seq<Event> := [];
    for i := 0 to |result.records|
      invariant Events(result.records) == events + Events(result.records[i..])
    {
      var r := result.records[i];
      assert result.records[i..][1..] == result.records[i + 1..];
      if r.index < 0 {
        continue;
      }
      events := events + [(r.sentAt, 1), (r.finishedAt, -1)];
    }
    assert events + [] == events;
    if events == [] {
      return None;
    }
    var ordered := Sort(events, EventLe);
    var current, best := 0, 0;
    for i := 0 to |ordered|
      invariant Scan(ordered, 0, 0) == Scan(ordered[i..], current, best)
    {
      assert ordered[i..][1..] == ordered[i + 1..];
      current := current + ordered[i].1;
      best := if current > best then current else best;
    }
    return Some(best);
  }

  // ----- what the scan computes ----------------------------------------------------

  /** Sends up to and including `t` less finishes up to and including `t`. */
  function Net(events: seq<Event>, t: real): int {
    Count((e: Event) => e.0 <= t && e.1 > 0, events) - Count((e: Event) => e.0 <= t && e.1 < 0, events)
  }

  ghost predicate Unit(events: seq<Event>) {
    forall i :: 0 <= i < |events| ==> events[i].1 == 1 || events[i].1 == -1
  }

  lemma NetCons(events: seq<Event>, t: real)
    requires events != [] && Unit(events)
    ensures Net(events, t) == (if events[0].0 <= t then events[0].1 else 0) + Net(events[1..], t)
  {}

  lemma {:induction false} NetBefore(events: seq<Event>, t: real)
    requires Unit(events) && forall i :: 0 <= i < |events| ==> t < events[i].0
    ensures Net(events, t) == 0
  {
    if events != [] {
      NetCons(events, t);
      NetBefore(events[1..], t);
    }
  }

  /** The scan is at least the balance at every instant. */
  lemma {:induction false} ScanAbove(events: seq<Event>, current: int, best: int, t: real)
    requires Sorted(events, EventLe) && Unit(events) && current <= best
    ensures current + Net(events, t) <= Scan(events, current, best)
    ensures best <= Scan(events, current, best)
    decreases |events|
  {
    if events != [] {
      var now := current + events[0].1;
      ScanAbove(events[1..], now, if now > best then now else best, t);
      NetCons(events, t);
      if t < events[0].0 {
        NetBefore(events, t);
      }
    }
  }

  /** Among events at the same instant as a send, sorted after it, there are only sends. */
  lemma {:induction false} SendsFollow(events: seq<Event>, t: real)
    requires Sorted(events, EventLe) && Unit(events)
    requires forall i :: 0 <= i < |events| ==> EventLe((t, 1), events[i])
    ensures Net(events, t) >= 0
    decreases |events|
  {
    if events != [] {
      NetCons(events, t);
      SendsFollow(events[1..], t);
    }
  }

  /** And it is the balance at some instant, unless it never rose above where it started. */
  lemma {:induction false} ScanReached(events: seq<Event>, current: int, best: int) returns (t: real)
    requires Sorted(events, EventLe) && Unit(events) && current <= best
    ensures Scan(events, current, best) == best || current + Net(events, t) == Scan(events, current, best)
    decreases |events|
  {
    t := 0.0;
    if events != [] {
      var now, peak := current + events[0].1, Scan(events, current, best);
      var next := if now > best then now else best;
      if peak != best {
        if peak == now {
          t := events[0].0;
          NetCons(events, t);
          ScanAbove(events, current, best, t);
          assert events[0] == (t, 1);
          forall i | 0 <= i < |events[1..]| ensures EventLe((t, 1), events[1..][i]) {
            assert EventLe(events[0], events[i + 1]);
          }
          SendsFollow(events[1..], t);
        } else {
          t := ScanReached(events[1..], now, next);
          NetCons(events, t);
          if t < events[0].0 {
            NetBefore(events[1..], t);
          }
        }
      }
    }
  }

  // ----- in terms of the records -----------------------------------------------------

  /** The record's request was outstanding at `t`. */
  predicate Outstanding(r: RequestRecord, t: real) {
    r.index >= 0 && r.sentAt <= t < r.finishedAt
  }

  /** How many requests were outstanding at `t`. */
  function Overlap(records: seq<RequestRecord>, t: real): nat {
    Count((r: RequestRecord) => Outstanding(r, t), records)
  }

  /** Clocks only move forward between a send and its finish. */
  ghost predicate Forward(records: seq<RequestRecord>) {
    forall i :: 0 <= i < |records| && records[i].index >= 0 ==> records[i].sentAt <= records[i].finishedAt
  }

  lemma {:induction false} EventsUnit(records: seq<RequestRecord>)
    ensures Unit(Events(records))
  {
    if records != [] {
      EventsUnit(records[1..]);
    }
  }

  lemma {:induction false} NetIsOverlap(records: seq<RequestRecord>, t: real)
    requires Forward(records)
    ensures Net(Events(records), t) == Overlap(records, t)
  {
    if records != [] {
      var r, rest := records[0], Events(records[1..]);
      NetIsOverlap(records[1..], t);
      EventsUnit(records);
      if r.index >= 0 {
        var all := Events(records);
        NetCons(all, t);
        assert all[1..] == [(r.finishedAt, -1)] + rest;
        NetCons(all[1..], t);
        assert all[1..][1..] == rest;
      }
    }
  }

  lemma NetPermuted(a: seq<Event>, b: seq<Event>, t: real)
    requires multiset(a) == multiset(b)
    ensures Net(a, t) == Net(b, t)
  {
    CountPermuted((e: Event) => e.0 <= t && e.1 > 0, a, b);
    CountPermuted((e: Event) => e.0 <= t && e.1 < 0, a, b);
  }

  ghost predicate IsPeakOverlap(records: seq<RequestRecord>, peak: int) {
    && (forall t: real :: Overlap(records, t) <= peak)
    && exists t: real :: Overlap(records, t) == peak
  }

  lemma {:induction false} BeforeEverything(records: seq<RequestRecord>) returns (t: real)
    ensures forall i :: 0 <= i < |records| ==> t < records[i].sentAt
  {
    t := 0.0;
    if records != [] {
      t := BeforeEverything(records[1..]);
      if records[0].sentAt <= t {
        t := records[0].sentAt - 1.0;
      }
    }
  }

  lemma {:induction false} NothingOutstanding(records: seq<RequestRecord>, t: real)
    requires forall i :: 0 <= i < |records| ==> t < records[i].sentAt
    ensures Overlap(records, t) == 0
  {
    if records != [] {
      NothingOutstanding(records[1..], t);
    }
  }

  /** The reconstruction is the most requests outstanding at any one instant, touching intervals apart. */
  lemma ReconstructedPeak(result: LoadResult)
    requires result.peakInFlight == 0 && Forward(result.records)
    ensures ClientPeak(result).None? <==> forall i :: 0 <= i < |result.records| ==> result.records[i].index < 0
    ensures ClientPeak(result).Some? ==> IsPeakOverlap(result.records, ClientPeak(result).value)
  {
    var records := result.records;
    NoEvents(records);
    if ClientPeak(result).Some? {
      var ordered := SortedEvents(records);
      var peak := Scan(ordered, 0, 0);
      forall t: real ensures Overlap(records, t) == Net(ordered, t) <= peak {
        NetIsOverlap(records, t);
        NetPermuted(ordered, Events(records), t);
        ScanAbove(ordered, 0, 0, t);
      }
      var at := ScanReached(ordered, 0, 0);
      if peak == 0 {
        var t := BeforeEverything(records);
        NothingOutstanding(records, t);
      } else {
        assert Overlap(records, at) == peak;
      }
    }
  }

  lemma SortedEvents(records: seq<RequestRecord>) returns (ordered: seq<Event>)
    ensures ordered == Sort(Events(records), EventLe)
    ensures Sorted(ordered, EventLe) && Unit(ordered) && multiset(ordered) == multiset(Events(records))
  {
    ordered := Sort(Events(records), EventLe);
    EventOrder();
    SortSorts(Events(records), EventLe);
    SortPermutes(Events(records), EventLe);
    SameMultiset(ordered, Events(records));
    EventsUnit(records);
    forall i | 0 <= i < |ordered| ensures ordered[i].1 == 1 || ordered[i].1 == -1 {
      assert ordered[i] in ordered;
      var j :| 0 <= j < |Events(records)| && Events(records)[j] == ordered[i];
    }
  }

  lemma {:induction false} NoEvents(records: seq<RequestRecord>)
    ensures Events(records) == [] <==> forall i :: 0 <= i < |records| ==> records[i].index < 0
  {
    if records != [] {
      NoEvents(records[1..]);
    }
  }
}
