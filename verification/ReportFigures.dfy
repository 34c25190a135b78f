/** What each figure of a summary counts, in terms of the fields of the records. */
module ReportFigures {
  import opened Seqs
  import opened OrderStatistics
  import opened Requests
  import opened Report
  import opened ReportProperties
  import RealMul

  // ----- one record --------------------------------------------------------------------

  function Late(r: RequestRecord): real {
    if r.sentAt > r.scheduledAt then r.sentAt - r.scheduledAt else 0.0
  }

  /** Its first token came within `t` of when the request was due. */
  predicate TokenBy(r: RequestRecord, t: real) {
    r.ttft.Some? && r.ttft.value + Late(r) <= t
  }

  function Times(t: real, n: nat): real {
    t * n as real
  }

  /** Its mean gap between tokens is above `t`. */
  predicate Slower(r: RequestRecord, t: real) {
    r.itl != [] && Sum(r.itl) > Times(t, |r.itl|)
  }

  function InTime(slo: ServiceLevel): RequestRecord -> bool {
    (r: RequestRecord) => r.ok && TokenBy(r, slo.ttft) && !Slower(r, slo.tpot)
  }

  lemma QuotientAtMost(sum: real, d: real, t: real)
    requires d > 0.0
    ensures sum / d <= t <==> sum <= t * d
  {
    var m := sum / d;
    assert m * d == sum;
    ProductAtMost(m, t, d);
  }

  lemma ProductAtMost(m: real, t: real, d: real)
    requires d > 0.0
    ensures m <= t <==> m * d <= t * d
  {
    if m <= t {
      RealMul.Monotone(m, t, d);
    } else {
      RealMul.StrictlyMonotone(t, m, d);
    }
  }

  lemma MeanAtMost(sum: real, n: nat, t: real)
    requires n > 0
    ensures sum / n as real <= t <==> sum <= Times(t, n)
  {
    QuotientAtMost(sum, n as real, t);
  }

  lemma MetIsInTime(r: RequestRecord, slo: ServiceLevel)
    ensures slo.MetBy(r) <==> InTime(slo)(r)
  {
    assert r.ttft.Some? ==> r.TtftFromSchedule().Some? && r.TtftFromSchedule().value == r.ttft.value + Late(r);
    if r.itl != [] {
      MeanAtMost(Sum(r.itl), |r.itl|, slo.tpot);
      assert r.Tpot() == Some(Sum(r.itl) / |r.itl| as real);
    }
  }

  // ----- the counts and rates ----------------------------------------------------------

  lemma {:induction false} CountSame(p: RequestRecord -> bool, q: RequestRecord -> bool, s: seq<RequestRecord>)
    requires forall r :: r in s ==> p(r) == q(r)
    ensures Count(p, s) == Count(q, s)
  {
    if s != [] {
      CountSame(p, q, s[1..]);
    }
  }

  function GoodBy(slo: ServiceLevel, w: real): RequestRecord -> bool {
    (r: RequestRecord) => InTime(slo)(r) && r.finishedAt <= w
  }

  function OkBy(w: real): RequestRecord -> bool {
    (r: RequestRecord) => r.ok && r.finishedAt <= w
  }

  /** The time that rates are taken over: to the last arrival, or to the end where that is no time. */
  predicate IsWindow(result: LoadResult, w: real) {
    var offsets := result.schedule.offsets;
    if offsets != [] && offsets[|offsets| - 1] != 0.0 then w == offsets[|offsets| - 1]
    else if result.wallClock != 0.0 then w == result.wallClock
    else w == 0.000000001
  }

  /** Tokens of the answers that came back by `w`. */
  function TokensBy(records: seq<RequestRecord>, w: real): int {
    if records == [] then 0
    else
      (if records[0].ok && records[0].finishedAt <= w then Produced(records[0]) else 0) + TokensBy(records[1..], w)
  }

  /** What the server reported, or one for the first token and one for each gap. */
  function Produced(r: RequestRecord): int {
    if r.completionTokens.Some? then r.completionTokens.value else |r.itl| + (if r.ttft.Some? then 1 else 0)
  }

  lemma {:induction false} TokensAre(records: seq<RequestRecord>, w: real)
    ensures Tokens(InWindow(Filter((r: RequestRecord) => r.ok, records), w)) == TokensBy(records, w)
  {
    if records != [] {
      TokensAre(records[1..], w);
      var r, rest := records[0], Filter((r: RequestRecord) => r.ok, records[1..]);
      if r.ok {
        assert ([r] + rest)[1..] == rest;
        if r.finishedAt <= w {
          assert ([r] + InWindow(rest, w))[1..] == InWindow(rest, w);
        }
      }
    }
  }

  lemma OkCounts(records: seq<RequestRecord>)
    ensures |Filter((r: RequestRecord) => r.ok, records)| == Count((r: RequestRecord) => r.ok, records)
    ensures |Filter((r: RequestRecord) => !r.ok, records)| == Count((r: RequestRecord) => !r.ok, records)
  {
    FilterElements((r: RequestRecord) => r.ok, records);
    FilterElements((r: RequestRecord) => !r.ok, records);
  }

  /** How many were sent, came back, failed, and met the level. */
  lemma CountsMean(result: LoadResult, slo: ServiceLevel)
    ensures var s := Summarise(result, slo);
      && s.sent == |result.records|
      && s.completed == Count((r: RequestRecord) => r.ok, result.records)
      && s.failed == Count((r: RequestRecord) => !r.ok, result.records)
      && s.metSlo == Count(InTime(slo), result.records)
  {
    OkCounts(result.records);
    RatesCountRequests(result, slo);
    forall r | r in result.records ensures slo.MetBy(r) == InTime(slo)(r) {
      MetIsInTime(r, slo);
    }
    CountSame((r: RequestRecord) => slo.MetBy(r), InTime(slo), result.records);
  }

  lemma GoodAreGood(records: seq<RequestRecord>, slo: ServiceLevel, w: real)
    ensures Count(GoodInWindow(slo, w), records) == Count(GoodBy(slo, w), records)
    ensures Count(BackInWindow(w), records) == Count(OkBy(w), records)
  {
    forall r | r in records ensures GoodInWindow(slo, w)(r) == GoodBy(slo, w)(r) {
      MetIsInTime(r, slo);
    }
    CountSame(GoodInWindow(slo, w), GoodBy(slo, w), records);
    CountSame(BackInWindow(w), OkBy(w), records);
  }

  /** `rate` for the time `w` makes `amount`. */
  predicate PerWindow(rate: real, w: real, amount: real) {
    rate * w == amount
  }

  /** What happened within the window, per second of it. */
  lemma RatesMean(result: LoadResult, slo: ServiceLevel, w: real)
    requires IsWindow(result, w)
    ensures var s := Summarise(result, slo);
      && w != 0.0
      && PerWindow(s.completedRate, w, Count(OkBy(w), result.records) as real)
      && PerWindow(s.goodput, w, Count(GoodBy(slo, w), result.records) as real)
      && PerWindow(s.tokensPerSecond, w, TokensBy(result.records, w) as real)
      && PerWindow(s.drainOvershoot, w, s.wallClock)
  {
    var s := Summarise(result, slo);
    var back, good, tokens := Count(OkBy(w), result.records), Count(GoodBy(slo, w), result.records), TokensBy(result.records, w);
    RatesAre(result, slo, w);
    GoodAreGood(result.records, slo, w);
    TokensAre(result.records, w);
    RatesBack(s.completedRate, s.goodput, s.tokensPerSecond, s.drainOvershoot, back, good, tokens, s.wallClock, w);
  }

  lemma RatesBack(completed: real, goodput: real, tps: real, drain: real, back: nat, good: nat, tokens: int, wall: real, w: real)
    requires w != 0.0 && completed == back as real / w && goodput == good as real / w && tps == tokens as real / w && drain == wall / w
    ensures PerWindow(completed, w, back as real) && PerWindow(goodput, w, good as real)
    ensures PerWindow(tps, w, tokens as real) && PerWindow(drain, w, wall)
  {
    Back(back as real, w);
    Back(good as real, w);
    Back(tokens as real, w);
    Back(wall, w);
  }

  lemma Back(x: real, w: real)
    requires w != 0.0
    ensures (x / w) * w == x
  {}

  lemma RatesAre(result: LoadResult, slo: ServiceLevel, w: real)
    requires IsWindow(result, w)
    ensures var s := Summarise(result, slo);
      && w != 0.0 && s.wallClock == Wall(result) && s.drainOvershoot == Wall(result) / w
      && s.completedRate == Count(BackInWindow(w), result.records) as real / w
      && s.goodput == Count(GoodInWindow(slo, w), result.records) as real / w
      && s.tokensPerSecond == Tokens(InWindow(result.Completed(), w)) as real / w
  {
    assert w == Window(result);
    RatesCountRequests(result, slo);
  }

  /** The rate asked for, the rate there was, and how long the run took. */
  lemma RunFiguresMean(result: LoadResult, slo: ServiceLevel)
    ensures var s, offsets := Summarise(result, slo), result.schedule.offsets;
      && s.requestedRate == result.schedule.rate
      && (if offsets != [] && offsets[|offsets| - 1] > 0.0
          then PerWindow(s.offeredRate, offsets[|offsets| - 1], |offsets| as real)
          else s.offeredRate == 0.0)
      && s.wallClock == (if result.wallClock == 0.0 then 0.000000001 else result.wallClock)
  {
    AchievedMeans(result.schedule);
    OfferedIs(result, slo);
  }

  lemma OfferedIs(result: LoadResult, slo: ServiceLevel)
    ensures Summarise(result, slo).offeredRate == result.schedule.AchievedRate()
  {}

  lemma AchievedMeans(schedule: ArrivalSchedule)
    ensures var offsets := schedule.offsets;
      if offsets != [] && offsets[|offsets| - 1] > 0.0
      then PerWindow(schedule.AchievedRate(), offsets[|offsets| - 1], |offsets| as real)
      else schedule.AchievedRate() == 0.0
  {
    var offsets := schedule.offsets;
    if offsets != [] && offsets[|offsets| - 1] > 0.0 {
      Back(|offsets| as real, offsets[|offsets| - 1]);
    }
  }

  /** The most that any request was sent late, 0 without requests. */
  lemma LagMeans(result: LoadResult, slo: ServiceLevel)
    ensures var s := Summarise(result, slo);
      && (forall k :: 0 <= k < |result.records| ==> 0.0 <= Late(result.records[k]) <= s.maxScheduleLag)
      && (s.maxScheduleLag == 0.0 || exists k :: 0 <= k < |result.records| && Late(result.records[k]) == s.maxScheduleLag)
  {
    var s := Summarise(result, slo);
    LatesAre(result.records);
    assert s.maxScheduleLag == MaxLag(result.records);
  }

  lemma LatesAre(records: seq<RequestRecord>)
    ensures forall k :: 0 <= k < |records| ==> 0.0 <= Late(records[k]) <= MaxLag(records)
    ensures MaxLag(records) == 0.0 || exists k :: 0 <= k < |records| && Late(records[k]) == MaxLag(records)
  {
    forall k | 0 <= k < |records| ensures Late(records[k]) == records[k].ScheduleLag() {}
    if MaxLag(records) != 0.0 {
      var k :| 0 <= k < |records| && records[k].ScheduleLag() == MaxLag(records);
      assert Late(records[k]) == MaxLag(records);
    }
  }

  // ----- health ------------------------------------------------------------------------

  /** A step is healthy exactly when something was sent and at least 19 of every 20 requests met the level. */
  lemma HealthyExactly(result: LoadResult, slo: ServiceLevel)
    ensures Summarise(result, slo).Healthy() <==>
      result.records != [] && 20 * Count(InTime(slo), result.records) >= 19 * |result.records|
  {
    var s := Summarise(result, slo);
    CountsMean(result, slo);
    KeepingUpIsImplied(result, slo);
    if s.sent > 0 {
      PartAtLeast(s.metSlo, s.sent, KEEPING_UP);
    }
  }

  /** The generator and the server kept up when at least 19 of every 20 requests came back, or nothing was sent. */
  lemma KeepingUpExactly(result: LoadResult, slo: ServiceLevel)
    ensures Summarise(result, slo).KeepingUp() <==> 20 * Count((r: RequestRecord) => r.ok, result.records) >= 19 * |result.records|
  {
    var s := Summarise(result, slo);
    CountsMean(result, slo);
    if s.sent > 0 {
      PartAtLeast(s.completed, s.sent, KEEPING_UP);
    } else {
      CountNone((r: RequestRecord) => r.ok, result.records);
    }
  }

  /** The attainment is the share of everything sent that met the level, 0 of nothing. */
  lemma AttainmentMeans(result: LoadResult, slo: ServiceLevel)
    ensures var s := Summarise(result, slo);
      if result.records == [] then s.Attainment() == 0.0
      else PerWindow(s.Attainment(), |result.records| as real, Count(InTime(slo), result.records) as real)
  {
    CountsMean(result, slo);
    AttainmentOf(Summarise(result, slo));
  }

  lemma AttainmentOf(s: StepSummary)
    ensures if s.sent == 0 then s.Attainment() == 0.0 else PerWindow(s.Attainment(), s.sent as real, s.metSlo as real)
  {
    if s.sent > 0 {
      Back(s.metSlo as real, s.sent as real);
    }
  }

  function Slow(t: real): RequestRecord -> bool {
    (r: RequestRecord) => Slower(r, t)
  }

  function Tardy(t: real): RequestRecord -> bool {
    (r: RequestRecord) => !r.ok || !TokenBy(r, t)
  }

  lemma {:induction false} CountApart(p: RequestRecord -> bool, q: RequestRecord -> bool, s: seq<RequestRecord>)
    requires forall r :: r in s && p(r) ==> !q(r)
    ensures Count(p, s) + Count(q, s) <= |s|
  {
    if s != [] {
      CountApart(p, q, s[1..]);
    }
  }

  /** In a healthy step at most one request in twenty had gaps above the target, and at most one came late or not at all. */
  lemma HealthyIsFast(result: LoadResult, slo: ServiceLevel)
    requires Summarise(result, slo).Healthy()
    ensures 20 * Count(Slow(slo.tpot), result.records) <= |result.records|
    ensures 20 * Count(Tardy(slo.ttft), result.records) <= |result.records|
  {
    HealthyExactly(result, slo);
    CountApart(InTime(slo), Slow(slo.tpot), result.records);
    CountApart(InTime(slo), Tardy(slo.ttft), result.records);
  }

  // ----- the percentiles ---------------------------------------------------------------

  /** At least `pct` in a hundred of `n`. */
  predicate Covers(within: nat, pct: nat, n: nat) {
    100 * within >= pct * n
  }

  lemma CoversShare(within: nat, pct: nat, n: nat)
    ensures within as real >= Share(pct as real, n) <==> Covers(within, pct, n)
  {
    var f := Fraction(pct as real);
    assert f * 100.0 == pct as real;
    assert (f * n as real) * 100.0 == (pct * n) as real;
  }

  /** The nearest-rank percentile is at most `t` exactly when that share of the values is. */
  lemma NearestRank(x: Option<real>, values: seq<real>, pct: nat, p: real, t: real, within: nat, n: nat)
    requires 0 < pct <= 100 && values != []
    requires x == Percentile(values, p) && p == pct as real && within == AtMost(values, t) && n == |values|
    ensures x.Some? && (x.value <= t <==> Covers(within, pct, n))
  {
    PercentileBelow(values, p, t);
    CoversShare(within, pct, n);
  }

  function SpentBy(t: real): RequestRecord -> bool {
    (r: RequestRecord) => r.ok && r.e2e + Late(r) <= t
  }

  lemma {:induction false} SpentCount(records: seq<RequestRecord>, t: real)
    ensures AtMost(E2es(Filter((r: RequestRecord) => r.ok, records)), t) == Count(SpentBy(t), records)
  {
    if records != [] {
      SpentCount(records[1..], t);
      var rest := Filter((r: RequestRecord) => r.ok, records[1..]);
      if records[0].ok {
        assert E2es([records[0]] + rest) == [records[0].E2eFromSchedule()] + E2es(rest);
        assert ([records[0].E2eFromSchedule()] + E2es(rest))[1..] == E2es(rest);
      }
    }
  }

  /** p50 and p99 of the time to the last token, from when each answered request was due. */
  lemma EndToEndMeans(result: LoadResult, slo: ServiceLevel, t: real)
    requires Count((r: RequestRecord) => r.ok, result.records) > 0
    ensures var s, n, within := Summarise(result, slo), Count((r: RequestRecord) => r.ok, result.records), Count(SpentBy(t), result.records);
      && s.e2eP50.Some? && (s.e2eP50.value <= t <==> Covers(within, 50, n))
      && s.e2eP99.Some? && (s.e2eP99.value <= t <==> Covers(within, 99, n))
  {
    var s, n, within := Summarise(result, slo), Count((r: RequestRecord) => r.ok, result.records), Count(SpentBy(t), result.records);
    var e2es := E2es(result.Completed());
    OkCounts(result.records);
    SpentCount(result.records, t);
    NearestRank(s.e2eP50, e2es, 50, 50.0, t, within, n);
    NearestRank(s.e2eP99, e2es, 99, 99.0, t, within, n);
  }

  function Gapped(r: RequestRecord): bool {
    r.ok && r.itl != []
  }

  function GapsBy(t: real): RequestRecord -> bool {
    (r: RequestRecord) => Gapped(r) && !Slower(r, t)
  }

  lemma {:induction false} GapsCount(records: seq<RequestRecord>, t: real)
    ensures var tpots := Tpots(Filter((r: RequestRecord) => r.ok, records));
      |tpots| == Count(Gapped, records) && AtMost(tpots, t) == Count(GapsBy(t), records)
  {
    if records != [] {
      GapsCount(records[1..], t);
      var r, rest := records[0], Filter((r: RequestRecord) => r.ok, records[1..]);
      if r.ok {
        assert ([r] + rest)[1..] == rest;
        if r.itl != [] {
          MeanAtMost(Sum(r.itl), |r.itl|, t);
          assert Tpots([r] + rest) == [Sum(r.itl) / |r.itl| as real] + Tpots(rest);
          assert ([Sum(r.itl) / |r.itl| as real] + Tpots(rest))[1..] == Tpots(rest);
        }
      }
    }
  }

  /** p50 and p99 of the mean gap between tokens, of the answers that have gaps. */
  lemma GapsMean(result: LoadResult, slo: ServiceLevel, t: real)
    requires Count(Gapped, result.records) > 0
    ensures var s, n, within := Summarise(result, slo), Count(Gapped, result.records), Count(GapsBy(t), result.records);
      && s.tpotP50.Some? && (s.tpotP50.value <= t <==> Covers(within, 50, n))
      && s.tpotP99.Some? && (s.tpotP99.value <= t <==> Covers(within, 99, n))
  {
    var s, n, within := Summarise(result, slo), Count(Gapped, result.records), Count(GapsBy(t), result.records);
    var tpots := Tpots(result.Completed());
    GapsCount(result.records, t);
    NearestRank(s.tpotP50, tpots, 50, 50.0, t, within, n);
    NearestRank(s.tpotP99, tpots, 99, 99.0, t, within, n);
  }

  function Spoke(r: RequestRecord): bool {
    r.ok && r.ttft.Some?
  }

  function SpokeBy(t: real): RequestRecord -> bool {
    (r: RequestRecord) => r.ok && TokenBy(r, t)
  }

  function SpokeAfterSendBy(t: real): RequestRecord -> bool {
    (r: RequestRecord) => Spoke(r) && r.ttft.value <= t
  }

  lemma {:induction false} SpokeCount(records: seq<RequestRecord>, t: real)
    ensures var ok := Filter((r: RequestRecord) => r.ok, records);
      && |Ttfts(ok)| == |TtftsSend(ok)| == Count(Spoke, records)
      && AtMost(Ttfts(ok), t) == Count(SpokeBy(t), records) && AtMost(TtftsSend(ok), t) == Count(SpokeAfterSendBy(t), records)
  {
    if records != [] {
      SpokeCount(records[1..], t);
      var r, rest := records[0], Filter((r: RequestRecord) => r.ok, records[1..]);
      if r.ok {
        TtftsCons(r, rest, t);
        assert ([r] + rest)[1..] == rest;
        if r.ttft.Some? {
          assert TtftsSend([r] + rest) == [r.ttft.value] + TtftsSend(rest);
          assert ([r.ttft.value] + TtftsSend(rest))[1..] == TtftsSend(rest);
        }
      }
    }
  }

  /** p50 to p99 of the time to the first token, from when each request was due. */
  lemma FirstTokenMeans(result: LoadResult, slo: ServiceLevel, t: real)
    requires Count(Spoke, result.records) > 0
    ensures var s, n, within := Summarise(result, slo), Count(Spoke, result.records), Count(SpokeBy(t), result.records);
      && s.ttftP50.Some? && (s.ttftP50.value <= t <==> Covers(within, 50, n))
      && s.ttftP90.Some? && (s.ttftP90.value <= t <==> Covers(within, 90, n))
      && s.ttftP95.Some? && (s.ttftP95.value <= t <==> Covers(within, 95, n))
      && s.ttftP99.Some? && (s.ttftP99.value <= t <==> Covers(within, 99, n))
  {
    var s, n, within := Summarise(result, slo), Count(Spoke, result.records), Count(SpokeBy(t), result.records);
    var ttfts := Ttfts(result.Completed());
    SpokeCount(result.records, t);
    NearestRank(s.ttftP50, ttfts, 50, 50.0, t, within, n);
    NearestRank(s.ttftP90, ttfts, 90, 90.0, t, within, n);
    NearestRank(s.ttftP95, ttfts, 95, 95.0, t, within, n);
    NearestRank(s.ttftP99, ttfts, 99, 99.0, t, within, n);
  }

  /** And p99 from when each was sent. */
  lemma SendClockMeans(result: LoadResult, slo: ServiceLevel, t: real)
    requires Count(Spoke, result.records) > 0
    ensures var s, n, within := Summarise(result, slo), Count(Spoke, result.records), Count(SpokeAfterSendBy(t), result.records);
      s.ttftP99SendClock.Some? && (s.ttftP99SendClock.value <= t <==> Covers(within, 99, n))
  {
    var s, n, within := Summarise(result, slo), Count(Spoke, result.records), Count(SpokeAfterSendBy(t), result.records);
    SpokeCount(result.records, t);
    NearestRank(s.ttftP99SendClock, TtftsSend(result.Completed()), 99, 99.0, t, within, n);
  }
}
