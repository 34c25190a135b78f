/** One request as the load generator records it, and the run it belongs to (bench/load.py, bench/arrivals.py). */
module Requests {
  import opened Seqs

  datatype RequestRecord = RequestRecord(
    index: int,
    scheduledAt: real,
    sentAt: real,
    finishedAt: real,
    ttft: Option<real>,
    e2e: real,
    itl: seq<real>,
    ok: bool,
    error: Option<string>,
    statusCode: Option<int>,
    promptTokens: Option<int>,
    completionTokens: Option<int>)
  {
    /** How late the generator was. */
    function ScheduleLag(): real {
      if sentAt > scheduledAt then sentAt - scheduledAt else 0.0
    }

    /** What the user waited for a first token, the generator's lateness included. */
    function TtftFromSchedule(): Option<real> {
      match ttft case None => None case Some(t) => Some(t + ScheduleLag())
    }

    function E2eFromSchedule(): real {
      e2e + ScheduleLag()
    }

    /** Mean gap between tokens, where there is one. */
    function Tpot(): Option<real> {
      if itl == [] then None else Some(Sum(itl) / |itl| as real)
    }

    function OutputTokens(): int {
      match completionTokens
      case Some(n) => n
      case None => |itl| + (if ttft.Some? then 1 else 0)
    }
  }

  /** When to send each request, in seconds after the start, and the rate that was asked for. */
  datatype ArrivalSchedule = ArrivalSchedule(offsets: seq<real>, rate: real) {
    function Duration(): real {
      if offsets == [] then 0.0 else offsets[|offsets| - 1]
    }

    function AchievedRate(): real {
      if Duration() > 0.0 then |offsets| as real / Duration() else 0.0
    }

    /** What both generators produce: positive offsets, never decreasing. */
    ghost predicate Valid() {
      && (forall i :: 0 <= i < |offsets| ==> 0.0 < offsets[i])
      && forall i, j :: 0 <= i <= j < |offsets| ==> offsets[i] <= offsets[j]
    }
  }

  datatype LoadResult = LoadResult(
    schedule: ArrivalSchedule,
    records: seq<RequestRecord>,
    wallClock: real,
    peakInFlight: nat)
  {
    function Completed(): seq<RequestRecord> {
      Filter((r: RequestRecord) => r.ok, records)
    }

    function Failed(): seq<RequestRecord> {
      Filter((r: RequestRecord) => !r.ok, records)
    }

    /** The largest lag of any record, 0 with no records. */
    function MaxScheduleLag(): real {
      MaxLag(records)
    }
  }

  function MaxLag(records: seq<RequestRecord>): (m: real)
    ensures 0.0 <= m && forall i :: 0 <= i < |records| ==> records[i].ScheduleLag() <= m
    ensures m == 0.0 || exists i :: 0 <= i < |records| && records[i].ScheduleLag() == m
  {
    if records == [] then 0.0
    else
      var m := MaxLag(records[1..]);
      if records[0].ScheduleLag() > m then records[0].ScheduleLag() else m
  }
}
