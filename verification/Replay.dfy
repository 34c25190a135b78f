/**
 * Reading a finished run back (bench/records.py) and judging it again. Rounding to the file's
 * precision is left out, so a row holds exactly what `RequestRecord.to_dict` computed.
 */
module Replay {
  import opened Seqs
  import opened Sorting
  import opened Text
  import opened Requests
  import opened OpenLoop
  import opened Report
  import opened ReportProperties

  /** The fields of a line that are read back. */
  datatype Row = Row(
    index: int,
    scheduledAt: real,
    sentAt: real,
    finishedAt: real,
    ttft: Option<real>,
    tpot: Option<real>,
    e2e: real,
    outputTokens: int,
    promptTokens: Option<int>,
    ok: bool,
    error: Option<string>,
    statusCode: Option<int>)

  function ToRow(r: RequestRecord): Row {
    Row(r.index, r.scheduledAt, r.sentAt, r.finishedAt, r.ttft, r.Tpot(), r.e2e, r.OutputTokens(), r.promptTokens,
        r.ok, r.error, r.statusCode)
  }

  /** The gaps between tokens were not written: one gap of the mean stands for them. */
  function FromRow(row: Row): RequestRecord {
    RequestRecord(row.index, row.scheduledAt, row.sentAt, row.finishedAt, row.ttft, row.e2e,
                  if row.tpot.None? then [] else [row.tpot.value], row.ok, row.error, row.statusCode, row.promptTokens,
                  Some(row.outputTokens))
  }

  function Due(records: seq<RequestRecord>): seq<real> {
    Map((r: RequestRecord) => r.scheduledAt, records)
  }

  function Ends(records: seq<RequestRecord>): seq<real> {
    Map((r: RequestRecord) => r.finishedAt, records)
  }

  function Rebuilt(records: seq<RequestRecord>): LoadResult {
    var offsets := Due(records);
    var duration := MaxOf(offsets);
    var rate := if duration == 0.0 then 0.0 else |offsets| as real / duration;
    LoadResult(ArrivalSchedule(offsets, rate), records, MaxOf(Ends(records)), 0)
  }

  function Loaded(rows: seq<Row>): LoadResult {
    Rebuilt(Sort(Map(FromRow, rows), IndexLe))
  }

  method LoadStep(rows: seq<Row>) returns (result: LoadResult)
    ensures result == Loaded(rows)
  {
    var records: seq<RequestRecord> := [];
    for i := 0 to |rows|
      invariant records == Map(FromRow, rows[..i])
    {
      records := records + [FromRow(rows[i])];
    }
    assert rows[..|rows|] == rows;
    records := Sort(records, IndexLe);
    var offsets := Due(records);
    var duration := MaxOf(offsets);
    var rate := if duration == 0.0 then 0.0 else |offsets| as real / duration;
    result := LoadResult(ArrivalSchedule(offsets, rate), records, MaxOf(Ends(records)), 0);
  }

  /** What `_write_records` writes for a step. */
  function Written(result: LoadResult): seq<Row> {
    Map(ToRow, result.records)
  }

  function LoadSweep(files: seq<seq<Row>>): seq<LoadResult> {
    Sort(Map(Loaded, files), AchievedLe)
  }

  function Reanalyse(files: seq<seq<Row>>, slo: ServiceLevel): seq<StepSummary> {
    Summaries(LoadSweep(files), slo)
  }

  // ----- the records directory -------------------------------------------------------------

  datatype Named<T> = Named(name: string, item: T)

  /** A directory as it is listed, by name; a file replaces one of the same name. */
  function Put<T>(dir: seq<Named<T>>, file: Named<T>): seq<Named<T>> {
    if dir == [] then [file]
    else if file.name == dir[0].name then [file] + dir[1..]
    else if NameLe(file.name, dir[0].name) then [file] + dir
    else [dir[0]] + Put(dir[1..], file)
  }

  function PutAll<T>(files: seq<Named<T>>, dir: seq<Named<T>>): seq<Named<T>> {
    if files == [] then dir else PutAll(files[1..], Put(dir, files[0]))
  }

  function Items<T>(dir: seq<Named<T>>): seq<T> {
    Map((file: Named<T>) => file.item, dir)
  }

  /** What a sweep leaves behind; `name` is the file name that a requested rate is formatted to. */
  function Directory(results: seq<LoadResult>, name: real -> string): seq<Named<seq<Row>>> {
    PutAll(Map((r: LoadResult) => Named(name(r.schedule.rate), Written(r)), results), [])
  }

  /** Nothing where there are no files, which the source raises an error for. */
  function ReanalyseDirectory(dir: seq<Named<seq<Row>>>, slo: ServiceLevel): Option<seq<StepSummary>> {
    if dir == [] then None else Some(Reanalyse(Items(dir), slo))
  }
}
