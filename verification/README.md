# InferStack, modelled in Dafny

InferStack serves a language model behind a gateway and measures it. This project models the four
parts of it that make strong promises, and proves them:

- **The admission protocol of the gateway** (`Admission`, `AdmissionSafety`, `AdmissionDiagram`,
  `AdmissionRecords`): a fixed number of slots, a bounded wait, streams that keep their slot after their
  handler has returned.
- **Reading Prometheus metrics** (`Exposition`, `ExpositionGrammar`, `ExpositionRoundTrip`, `Quantiles`,
  `QuantileProperties`, `HistogramAccuracy`, `Histograms`, `HistogramRebuild`, `HistogramWindows`,
  `Scrapes`): the text parser against a grammar and a printer for the format, the regrouping of samples
  into histograms, interpolated quantiles against the true order statistics, and windows between scrapes.
- **The benchmark and its analysis** (`OpenLoop`, `OpenLoopProperties`, `Requests`, `InFlightPeak`,
  `OrderStatistics`, `Report`, `ReportProperties`, `ReportFigures`, `RunExamples`, `Ladder`, `Replay`,
  `ReplayProperties`, `Reanalysis`, `Tuning`, `TuningProperties`, `Variants`, `VariantProperties`,
  `VariantDirectories`): the open-loop runner with concurrent tasks, the summaries, the capacity verdict,
  stopping early, replay from files, the Pareto frontier, variant specs.
- **The budgeted session** (`Session`, `SessionProperties`): admission of variants by estimate with a
  reserved final repeat.

`Seqs`, `Sorting`, `RealMul` and `Text` hold the sequence, sorting, real-number and string operations
that these share.

Concurrency is modelled as the event loop runs it. Each uninterrupted stretch of a coroutine, from one
suspension to the next, is one method of a class (`Admission.Gateway`, `OpenLoop.Runner`) and one event
of a transition function (`Step`); each method is proved to do to the whole state what its event does,
and the safety lemmas are about `Run`, that is about every sequence of events. Parsing and analysis
loops are methods proved equal to recursive functions, and the lemmas are about those functions.

Times, rates and counts are exact reals. What comes from outside is a parameter: clock readings and
answers are in the events (`OpenLoop`) or turns (`Session`), `float()` and its inverse are functions
assumed to be inverse to each other on the values that a round trip writes, and on no others, and `EngineConfig`'s fields are a set.
`asyncio.Semaphore` is CPython's: `locked` is true while anyone not cancelled is in line, waiters queue in
order, a permit is taken when a waiter is woken and not when it resumes, and every wait ends by waking as
many waiters as there are free permits. `asyncio.wait_for` with a positive
timeout runs the acquisition in the calling task; an outer cancellation wins over a timeout.

## Where the code differs from what is said about it

The model follows the code; each of these is a lemma.

- `gateway/limits.py:100` calls `release` safe once per acquisition, but `gateway/app.py:262-265` calls it
  twice when building the response raises. `BrokenReplyExactly` gives the exact condition under which
  that is harmless, `BrokenReplyOverAdmits` shows the cap being exceeded for every capacity above 1.
- `gateway/app.py:95-96` says that a failure in instrumentation can never leak admission capacity, and it
  cannot (`ReleasedOnce`). Capacity can leak another way: a body that is never started has no `finally`.
  `SlotCanBeLost` gives such a run, `QuietAtTheEnd` counts exactly those.
- `bench/sweep.py:118-125` says stopping early cannot change the sustainable rate.
  `StoppingExactlySafe` gives the condition on the achieved rates under which that is true, ties included;
  equal to requested order is enough (`AscendingIsSafe`). It is as exact for what runs can measure
  (`StoppingExactlySafeForRuns`).
- `bench/records.py:19-20` says a replay differs at most in the last decimal place. When the last scheduled
  request never came back and another did, the window and the rates differ: `ReplayAgrees`,
  `EndsOnTimeExactly`, `LostLastRequestMisread`. Even when everything came back four figures of a summary need
  not be the live ones, and `Agree` leaves them out: the requested rate is the achieved one
  (`RequestedIsAchieved`), the wall clock and with it the overshoot end with the last answer, and the peak
  in flight is reconstructed (`ReplayNeverOverstates`). And the order of the file names can decide the
  capacity: `DirectoryAgreesExactly`, with an input in `NamesMislead`.
- `bench/report.py:321` says there is no healthy rate above the sustainable one. There is exactly when a
  healthy step follows an unhealthy one: `HealthyAboveExactly`, with an input in `HealthyAboveNothing`.
- `observability/promtext.py:58` splits lines at every Unicode line boundary, while a line of the format
  ends with newline only. `RoundTrip` gives the exact condition on label values and comments; a label
  value with another boundary fails the parse (`BrokenTextFails`), a comment with one can be read as a
  sample that nobody wrote (`CommentBecomesSample`).
- `bench/tuning.py:408-427` returns a best variant that is on the frontier for every report of runs
  (`BestOfRunsIsLastOfFrontier`). For a report made by hand with a healthy step at rate 0 it may not be:
  `BestOnFrontierExactly`, with an input in `ZeroRateOffFrontier`.

## Model

| member | source | states |
|---|---|---|
| Admission.Gateway.constructor | src/inferstack/gateway/limits.py:45-54 | the controller starts with all slots free and all counters at 0, given at least one slot, without which the source raises |
| Admission.Gateway.ArriveNow | src/inferstack/gateway/limits.py:65-97 | `acquire` up to its first suspension: admitted at once, refused at once (zero budget, semaphore locked), or asleep at the end of the queue |
| Admission.Gateway.AbortNow | src/inferstack/gateway/limits.py:87-94 | budget expired or caller cancelled while waiting; remembers whether a permit had already been set aside |
| Admission.Gateway.ResumeNow | src/inferstack/gateway/limits.py:86-97 | `acquire` from where it woke up: admitted, refused or withdrawn; an unwanted permit goes back and free permits wake the next waiters |
| Admission.Gateway.Release | src/inferstack/gateway/limits.py:99-104 | gives back one slot unless the counter is 0, and hands the permit to the first sleeper |
| Admission.Gateway.FailNow | src/inferstack/gateway/app.py:264-266 | an engine call that raises or is cancelled gives its slot back |
| Admission.Gateway.ReplyNow | src/inferstack/gateway/app.py:261-266 | a complete answer gives its slot back before the response is built, and a second time if building it raises |
| Admission.Gateway.OpenNow | src/inferstack/gateway/app.py:250-259 | a started stream keeps the slot after the handler has returned |
| Admission.Gateway.StartNow | src/inferstack/gateway/app.py:86-92 | the body is asked for its first chunk |
| Admission.Gateway.ChunkNow | src/inferstack/gateway/app.py:90-92 | one more chunk counted and relayed |
| Admission.Gateway.CloseNow | src/inferstack/gateway/app.py:94-104 | the end of a started body, however it ends: the slot first, then the metric, recorded or not |
| Admission.Gateway.DropNow | src/inferstack/gateway/app.py:106-107 | a body that is abandoned before it was started runs no `finally` |
| AdmissionDiagram.MovesAreThese | src/inferstack/gateway/limits.py:65-104 | the life of a request as a diagram, drawn apart from the transition function: whatever the state, an event moves a request along an arrow of the diagram that it may take, being the request concerned or not, or leaves it where it is |
| AdmissionDiagram.MovesHappen | src/inferstack/gateway/app.py:81-107 | every arrow that a request takes by an event of its own is taken: in any state some event about it does so |
| AdmissionDiagram.AnswersGoBack | src/inferstack/gateway/app.py:261-266 | a complete answer gives its slot back and its request is over |
| AdmissionSafety.AlwaysAccounted | src/inferstack/gateway/limits.py:65-104 | in every reachable state, for any number of requests: free permits + permits set aside + in flight = capacity; arrivals = admitted + refused + waiting + withdrawn; waiters are woken in order of arrival; no wake-up is lost |
| AdmissionSafety.ArrivalExactly | src/inferstack/gateway/limits.py:79-97 | in every reachable state an arrival takes a slot at once if and only if a permit is free and nobody earlier is in line, asleep or woken and not yet resumed; otherwise a zero budget refuses it, and any other puts it at the end of the queue |
| AdmissionSafety.ZeroBudgetNeverQueues | src/inferstack/gateway/limits.py:79-86 | with a zero budget nobody is ever left waiting, and an arrival is refused exactly when every slot is in flight |
| AdmissionSafety.SleepsOnlyWhenFull | src/inferstack/gateway/limits.py:86-97 | a request sleeps only while every slot is in flight or about to change hands |
| AdmissionSafety.OwnersWithinCapacity | src/inferstack/gateway/app.py:243-266 | unless building a reply raises, `in_flight` is the number of requests holding a slot, streams included, and never exceeds the capacity |
| AdmissionSafety.BrokenReplyExactly | src/inferstack/gateway/app.py:261-266 | a reply that cannot be built keeps the counter exact if and only if its request was the only one in flight |
| AdmissionSafety.BrokenReplyOverAdmits | src/inferstack/gateway/app.py:261-266 | counterexample for every capacity of at least 2: after one such reply, capacity + 1 requests hold a slot |
| AdmissionSafety.ReleasedOnce | src/inferstack/gateway/app.py:81-107 | every slot is given back once, never before the last chunk, on every way out and even if recording the metric raises; the metric holds the number of chunks relayed |
| AdmissionRecords.TotalsCountRequests | src/inferstack/gateway/limits.py:83-97 | `admitted_total` counts exactly the requests that ever took a slot, `rejected_total` exactly those that were refused one |
| AdmissionRecords.EndsAreExplained | src/inferstack/gateway/limits.py:82-97 | nobody is refused but by a zero or an expired budget, nobody withdraws but by its own cancellation, and only a stream that was opened and dropped unread loses a slot |
| AdmissionRecords.OwnersBounded | src/inferstack/gateway/app.py:243-266 | in every run, broken replies included: `in_flight` is at most the number of requests holding a slot, which is at most the capacity plus the number of broken replies |
| AdmissionSafety.QuietAtTheEnd | src/inferstack/gateway/app.py:86-107 | when all requests are over, in a run in which no reply broke, the permits missing are those of bodies nobody started; all are back if and only if there are none |
| AdmissionSafety.SlotCanBeLost | src/inferstack/gateway/app.py:94-107 | there can be: for every capacity, one stream opened and dropped unread is over, and its permit never comes back |
| Exposition.ClosingBrace | src/inferstack/observability/promtext.py:96-110 | the scan loop returns the first brace outside a string, as the recursive definition has it |
| Exposition.ParseQuoted | src/inferstack/observability/promtext.py:140-156 | the unescaping loop reads a quoted value and the position past its quote, or fails |
| Exposition.ParseLabel | src/inferstack/observability/promtext.py:121-136 | one `key="value"`, with each of its failures |
| Exposition.ParseLabels | src/inferstack/observability/promtext.py:113-137 | the label loop, which ends because every label consumes text |
| Exposition.ParseSample | src/inferstack/observability/promtext.py:75-93 | one sample line, bare or labelled, with each of its failures |
| Exposition.ParseExposition | src/inferstack/observability/promtext.py:50-63 | samples in order of lines, comments and blanks passed over, the first bad line reported |
| ExpositionGrammar.AcceptedExactly | src/inferstack/observability/promtext.py:75-156 | exactly the sample lines: a line is read as a sample if and only if it has one of two forms, with any blanks, commas, escapes and anything behind the value, and a number for its value; then it is the sample that the form says: stripped name, labels with a later one overwriting, only newline, quote and backslash escaped |
| ExpositionGrammar.RefusedBecause | src/inferstack/observability/promtext.py:75-164 | a line that is refused carries its own number and the failure that it has: no second word, no name, no closing brace outside quotes, no value, no number, or the first label that cannot be read and why |
| ExpositionGrammar.LineExactly | src/inferstack/observability/promtext.py:57-62 | a line of a text gives nothing if it is blank or a comment behind blanks, one sample if it has a form, and its failure otherwise |
| Text.SplitLinesPair | src/inferstack/observability/promtext.py:58 | a carriage return and the newline behind it end one line together, so line numbers count what is there |
| ExpositionGrammar.FirstError | src/inferstack/observability/promtext.py:50-63 | the failure of a text is that of its first bad line, counted from 1 |
| ExpositionGrammar.AllLines | src/inferstack/observability/promtext.py:50-63 | a text without a bad line gives what its lines give, in their order |
| ExpositionRoundTrip.ClosesAtBrace | src/inferstack/observability/promtext.py:96-110 | the closing brace is found behind every printed label set, whatever quotes, backslashes, braces and commas its values hold |
| ExpositionRoundTrip.PairsRead | src/inferstack/observability/promtext.py:113-156 | the label loop reads a printed label set back pair by pair |
| ExpositionRoundTrip.ReadByEntry | src/inferstack/observability/promtext.py:50-156 | a printed text is read entry by entry, or fails if one of them does: a blank gives nothing, a series its sample or, with a label value that is cut, an error, and a comment whatever its own lines hold |
| ExpositionRoundTrip.RoundTrip | src/inferstack/observability/promtext.py:50-156 | a document of blanks, comments and series, with or without timestamps, is parsed back to its samples if and only if no label value holds a line terminator other than newline and every comment is harmless, that is, whatever another terminator in it starts is blank or a comment itself; with harmless comments the parse fails otherwise. Comments hold any text without newline, label values any text; numerals are asked to read back for the values that the document writes, and no others |
| ExpositionRoundTrip.CommentBecomesSample | src/inferstack/observability/promtext.py:58-62 | counterexample for every terminator other than newline: a comment that goes on with a name and a value behind one is parsed to that sample, which nobody wrote |
| ExpositionRoundTrip.EveryDocumentCanBeLegible | src/inferstack/observability/promtext.py:159-164 | for every document there are numerals that read back, so the round trip is about every document |
| ExpositionRoundTrip.BrokenTextFails | src/inferstack/observability/promtext.py:50-63 | a document with a label value that holds another line terminator is an error, whatever its comments |
| Quantiles.Clamp | src/inferstack/observability/histograms.py:72-76 | the running-maximum loop |
| QuantileProperties.ClampedIsLargest | src/inferstack/observability/histograms.py:69-76 | each clamped count is the largest of the counts so far and of zero |
| Quantiles.FirstReaching | src/inferstack/observability/histograms.py:82-83 | the first cumulative count that reaches the rank, else the last index |
| Quantiles.QuantileFromBuckets | src/inferstack/observability/histograms.py:45-99 | the estimate as the source computes it, the `ValueError` and the `None` cases included; what it means is `QuantileExactly` |
| QuantileProperties.QuantileExactly | src/inferstack/observability/histograms.py:61-99 | for one series of buckets and any q from 0 to 1: the cumulative count, drawn as straight lines through the edges of the buckets, takes the value of the rank at the estimate; an empty bucket gives its upper edge, ranks past the finite bounds the highest of these, a first bucket that ends at or below zero its bound |
| QuantileProperties.InfinityDrawn | src/inferstack/observability/histograms.py:85-99 | with several `+Inf` buckets: infinite or not a number exactly as IEEE arithmetic has it |
| QuantileProperties.OrderFree | src/inferstack/observability/histograms.py:64-66 | the estimate does not depend on the order of the buckets |
| QuantileProperties.NoAnswerExactly | src/inferstack/observability/histograms.py:61-80 | for any buckets: no answer if and only if there are fewer than two, none is `+Inf`, or no count is positive |
| QuantileProperties.MonotoneInQ | src/inferstack/observability/histograms.py:61-99 | for any buckets and arbitrary counts a larger q never gives a smaller estimate; with one `+Inf` bucket every estimate is a finite number |
| QuantileProperties.EmptyBucketOnlyAtZero | src/inferstack/observability/histograms.py:93-98 | for any buckets with some positive count: an empty bucket before the last is landed in if and only if q = 0 and the first bucket is empty |
| QuantileProperties.ScaleFree | src/inferstack/observability/histograms.py:61-99 | multiplying all counts by a positive factor changes nothing |
| QuantileProperties.AnswerInBucket | src/inferstack/observability/histograms.py:85-99 | the estimate lies inside the bucket its rank falls in, or is the highest finite bound |
| HistogramAccuracy.SameBucket | src/inferstack/observability/histograms.py:45-99 | for any non-negative observations and any 0 < q <= 1 the estimate is in the bucket of the true nearest-rank percentile; past the finite bounds it is the highest of them, below the truth |
| Histograms.BuildHistograms | src/inferstack/observability/histograms.py:146-187 | the regrouping loop over a dict keyed by label set |
| HistogramRebuild.ViewsExactly | src/inferstack/observability/histograms.py:146-187 | of any samples, malformed ones among them: one view for each label set that occurs, holding in order every bucket as often as a sample tells it with a legible `le`, and the last count and sum given, or zero |
| HistogramRebuild.Rebuilds | src/inferstack/observability/histograms.py:146-187 | any permutation of the samples of histograms with distinct label sets, mixed with unrelated samples, regroups to exactly one view per histogram, buckets sorted, count and sum its own. The bounds of those histograms, and no others, are asked to read back |
| HistogramWindows.WindowIsItsObservations | src/inferstack/observability/histograms.py:190-247 | the histogram of A followed by B, minus that of A, is that of B |
| HistogramWindows.WindowQuantile | src/inferstack/observability/histograms.py:190-247 | so the quantiles of a difference are those of the later observations, to the bucket |
| HistogramWindows.RestartShows | src/inferstack/observability/histograms.py:190-247 | a restart is seen if and only if the new engine has done less in some bucket or overall; bounds never differ |
| HistogramWindows.DifferenceExactly | src/inferstack/observability/histograms.py:190-247 | for any two views: an error if and only if names or bounds differ, else a reset if and only if the count or a bucket fell, else the difference put back on the earlier view is the later one |
| HistogramWindows.Telescopes | src/inferstack/observability/histograms.py:190-247 | consecutive differences add up to the difference of the ends: no observation is counted twice or missed |
| Scrapes.ScrapeGivesHistograms | src/inferstack/observability/promtext.py:50-156 | parsing and regrouping an exported text gives back the exported histograms, in any order of lines and among other metrics |
| Scrapes.TextsGiveTheWindow | src/inferstack/bench/sweep.py:293-341 | two scrapes as text, parsed, regrouped and subtracted, give the histogram of what was observed in between |
| Scrapes.WindowsCanBeScraped | src/inferstack/bench/sweep.py:293-341 | such texts exist for any bounds and any observations before and during the step |
| Scrapes.StepDeltas | src/inferstack/bench/sweep.py:293-341 | the load at the baseline, the length of the window, the counters, every step figure or its own reason, nothing else, and the number of completed requests, which is the count of the end-to-end figure |
| Scrapes.ReadStep | src/inferstack/bench/sweep.py:313-335 | the figures of one key, or the first reason why there are none |
| Scrapes.MissingExactly | src/inferstack/bench/sweep.py:313-325 | no baseline, no final scrape, or a scrape without the signal: each reason if and only if it holds and none before it does |
| Scrapes.ReadingExactly | src/inferstack/bench/sweep.py:318-335 | with both scrapes: a changed layout, a reset, or the count, p50, p99 and mean of what the later scrape has more than the earlier |
| Scrapes.StepKeysAreDistinct | src/inferstack/bench/sweep.py:64-71 | the step figures have distinct keys, so none overwrites another |
| Scrapes.CounterDeltas | src/inferstack/bench/sweep.py:238-247 | a difference for each counter present on both sides that did not fall, and no other |
| Scrapes.StepMeasuresItself | src/inferstack/bench/sweep.py:313-335 | count and mean of a step are those of its own observations, p50 and p99 lie in the buckets of their true percentiles, whatever came before |
| OrderStatistics.PercentileBelow | src/inferstack/engine/smoke.py:43-53 | the percentile is at most t if and only if at least that share of the values is |
| OrderStatistics.PercentileIsAValue | src/inferstack/engine/smoke.py:43-53 | it is one of the values: nothing is interpolated |
| OrderStatistics.PercentileMonotone | src/inferstack/engine/smoke.py:43-53 | a higher percentage never gives a smaller value |
| OrderStatistics.PercentileOrderFree | src/inferstack/engine/smoke.py:51-53 | the order of the values does not matter |
| Requests.MaxLag | src/inferstack/bench/load.py:189-196 | the largest lag of any record, attained, or 0 with none |
| InFlightPeak.ClientPeakInFlight | src/inferstack/bench/report.py:215-243 | the recorded peak, or the scan over sorted events, as loops |
| InFlightPeak.ReconstructedPeak | src/inferstack/bench/report.py:215-243 | the scan is exactly the most requests outstanding at one instant (sent <= t < finished), empty and touching intervals included; `None` if and only if no record has a send time |
| Report.MaxSustainableRate | src/inferstack/bench/report.py:319-333 | the loop over the ordered steps |
| ReportProperties.MaxSustainableMeans | src/inferstack/bench/report.py:315-333 | the rate of a healthy step with only healthy steps below it; every healthy step above it lies past an unhealthy one |
| ReportProperties.SustainableExactly | src/inferstack/bench/report.py:315-333 | the sustainable rate is at least r if and only if some step at r or above is healthy, is the first to be listed at its rate, and has only healthy steps at lower rates: for every list of steps, ties included |
| ReportProperties.HealthyAboveExactly | src/inferstack/bench/report.py:319-333 | a healthy step lies above the sustainable rate if and only if a healthy step follows an unhealthy one: at a higher rate, or at the same rate when the unhealthy one is listed first |
| RunExamples.AnyVerdictAtAnyRate | src/inferstack/bench/report.py:246-303 | for every positive rate and either verdict there is a run of one request that is summarised so: the counterexamples below are runs |
| RunExamples.HealthyAboveNothing | src/inferstack/bench/report.py:319-333 | counterexample to the docstring, of two runs: missed at 1 and met at 2, so nothing is sustained and a healthy step lies above it |
| ReportProperties.HealthyWasOffered | src/inferstack/bench/report.py:158-176 | a healthy step of a run was offered a positive rate |
| ReportProperties.PeakGoodputMeans | src/inferstack/bench/report.py:335-344 | a step of highest goodput, if there is a step |
| ReportProperties.PeakIsFirst | src/inferstack/bench/report.py:335-344 | of several steps of highest goodput, the one listed first |
| ReportProperties.HealthyWithinTarget | src/inferstack/bench/report.py:149-176 | a healthy step answered something, and its p50, p90 and p95 first-token times on the schedule clock are within the target |
| ReportProperties.KeepingUpIsImplied | src/inferstack/bench/report.py:158-176 | attainment alone decides health |
| ReportProperties.SummaryConsistent | src/inferstack/bench/report.py:246-303 | sent = completed + failed, met <= completed, goodput <= completed rate, percentiles in order and present together |
| ReportFigures.CountsMean | src/inferstack/bench/report.py:73-76 | `met_slo` is the number of requests that came back, had a first token within the target of being due, and have no gaps or a mean gap within the target; sent, completed and failed count all, those that came back and those that did not |
| ReportFigures.RatesMean | src/inferstack/bench/report.py:264-284 | goodput, completed rate, tokens per second and overshoot, times the window, are the requests, tokens and seconds that they count; only what finished within the window counts |
| ReportFigures.RunFiguresMean | src/inferstack/bench/report.py:264-299 | the requested rate is that of the schedule, the offered rate its requests over the time the last was due, and a run of no time took a nanosecond |
| ReportFigures.LagMeans | src/inferstack/bench/report.py:285-299 | the lag is the most that any request was sent late, and 0 without requests |
| ReportFigures.HealthyExactly | src/inferstack/bench/report.py:158-176 | a step is healthy if and only if something was sent and at least 19 in 20 of it met the level |
| ReportFigures.KeepingUpExactly | src/inferstack/bench/report.py:149-176 | it keeps up if and only if at least 19 in 20 of what was sent came back |
| ReportFigures.AttainmentMeans | src/inferstack/bench/report.py:149-157 | attainment is the share of what was sent that met the level, and 0 of nothing |
| ReportFigures.HealthyIsFast | src/inferstack/bench/report.py:158-176 | in a healthy step at most one request in 20 of those sent had a mean gap above its target, and at most one in 20 a first token later than its target or none |
| ReportFigures.EndToEndMeans | src/inferstack/bench/report.py:267-293 | p50 and p99 from due to last token are at most t if and only if that share of the answered requests took at most t |
| ReportFigures.GapsMean | src/inferstack/bench/report.py:267-293 | p50 and p99 of the mean gap are at most t if and only if that share of the answers that have gaps has a mean gap of at most t |
| ReportFigures.FirstTokenMeans | src/inferstack/bench/report.py:267-293 | p50, p90, p95 and p99 from due to first token likewise, over the answers that have one |
| ReportFigures.SendClockMeans | src/inferstack/bench/report.py:293-299 | and p99 from when each was sent |
| ReportProperties.RatesCountRequests | src/inferstack/bench/report.py:264-284 | goodput and completed rate count, per second of the window, the requests that met the level and those that came back, finished within it |
| ReportProperties.TailMeans | src/inferstack/bench/report.py:267-293 | p50, p90, p95 and p99 are at most t if and only if that share of the answered requests had a first token within t of being due |
| ReportProperties.SendClockHidesLag | src/inferstack/bench/report.py:267-299 | the p99 on the send clock is never above the p99 on the schedule clock, and there is one exactly when there is the other |
| ReportProperties.RunsAreMeasured | src/inferstack/bench/report.py:264-265 | a run of a valid schedule has a positive window to take rates over |
| ReportProperties.LooserNeverWorse | src/inferstack/bench/report.py:271-344 | loosening either target over the same records never lowers met, goodput, peak goodput or the sustainable rate (`None` lowest), for any number of steps |
| ReportProperties.OrderedSummaries | src/inferstack/bench/report.py:315-317 | the order of the curve does not depend on the service level |
| OpenLoop.InFlight.Enter | src/inferstack/bench/load.py:212-214 | counts up and keeps the maximum |
| OpenLoop.InFlight.Exit | src/inferstack/bench/load.py:216-217 | counts down and keeps the maximum |
| OpenLoop.Runner.LaunchNext | src/inferstack/bench/load.py:313-321 | launches the task of the next offset, not before it is due |
| OpenLoop.Runner.BeginRequest | src/inferstack/bench/load.py:230-249 | enters the counter and takes the send time |
| OpenLoop.Runner.FinishRequest | src/inferstack/bench/load.py:250-285 | appends the record of an answer or of an exception, and leaves the counter |
| OpenLoop.Runner.EndRequest | src/inferstack/bench/load.py:234-238 | what no `except Exception` catches leaves no record but leaves the counter |
| OpenLoop.Runner.DrainAll | src/inferstack/bench/load.py:325-352 | one failure per pending task, then a stable sort by index |
| OpenLoopProperties.TasksAreFree | src/inferstack/bench/load.py:313-352 | before the drain every task can take each of its steps at any time from now on, whatever the others do; nothing else changes by it |
| OpenLoopProperties.LaunchIsFree | src/inferstack/bench/load.py:313-321 | the next task can be launched as soon as it is due, however many are unanswered |
| OpenLoopProperties.DrainIsFree | src/inferstack/bench/load.py:325-352 | when all were launched the run can end at any time, with the records there are and one placeholder for each pending task |
| OpenLoopProperties.MissingAreFailures | src/inferstack/bench/load.py:325-344 | in every run a record without the index of a request is a failure with none of the figures of an answer |
| OpenLoopProperties.EveryRequestRecorded | src/inferstack/bench/load.py:288-352 | for any schedule and any mix of outcomes: one record with its own index for each answered request, one placeholder for each unanswered one, none only for a task that died |
| OpenLoopProperties.LaunchesFollowSchedule | src/inferstack/bench/load.py:313-321 | launch order and indices come from the schedule alone, and nothing is sent early |
| OpenLoopProperties.RecordsAreAnswers | src/inferstack/bench/load.py:249-285 | every record reports the answer its request got, the time it was sent and the time it ended |
| OpenLoopProperties.DrainedInOrder | src/inferstack/bench/load.py:344 | placeholders first, then strictly increasing indices |
| Sorting.SortStable | src/inferstack/bench/load.py:344 | the sort is stable: records with the same index keep the order they were appended in |
| OpenLoopProperties.AnsweredRunIsTheSchedule | src/inferstack/bench/load.py:288-352 | when all came back, record k is request k, due at offset k |
| OpenLoopProperties.PeakIsMostRunning | src/inferstack/bench/load.py:199-238 | the peak is the most requests ever entered at once: never exceeded, and reached |
| OpenLoopProperties.ReconstructedNotAbove | src/inferstack/bench/report.py:215-243 | for every interleaving, the reconstructed peak never exceeds the live one |
| Replay.LoadStep | src/inferstack/bench/records.py:33-79 | the read loop, the sort and the rebuilt schedule |
| ReplayProperties.RunIsSettled | src/inferstack/bench/load.py:325-352 | what any run returns satisfies what the replay lemmas ask of a step, and it is complete if and only if no task died |
| ReplayProperties.ReplayedRecords | src/inferstack/bench/records.py:41-67 | reading back gives the records in the same order, alike in everything but the single gaps between tokens |
| ReplayProperties.ReplayAgrees | src/inferstack/bench/records.py:33-79 | for every run: counts, percentiles, lag and health of a replayed step equal the live ones; the rates too when the last record is due when the schedule ends. With a record for each request that is exactly when everything agrees; when a task died without one, the replay was offered less |
| ReplayProperties.OfferedAgreesExactly | src/inferstack/bench/records.py:67-73 | for every run: the offered rates agree if and only if records and scheduled requests are in the proportion of the times at which the last of each was due |
| ReplayProperties.EndsOnTimeExactly | src/inferstack/bench/records.py:67-73 | for strictly increasing offsets: if and only if the last scheduled request returned, or none did |
| RunExamples.LostLastRequestMisread | src/inferstack/bench/records.py:67-73 | counterexample, a run given event by event: the last of two requests lost (indices -1 and 0), the window is 2 s live and 1 s replayed, the offered rate 1 live and 2 replayed |
| ReplayProperties.RequestedIsAchieved | src/inferstack/bench/records.py:68-73 | for a step with a record for each request that ends on time: the replay gives as requested rate the rate that was achieved |
| ReplayProperties.ReplayNeverOverstates | src/inferstack/bench/records.py:72-79 | the replayed wall clock and peak are never above the live ones |
| Reanalysis.ReanalysisAgreesExactly | src/inferstack/bench/records.py:82-103 | for a run whose steps each have a record for every request and end on time, any service level and any one order of its files: re-judging gives the peak goodput of the live report, and its sustainable rate if and only if, at every rate below which nothing was missed, the first step of the run is healthy just if the first listed is |
| Reanalysis.FilesKept | src/inferstack/bench/sweep.py:447-459 | a records directory is listed by name, and has a file for every step if and only if no two requested rates are formatted alike |
| Reanalysis.JudgedByName | src/inferstack/bench/records.py:82-103 | whatever the names: a directory is judged as the steps whose files are left, in the order of the names |
| Reanalysis.DirectoryAgreesExactly | src/inferstack/bench/records.py:82-103 | so for a directory with a file for every step the order of the names takes the place of the order of the files; without files there is no report |
| Reanalysis.NamesMislead | src/inferstack/bench/records.py:82-88 | counterexample: 9 and 10 requested, 1 drawn both times, 9 missed and 10 met. The run sustained nothing, its directory, in which rate-10 comes before rate-9, sustains 1 |
| Reanalysis.AgreesInAnyOrder | src/inferstack/bench/records.py:82-103 | for such a run: every order of the files gives the live sustainable rate if and only if, wherever a rate was both met and missed, a lower one was missed |
| Reanalysis.RunsAndReplaysSpan | src/inferstack/bench/records.py:64-79 | what a run returns and what its replay returns have no more records than scheduled requests, and take time if they have any |
| Reanalysis.LooserReanalysisNeverWorse | src/inferstack/bench/records.py:91-103 | the same files judged by a looser level never look worse |
| Ladder.RunLadder | src/inferstack/bench/sweep.py:358-431 | rates run in ascending order, the run and the skipped together are the sorted ladder, and it stops at the first time the limit is reached |
| Ladder.StopsExactly | src/inferstack/bench/sweep.py:418-431 | it stops behind the first steps in a row that are unhealthy and as many as the limit, or at the end if there are none |
| Ladder.StoppingIsSafe | src/inferstack/bench/sweep.py:418-431 | stopping keeps the sustainable rate of the full ladder when any k neighbouring rates settle every later one, whatever the steps measure |
| Ladder.AscendingIsSafe | src/inferstack/bench/sweep.py:418-431 | in particular when achieved rates keep the order of requested ones |
| Ladder.LowRateMissed | src/inferstack/bench/sweep.py:118-125 | a later rate below k neighbouring ones and not offered before: its step can raise the answer or lower it, and stopping misses that |
| Ladder.HighRateLost | src/inferstack/bench/sweep.py:118-125 | a rate offered before k higher ones and above a later one: a miss at the later one lowers the answer, and stopping misses that |
| Ladder.StoppingExactlySafe | src/inferstack/bench/sweep.py:118-125 | stopping is safe whatever the health of the steps if and only if any k neighbouring rates settle every later one; for distinct rates, if and only if one of them is at or below it. Known before anything runs, ties included |
| Ladder.StoppingExactlySafeForRuns | src/inferstack/bench/sweep.py:118-125 | the condition is as exact when every step is the summary of a run at its requested rate, for any requested rates and any positive achieved ones |
| Tuning.BestSustainable | src/inferstack/bench/tuning.py:408-427 | the loop with its skips and its strict comparison |
| TuningProperties.FrontierExactly | src/inferstack/bench/tuning.py:353-406 | a result is on the frontier if and only if it is to be trusted (no error, a report, and no step of it with a lag of 0.25 s) and no other such result is at least as good on both axes and better on one |
| TuningProperties.FrontierWasOnTime | src/inferstack/bench/report.py:346-365 | for reports of runs: every request behind a result on the frontier was sent less than 0.25 s after it was due |
| TuningProperties.BestExactly | src/inferstack/bench/tuning.py:408-427 | the best is the earliest of the results, trusted and with a sustained rate, that no other outranks by rate and then by goodput |
| TuningProperties.SomeBestExactly | src/inferstack/bench/tuning.py:408-427 | there is a best if and only if some trusted result sustained a rate |
| TuningProperties.FrontierIsMaximal | src/inferstack/bench/tuning.py:353-406 | only valid results, none dominating another, and every valid result left out is dominated by one on the frontier |
| TuningProperties.FrontierKeepsTies | src/inferstack/bench/tuning.py:396-406 | results equal on both axes are all kept, as often as they were measured |
| TuningProperties.FrontierTradesOff | src/inferstack/bench/tuning.py:396-406 | along the frontier the rate rises and the goodput falls, ties apart |
| TuningProperties.BestMeans | src/inferstack/bench/tuning.py:408-427 | no eligible result beats the best, none measured earlier ties with it, and there is one unless none is eligible |
| TuningProperties.BestIsLastOfFrontier | src/inferstack/bench/tuning.py:396-427 | with a positive rate the best is on the frontier and ties its last point |
| TuningProperties.BestOfRunsIsLastOfFrontier | src/inferstack/bench/tuning.py:396-427 | for reports of runs that holds without condition: a healthy step of a run has a positive rate |
| TuningProperties.BestOnFrontierExactly | src/inferstack/bench/tuning.py:408-427 | for reports made by hand, when some variant is eligible: the best is on the frontier if and only if an eligible variant has a positive rate, or no valid variant that sustained nothing has more goodput than every eligible one |
| TuningProperties.ZeroRateOffFrontier | src/inferstack/bench/tuning.py:408-427 | counterexample for such reports: met at a rate of 0, beside a variant that sustained nothing and has twice the goodput |
| Variants.ParseItems | src/inferstack/bench/tuning.py:244-254 | the loop over `key=value` items, with its failures |
| Variants.ParseSegment | src/inferstack/bench/tuning.py:233-260 | one variant: label, overrides, field check, name |
| Variants.ParseVariants | src/inferstack/bench/tuning.py:209-275 | the whole parser with its sets of names and directories already taken |
| VariantProperties.AcceptedSpecIsUnambiguous | src/inferstack/bench/tuning.py:256-275 | every accepted spec gives a variant per non-blank segment, with distinct names, directories distinct without regard to case, and known fields overridden once |
| VariantProperties.SlugIsSafe | src/inferstack/bench/tuning.py:162-176 | whatever the name: not empty, only safe characters, no dot in front, no dot or underscore at the end, no reserved device |
| VariantDirectories.TameDirectory | src/inferstack/bench/tuning.py:162-176 | the directory of a name of safe characters, "=" and ",", with none of "._," at an end, is that name with "-" for "=" and "__" for ","; one that would open a device gets an underscore in front |
| VariantDirectories.PlainDirectory | src/inferstack/bench/tuning.py:162-176 | so the directory of a name of safe characters only, no device, is that name |
| VariantDirectories.OddRunDirectory | src/inferstack/bench/tuning.py:162-176 | any run of other characters inside becomes one underscore |
| VariantDirectories.TameSpecsExactly | src/inferstack/bench/tuning.py:256-275 | variants under such names, written out and joined, are accepted and read back if and only if no two names are equal apart from case once dashed |
| VariantDirectories.OneFieldAccepted | src/inferstack/bench/tuning.py:209-275 | a spec of one field under distinct integers, as `max_num_seqs=32;max_num_seqs=64;max_num_seqs=128`, is accepted and gives a variant for each |
| VariantDirectories.SessionAccepted | src/inferstack/remote/kernels/bench_sweep.py:92-96 | a session of two baselines around one field under distinct integers is accepted, each variant in a directory of its own |
| VariantDirectories.DefaultSessionAccepted | src/inferstack/remote/kernels/bench_sweep.py:92-96 | the session that is run by default in particular |
| VariantProperties.PlainValuesPrintable | src/inferstack/bench/tuning.py:121-127 | integers, booleans and null are read back from their rendering |
| VariantProperties.SegmentReads | src/inferstack/bench/tuning.py:233-260 | one variant written out, under its default name or as a label with overrides or without, reads back as itself |
| VariantProperties.SpecsReadBack | src/inferstack/bench/tuning.py:121-275 | variants written under default names or labels and joined with ";" parse back to the same variants in order if and only if no two would share a directory; otherwise the spec is refused |
| Session.RunSession | src/inferstack/remote/kernels/bench_sweep.py:379-405 | one outcome per variant, in order and under its own name, skipped exactly when its plan says so, and the crash of a run that raised |
| SessionProperties.PlanExactly | src/inferstack/remote/kernels/bench_sweep.py:344-376 | whether a variant is skipped, and why, from the names alone and the estimate: a last variant is run when its lowered name is a + "repeat" + b for some a and b; any other is run while nothing gave an estimate, and then if it, and a repeat that is still to come, end within the budget |
| SessionProperties.DurationsAre | src/inferstack/remote/kernels/bench_sweep.py:379-405 | the estimate is taken over the variants before that ran and gave a curve, and no others |
| SessionProperties.FailureIsContained | src/inferstack/remote/kernels/bench_sweep.py:388-405 | whatever a run that gives no curve does instead, raising included, no other variant has another outcome |
| SessionProperties.AlwaysRun | src/inferstack/remote/kernels/bench_sweep.py:362-367 | a final repeat is never skipped, nor anything before the first curve |
| SessionProperties.EndsWithinBudget | src/inferstack/remote/kernels/bench_sweep.py:348-405 | if no run lasts longer than the longest completed before it, then once a variant was admitted by the estimate the session, the reserved repeat included, ends within the budget plus the time no run accounts for |
| SessionProperties.SkipsStick | src/inferstack/remote/kernels/bench_sweep.py:366-376 | after the first skip nothing runs but the final repeat |

## Left out

- Rounding to a number of decimals, in summaries and in written records, and floating-point error throughout: the arithmetic is over exact reals.
- NaN and negative infinity as sample values, bucket bounds or float literals.
- Texts of error, log and verdict messages; failures are told apart by kind, and a parse failure also by line.
- HTTP, sockets, subprocesses, files and JSON: `_final_scrape`'s polling, `_settle`, `_sample_engine`, the proxy, authentication, middleware and the kernels other than the session loop.
- Which of several aliases of a signal an engine emits (`observability/engine.py`), and `select`: table lookups.
- `AdmissionController.slot`, which the gateway does not use, and `stats`, which only copies fields.
- The semaphore and `wait_for` of Python 3.11, which resume and cancel in other steps.
- `Sample.label_key` sorts label pairs into a tuple; the model uses the label map itself, which identifies the same sets.
- The random draw of arrival offsets: a schedule is any list of offsets.
- Records appended after `run_open_loop` has returned, by a client that turns its cancellation into an answer.
- Blanks in other places, commas and other escapes in what is printed: the printer writes one space between name, value and timestamp and none in a label set. What the parser makes of them is in `ExpositionGrammar`. Metric and label names are any that the parser can tell apart from what follows them, timestamps any digits and minus signs.
- The `%g` format itself: the file name of a requested rate is any function of it.
- `peak_throughput`, `held_outside_engine` and the engine readings merged into a step: one-line maxima and comparisons.
- `EngineVariant.apply` and the validation of values by the configuration class.
- Digits other than 0 to 9, which Python's `int` also accepts in a variant spec, and its limit on very long numbers.
- TuningProperties.BestOnFrontierExactly: for reports without negative rates; no summary has one (`ReportProperties.OfferedNotNegative`).
- Variants.ParseVariants: the messages that name both variants of a clash; the map from directories to names is kept, its values are only printed.
- Variants whose default name contains a float are read back under the assumption that rendering and parsing that float are inverse (`Printable`).
- Exceptions from `on_result` and interrupts other than `Exception` in a session, which end it.
