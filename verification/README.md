# probeMulti, modelled in Dafny

probeMulti is a small uptime monitor. A cron job ticks at a configured
interval. On each tick it loads every target URL and runs `threadCount`
probe attempts against each target. A target's mode picks the attempt kind:
HTTP GET, TCP connect, or "ICMP", which is really a TCP connect. When every
attempt has finished, the tick reduces the results to one outcome: the
floor-average latency, whether any attempt succeeded, how many attempts
returned 200, and a representative status. From the outcome it steps the
target's Up/Down state machine, which keeps the "first up" time. It maps
the outcome to a label and a description. It then writes either the success
statistics or the network-error statistics. It appends a history record
only when that write succeeded (the code reads that result through a
variable shared by all targets; see Findings), and caps the history at one million rows.
A web front end reads the target table and the history back. It computes
global figures and paging, and normalises new targets and schedule
settings. A chart script averages the latencies into time buckets and pads
the y axis.

The model is functional.

- **Data.** Immutable datatypes for results, outcomes, rows, targets,
  history records and the store. The store is a map from id to row plus a
  sequence of history records.
- **Operations.** Each SQL statement is a pure state transition.
- **The outside world.** Everything the world decides is a parameter:
  - what each attempt observes;
  - how a URL parses;
  - whether each statement fails;
  - the current time.
- **Drain order.** The order in which attempts finish is the index order
  of the result sequence.
- **Targets within a tick.** They are processed as a sequential fold, in
  listing order.

Modules, one per file:

- `Numeric`: Go's truncating `/` and `%`, JavaScript's `Math.round` of a
  quotient, and decimal rendering with its parser.
- `Seqs`: removing one element from a sequence, and reversal.
- `Ranges`: the named time ranges the user interface offers.
- `Probe`: probe results, TCP dial-target defaulting (the well-known ports
  of sections 4.2.1 and 4.2.2 of RFC 9110), and the three probe kinds.
- `Aggregate`: the drain loop and its reduction to an outcome.
- `Uptime`: the Up/Down state machine and the label table. Status 200 is
  OK (section 15.3.1 of RFC 9110) and 429 is Too Many Requests (section 4
  of RFC 6585).
- `Store`: the target table and its statistics writes, and history insert
  with retention and delete.
- `Queries`: the history reads, meaning filter, join, order, LIMIT/OFFSET
  and counts.
- `Scheduler`: one tick, end to end.
- `TargetText`: the uptime text and the average latency text of a target.
- `Handler`: the web handlers' pure helpers.
- `Chart`: the chart script's pure helpers.

## Model

| member | source | states |
|---|---|---|
| Aggregate.Drain | scheduler/scheduler.go:95-114 | The drain loop's total is the sum of the latencies. The average is that sum divided by the thread count, truncated toward zero. hasSuccess holds iff some attempt has a positive status. successCount counts the status-200 attempts. lastStatus is the status of the last successful attempt in drain order. |
| Aggregate.DrainMatchesReduce | scheduler/scheduler.go:90-114 | Draining the complete result sequence gives exactly the functional outcome `Reduce` |
| Aggregate.CountOKBounded | scheduler/scheduler.go:96-109 | The number of status-200 attempts is between 0 and N. A positive count implies hasSuccess. |
| Aggregate.LastSuccessStatusSpec | scheduler/scheduler.go:97-106 | The representative status is 0 iff nothing succeeded. Otherwise it is the positive status of a successful attempt that no later successful attempt follows in drain order. |
| Aggregate.NoSuccessIffAllZero | scheduler/scheduler.go:98-106 | hasSuccess is false iff every attempt reported status 0. |
| Aggregate.AverageWithinRange | scheduler/scheduler.go:100-114 | With N = threadCount ≥ 1 non-negative latencies, the average is floor(sum / N), and it lies between the least and the greatest latency. |
| Aggregate.SumBetween | scheduler/scheduler.go:101 | The latency total lies between N times the least latency and N times the greatest. |
| Aggregate.SumNonNegative | scheduler/scheduler.go:101 | Non-negative latencies have a non-negative total. |
| Aggregate.SumWithout | scheduler/scheduler.go:100-111 | Removing one result takes away its latency, its status-200 contribution and its share of hasSuccess. |
| Aggregate.OrderIndependent | scheduler/scheduler.go:100-111 | The total, the status-200 count and hasSuccess are the same for every drain order (every permutation of the results). |
| Aggregate.RepresentativeDependsOnOrder | scheduler/scheduler.go:104-105 | The representative status does depend on the drain order. Statuses 200 and 500 give 500 in one order and 200 in the other. |
| Uptime.NextFirstUp | scheduler/scheduler.go:118-126 | The first-up time becomes the tick time when the target goes from not up to up. It is cleared when the target goes from up to not up. Otherwise it is kept. |
| Uptime.FirstUpTracksUp | scheduler/scheduler.go:118-151 | If a first-up time was present exactly while the stored status was 200, then the same holds after the tick for the status the tick stores. |
| Uptime.LabelFor | scheduler/scheduler.go:129-144 | The label is "Down" iff nothing succeeded, and "Up" otherwise. The description is "Succeed" iff the outcome is up with status 200, and "Too Many Requests" iff it succeeded with 429. It is "Warning" iff it succeeded with another status, and "Network Error" iff nothing succeeded. |
| Scheduler.Execute | scheduler/scheduler.go:56-87 | A target yields exactly threadCount results. Result i is what the mode's probe strategy makes of attempt i. |
| Scheduler.ExecuteFacts | scheduler/scheduler.go:73-80 | For TCP and ICMP targets every result has status 0 iff it has a network error. With a forward clock no latency is negative. |
| Scheduler.Settle | scheduler/scheduler.go:118-156 | The report carries the new first-up time and the label. A stats write always happens, and whether it succeeded is reported. A history record is appended iff the stats write and the insert both succeed. A failed stats write leaves the store untouched. |
| Scheduler.SettleWrites | scheduler/scheduler.go:147-156 | Only the target's own row changes. On a successful write the row gets the stored status (the representative status, or 0 when nothing succeeded), the average latency, the tick time and the new first-up time. The counters move by (1, average) on the success path and by (0, 0) on the network-error path. The history gains exactly the new record when no retention runs, and is capped when it does. |
| Scheduler.SettleAsWritten | scheduler/scheduler.go:147-156 | As the code is written, the stats write's success is reported as is, but the history append is gated on the shared error variable: another target's result, when one lands in between, otherwise this target's own. |
| Scheduler.SettleAsWrittenUnraced | scheduler/scheduler.go:147-156 | With no other target writing in between, the code as written behaves exactly like `Settle`. |
| Scheduler.RaceDropsRecord | scheduler/scheduler.go:147-156 | A successful stats write and insert whose gate is overwritten by another target's failure append nothing, where `Settle` appends the record. |
| Scheduler.RaceAppendsAfterFailedWrite | scheduler/scheduler.go:147-156 | A failed stats write whose gate is overwritten by another target's success still appends the record, where `Settle` leaves the store as it was. |
| Scheduler.ProcessTarget | scheduler/scheduler.go:56-156 | The outcome reported for a target is the reduction of its complete attempt sequence. |
| Scheduler.ProcessAll | scheduler/scheduler.go:44-165 | Processing a listing yields one report per listed target, in listing order. |
| Scheduler.EffectiveWidth | scheduler/scheduler.go:31-35 | A failed read of the concurrency width falls back to 1. Otherwise the width read is used. |
| Scheduler.RunTick | scheduler/scheduler.go:19-50 | A failed target load aborts the tick, and an empty table is a no-op. A negative effective width panics at the semaphore's allocation. A width of 0 leaves every goroutine blocked on its first send, so the tick never finishes. Otherwise the tick runs with the effective width and reports once per target. |
| Scheduler.SettleWellFormed | scheduler/scheduler.go:147-156 | The writes of one target keep the store well formed (row ids match keys, history ids were handed out) and keep every row runnable. |
| Scheduler.SettleKeeps | scheduler/scheduler.go:118-156 | The writes of one target keep the row invariant, including "a first-up time is present iff the stored status is 200". |
| Scheduler.ProcessTargetKeeps | scheduler/scheduler.go:56-156 | Processing one target keeps the invariant, the keys and the interval. It leaves every other row alone and moves the target's probe count by at most one. |
| Scheduler.ProcessAllKeeps | scheduler/scheduler.go:44-165 | Folding over a listing of distinct current rows keeps the invariant and leaves unlisted rows alone. |
| Scheduler.ProcessAllCounters | scheduler/scheduler.go:44-165 | Folding over such a listing moves every row's counters by at most one probe. |
| Scheduler.ProcessAllFacts | scheduler/scheduler.go:44-165 | The fold keeps the invariant, the keys and the interval, and every counter steps by at most one probe. |
| Scheduler.ListingRunnable | scheduler/scheduler.go:19-28 | Every target the tick loads has at least one attempt. |
| Scheduler.ListingDistinct | database/database.go:98-119 | A listing names current rows, each exactly once. |
| Scheduler.TickKeeps | scheduler/scheduler.go:16-165 | A whole tick keeps the row invariant. It never adds or removes a target, and moves each probe count by at most one. |
| Scheduler.TickFollowsListing | scheduler/scheduler.go:44-165 | The reports of a tick follow the target listing one for one. |
| Scheduler.TickCoversEveryTarget | scheduler/scheduler.go:19-165 | A tick that ran reports on every target exactly once, in descending id order. |
| Scheduler.ReportsFollowListing | database/database.go:98-119 | Reports that follow a listing one for one cover the whole table. |
| Scheduler.AverageNonNegative | scheduler/scheduler.go:114 | Non-negative latencies give a non-negative average. |
| Scheduler.ScenarioMixed | scheduler/scheduler.go:95-144 | With statuses 200, 500 and 0 in any drain order, the target is up with one status-200 attempt and the floor-average latency. The description is "Succeed" or "Warning" depending on which success drained last. |
| Scheduler.ScenarioAllFailed | scheduler/scheduler.go:95-156 | When both attempts fail and the writes succeed, the stored status is 0 and the counters are unchanged. A history record with status 0, "Down" and "Network Error" is appended and retained. |
| Scheduler.ScenarioComesUp | scheduler/scheduler.go:118-148 | A target that was down and now gets a 200 stores the tick time as its first-up time. |
| Scheduler.ScenarioGoesDown | scheduler/scheduler.go:118-150 | A target that was up and now fails everything loses its first-up time. |
| Probe.ModeOf | scheduler/scheduler.go:73-80 | "tcp" and "icmp" select their strategies. Every other mode string selects HTTP. |
| Probe.Milliseconds | probe/probe.go:27-28 | Elapsed nanoseconds become whole milliseconds, truncated, and are never negative for a non-negative time. |
| Probe.DoHttpProbe | probe/probe.go:18-44 | A transport error gives status 0 with a network error. A response gives its own status without one. Either way the latency is the elapsed time. |
| Probe.WellKnownPort | probe/probe.go:57-61 | The default port is 443 iff the scheme is "https", and 80 otherwise. |
| Probe.WithDefaultPort | probe/probe.go:56-62 | A host with a ':' is kept. A host without one gets ':' and a port appended after it. |
| Probe.HostPart | probe/probe.go:56-62 | The host part of an address is its longest prefix without a ':'. |
| Probe.SplitDefaulted | probe/probe.go:56-62 | Splitting a defaulted host:port at its ':' gives back the host and the scheme's well-known port. |
| Probe.HostPartOfColon | probe/probe.go:56 | The host part of `host:rest` is `host` when the host has no ':'. |
| Probe.DefaultPortIdempotent | probe/probe.go:56-62 | Defaulting the port twice changes nothing. |
| Probe.DialTarget | probe/probe.go:50-62 | A failed parse or an empty host dials the raw string. A host with ':' is dialled as is. Otherwise the scheme's well-known port is appended. |
| Probe.DoTcpPing | probe/probe.go:47-82 | Status 0 iff network error. Status 200 iff the dial target accepts the connection. There is no other status. The latency is the elapsed time. |
| Probe.RunProbe | probe/probe.go:87-90 | ICMP and TCP targets both get exactly the TCP result, and HTTP targets the HTTP result. Latencies are non-negative for a forward clock. |
| Probe.DoIcmpProbe | probe/probe.go:84-90 | The ICMP probe is a TCP dial. Status 0 iff network error, 200 iff the dial target accepts, and no other status. The latency is the elapsed time. `Probe.RunProbe` states that it is exactly the TCP result. |
| TargetText.UptimeBreakdown | models/url.go:53-76 | "N/A" appears iff there is no first-up time, so the final fallback is unreachable. Each shape pins the duration: days with hours below 24, hours below 24 with minutes below 60, minutes below 60, or less than a minute. |
| TargetText.UptimeOf | models/url.go:53-76 | No first-up time gives "N/A". Days come with hours in [0, 24), hours in [1, 24) with minutes in [0, 60), minutes alone in [1, 60), and "Just now" only for a first-up time less than a minute ago. `TargetText.UptimeBreakdown` pins each shape's duration interval. |
| TargetText.PositiveBreakdown | models/url.go:57-61 | For a non-negative duration the truncated days, hours mod 24 and minutes mod 60 are a mixed-radix expansion of it. |
| TargetText.NegativeBreakdown | models/url.go:57-74 | A first-up time in the future has no positive unit. |
| TargetText.RenderUptime | models/url.go:63-75 | The text is "N/A" or "Just now" exactly for those shapes. |
| TargetText.GetUptime | models/url.go:53-76 | The uptime text is "N/A" iff no first-up time is recorded. |
| TargetText.GetAverageLatency | models/url.go:79-85 | The text is "N/A" iff the probe count is 0. Otherwise it is the decimal truncated quotient of the latency sum by the count, followed by " ms". |
| Numeric.GoDiv | scheduler/scheduler.go:114 | Integer division of Go, truncated toward zero, bracketing the dividend on each sign. |
| Numeric.RoundDiv | static/chart.js:97 | `Math.round(p / q)`: the nearest integer, ties rounded up. |
| Numeric.IntToString | models/url.go:65-84 | The decimal text of an integer parses back to it, with a '-' for negatives. |
| Numeric.ParseNatToString | models/url.go:65-84 | Decimal rendering of a natural number round-trips through parsing. |
| Store.UpdateProbeStats | database/database.go:132-144 | Only the given row changes. It gets the status, the latency, the tick time and the first-up time. The probe count goes up by exactly 1 and the latency sum by exactly the latency. A failed statement or a missing id changes nothing. |
| Store.UpdateProbeNetworkError | database/database.go:146-156 | Only the given row changes. The status becomes 0 and the latency, tick time and first-up time are set. Both counters stay unchanged. A failed statement or a missing id changes nothing. |
| Store.OldestIndex | database/database.go:166 | Picks a record no newer than any other. |
| Store.Prune | database/database.go:166 | Retention keeps min(n, cap) records drawn from the history. It keeps everything when under the cap. Every dropped record is no newer than every kept one. |
| Store.AddProbeHistory | database/database.go:161-168 | The reported result is the insert's outcome, and a prune failure is ignored. After a successful prune the history holds at most 1,000,000 records. Without a prune the history is the old one plus the new record. A failed insert leaves a history under the cap alone. |
| Store.AddProbeHistoryRetention | database/database.go:161-168 | A successful insert hands out the next history id. The retained records come from the old history plus the new record. Dropped records are no newer than retained ones. |
| Store.NewestRecordRetained | database/database.go:161-168 | A record stamped no earlier than every stored one survives the retention statement. |
| Store.PruneKeepsNewest | database/database.go:166 | Pruning to a positive cap never drops a record newer than all others. |
| Store.AddKeepsWellFormed | database/database.go:161-168 | History ids stay below the next id handed out. |
| Store.KeepOthers | database/database.go:171-174 | Exactly the records of other targets are kept. |
| Store.DeleteProbeHistory | database/database.go:171-174 | A successful delete removes exactly the target's records and keeps all others. A failed one changes nothing. The target table is never touched. |
| Store.MaxOf | database/database.go:99 | The greatest id of a non-empty set. |
| Store.Descending | database/database.go:99 | The listing order holds every id exactly once. |
| Store.DescendingOrdered | database/database.go:99 | The listing order is strictly descending by id. |
| Store.Load | database/database.go:107-115 | A loaded target is up iff its stored status is 200. A missing last-checked time reads as the zero time. |
| Store.LoadAll | database/database.go:101-117 | The i-th loaded target is the loaded row of the i-th id. |
| Store.ListingFacts | database/database.go:98-119 | Loading the descending ids of the whole table gives a listing: every row once, each loaded, in descending id order. |
| Store.GetAllURLs | database/database.go:98-119 | A failed query returns an error. Otherwise there is one target per row. |
| Store.GetAllURLsListing | database/database.go:98-119 | A successful GetAllURLs lists every row exactly once, loaded, in descending id order. |
| Queries.SelectMembers | database/database.go:291-296 | The WHERE clause keeps exactly the records matching the filter. |
| Queries.JoinMembers | database/database.go:179-183 | The join with the target table keeps exactly the records whose target row exists. |
| Queries.JoinWhole | database/database.go:204-209 | A history whose every target exists is unchanged by the join. |
| Queries.SelectEverything | database/database.go:204-209 | Without a WHERE clause every record is selected. |
| Queries.InsertFacts | database/database.go:291-296 | Inserting into a time-ordered sequence keeps it ordered and adds exactly the record. |
| Queries.SortAscFacts | database/database.go:291-296 | Sorting by timestamp gives an ordered permutation of its input. |
| Queries.SortKeepsMembers | database/database.go:291-296 | Sorting keeps exactly the same records. |
| Seqs.ReverseAt | database/database.go:179-185 | The newest-first order is the oldest-first order read backwards. |
| Queries.ViewAllAt | database/database.go:191-198 | Each row returned is the view of the record at that position. |
| Queries.Page | database/database.go:228-233 | LIMIT/OFFSET skips min(offset, n) records and keeps at most `limit` of the rest, or all of them when the limit is negative. |
| Queries.PageAt | database/database.go:228-233 | The page's i-th element is the element at offset + i. |
| Queries.ChosenFacts | database/database.go:291-296 | The chosen records are sorted oldest first. They are exactly the stored records that have a target row and match the filter. |
| Queries.OrderedMembers | database/database.go:179-185 | Either order holds the same records. |
| Queries.OrderedJoined | database/database.go:179-185 | Every record in the ordered result matches the filter and has a target row. |
| Queries.Query | database/database.go:177-200 | The result has min(limit, n − from) rows, where n counts the matching joined records and `from` is the offset clamped to [0, n]. A negative limit gives all n − from rows. |
| Queries.ViewPageAt | database/database.go:179-198 | The page of views is the view of the page's records. |
| Queries.QueryAt | database/database.go:177-200 | Row i of a query is the view of the record at offset + i in the ordered, joined, filtered history. |
| Queries.QuerySound | database/database.go:177-200 | Every row returned is the view of a stored record that has a target row and matches the filter. |
| Queries.QueryJoined | database/database.go:179-198 | Every row returned carries its own target's URL and matches the filter. |
| Queries.QueryComplete | database/database.go:290-311 | Without a limit, every matching record with a target row is returned. |
| Queries.ViewOfMember | database/database.go:191-198 | A member record's view is among the views. |
| Queries.OrderedInOrder | database/database.go:179-185 | The chosen order is by timestamp: newest first or oldest first. |
| Queries.PageInOrder | database/database.go:228-233 | A page of an ordered list is ordered. |
| Queries.RunInOrder | database/database.go:228-233 | A contiguous run of an ordered list is ordered. |
| Queries.QueryOrdered | database/database.go:177-200 | Every query result comes in the order it asked for. |
| Queries.GetProbeHistory | database/database.go:177-200 | At most `limit` rows. |
| Queries.GetProbeHistoryFacts | database/database.go:177-200 | Only the asked target's records, each with that target's URL, newest first. |
| Queries.GetAllProbeHistory | database/database.go:203-224 | At most `limit` rows. |
| Queries.GetAllProbeHistoryFacts | database/database.go:203-224 | Only records whose target exists, each with its URL, newest first. |
| Queries.GetAllProbeHistoryPaged | database/database.go:227-248 | At most `limit` rows, and none past the end. |
| Queries.GetAllProbeHistoryByRangePaged | database/database.go:265-287 | At most `limit` rows, and none past the end of the range. |
| Queries.GetAllProbeHistoryByRangePagedFacts | database/database.go:265-287 | Only records stamped at or after `since`, newest first. |
| Queries.GetProbeHistoryByRange | database/database.go:290-311 | Exactly as many rows as matching joined records. |
| Queries.GetProbeHistoryByRangeFacts | database/database.go:290-311 | Exactly the target's records stamped at or after `since`, all of them when the target exists, oldest first. |
| Queries.CountProbeHistoryByRange | database/database.go:258-262 | The range count never exceeds the whole count. |
| Queries.CountBoundsPages | database/database.go:251-262 | The counts do not join, so they bound what the pages can show. They are exact when no record lost its target row. |
| Handler.GlobalAvgLatency | handler/handler.go:471-481 | 0 when the summed probe count is 0. Otherwise floor(Σ sums / Σ counts), bracketed by the count. |
| Handler.GlobalSumsNonNegative | handler/handler.go:471-481 | With non-negative counters both sums are non-negative. The count sum is 0 iff every target has count 0. |
| Handler.CountUp | handler/handler.go:193-198 | The number of up targets is at most the number of targets. |
| Handler.UptimePercent | handler/handler.go:199-202 | 0 for no targets, otherwise floor(100 · up / n). Always within [0, 100]. |
| Handler.UptimePercentExtremes | handler/handler.go:193-202 | All up gives 100, and none up gives 0. |
| Handler.CountUpExtremes | handler/handler.go:193-198 | All up counts every target, and none up counts none. |
| Handler.LatestProbeTime | handler/handler.go:527-535 | The result is no earlier than any target's last check, and is one of them or the zero time. |
| Handler.Clamp | handler/handler.go:280-285 | A request is accepted iff it parses and 0 < n ≤ 200. Otherwise the default applies. |
| Handler.ClampLimit | handler/handler.go:36-41 | The history limit always lies in (0, 200]. |
| Handler.ClampPageSize | handler/handler.go:280-285 | The page size always lies in (0, 200]. |
| Handler.PageNumber | handler/handler.go:286-291 | The page number is at least 1, and is the requested one when that is positive. |
| Handler.Offset | handler/handler.go:292 | The offset is non-negative and lies before the end of the requested page. |
| Handler.TotalPages | handler/handler.go:330-333 | The ceiling of items over page size, and 0 for a size that is not positive. |
| Handler.PagesCoverItems | handler/handler.go:292-333 | A page number is within the total iff its offset is before the last item. |
| Handler.Navigator | handler/handler.go:336-353 | The navigator is a contiguous ascending run of min(10, totalPages) pages inside [1, totalPages]. It contains the current page whenever that is in range. |
| Handler.NormalMode | handler/handler.go:393-396 | Any mode other than "tcp" or "icmp" becomes "http". |
| Handler.NormalizeTarget | handler/handler.go:388-402 | An empty URL is not inserted. HTTP targets without "http://" or "https://" get "https://" put in front. Everything else is stored as given, and the original always ends the stored URL. |
| Handler.NormalizeIdempotent | handler/handler.go:388-402 | Normalising a normalised target changes nothing. |
| Handler.UpdateSettings | handler/handler.go:431-454 | The interval is saved and the job rescheduled iff the interval is one of the seven whitelisted ones and the write succeeds. Otherwise nothing changes. |
| Handler.IntervalStaysValid | handler/handler.go:435-454 | A store whose interval is whitelisted keeps a whitelisted interval. |
| Handler.RangeSpan | handler/handler.go:46-65 | Exactly the nine named ranges have a look-back span, and every span is positive. |
| Handler.RangeSpanIncreasing | handler/handler.go:46-65 | The spans strictly increase along the ranges in display order. |
| Handler.ChartSpan | handler/handler.go:494-515 | The chart's look-back uses the named span, or one day for any other range. |
| Handler.HistoryApi | handler/handler.go:35-83 | A failed query is answered with 500, and the API never answers 400. Otherwise it returns at most the clamped limit, newest first. With a named range every row is stamped within that span before now. Without one every row carries its own target's URL. |
| Handler.AtoiDiscarding | handler/handler.go:486-488 | The id ChartAPI gets from Atoi, with the error discarded, always lies in int64 and equals the text's value whenever that value fits. |
| Handler.AtoiDiscardingPositive | handler/handler.go:486-488 | The discarded-error id is positive exactly when the text is a positive decimal, however large. A positive value beyond int64 becomes the int64 maximum. |
| Handler.ChartApi | handler/handler.go:484-524 | 400 iff the id text is missing, not a decimal integer, or not positive. A positive id beyond int64 is queried as the int64 maximum rather than rejected. Otherwise 500 iff the query fails. On success the reply holds only the queried target's records within the chart's span, oldest first, and every such record is present. |
| Handler.SchedulerPage | handler/handler.go:267-333 | The scheduler page shows at most a page of rows. Its total pages is the ceiling of its total over the page size, and its page number is at least 1. |
| Handler.SchedulerPageNonEmpty | handler/handler.go:280-333 | For every range parameter, when no record has lost its target row, every page number up to the total page count shows at least one row. |
| Handler.FilledPage | handler/handler.go:300-333 | For any filter, a page whose number is within the page count of the chosen records is not empty. |
| Chart.SlotMonotone | static/chart.js:84-85 | Later times never fall in earlier buckets. |
| Chart.BeforeEnd | static/chart.js:84-85 | A time lies before the end of bucket s iff its own bucket is s or an earlier one. |
| Chart.RunEndIs | static/chart.js:90-95 | The inner loop stops at the first point from its start that is not before the bucket's end. |
| Chart.RunEnd | static/chart.js:90-95 | The inner loop's stopping index lies between its start and the end of the input. `Chart.RunEndIs` and `Chart.RunEndBounds` state which index it is. |
| Chart.RunEndBounds | static/chart.js:90-95 | Every point the inner loop passes lies before the bucket's end, and the point where it stops does not. |
| Chart.BucketsStep | static/chart.js:81-100 | One outer step emits the averaged first run and continues where the run stopped. |
| Chart.SumRun | static/chart.js:86-95 | The inner loop consumes at least one point. It adds up exactly the run before the bucket's end and keeps the run's last time. |
| Chart.BucketAverage | static/chart.js:77-101 | An empty input gives an empty output. A width that is not positive returns the input. Otherwise each run is averaged into one point, and the output is never longer than the input. |
| Chart.BucketsFrom | static/chart.js:83-100 | Bucketing from index i yields at most one point per remaining input point, and nothing iff no input remains. `Chart.BucketsStep` states one outer step. |
| Chart.Buckets | static/chart.js:81-100 | For a positive width the output is never longer than the input, and it is empty iff the input is. `Chart.BucketsAverageTheirBucket`, `Chart.BucketsIncreasing` and `Chart.BucketsCoverInput` state what its points are. |
| Chart.FirstBucket | static/chart.js:84-95 | For sorted points the first run is exactly the first point's bucket. Every later point lies in a later bucket. |
| Chart.InSplit | static/chart.js:84-97 | Per-bucket counts and sums add up over adjacent ranges. |
| Chart.InAll | static/chart.js:84-97 | A range wholly in one bucket is counted whole. |
| Chart.InNone | static/chart.js:84-97 | A range wholly outside a bucket is not counted. |
| Chart.BucketsIncreasing | static/chart.js:81-100 | For sorted input the output times strictly increase. |
| Chart.BucketsAverageTheirBucket | static/chart.js:84-97 | For sorted input each output point has the last time of its half-open bucket [⌊x/b⌋·b, +b). Its latency is the rounded mean of the latencies of the points in that bucket. |
| Chart.BucketsCoverInput | static/chart.js:81-100 | For sorted input every input point's bucket appears in the output. |
| Chart.RepresentsFirst | static/chart.js:96-97 | The averaged first run stands for its bucket. |
| Chart.RepresentsLater | static/chart.js:96-97 | A later bucket's point keeps standing for its bucket when earlier points are counted in. |
| Chart.PickUniformColor | static/chart.js:127-138 | Green for fewer than two values. Otherwise red iff the first value is at most the last. |
| Chart.ColorFlipsWhenReversed | static/chart.js:127-138 | A series whose ends differ changes colour when read backwards. |
| Chart.LowestOf | static/chart.js:142-147 | No value is below the running minimum. |
| Chart.HighestOf | static/chart.js:142-147 | No value is above the running maximum. |
| Chart.ExtremesAreValues | static/chart.js:142-147 | The minimum and the maximum are among the values. |
| Chart.Extremes | static/chart.js:142-147 | The loop finds the least and the greatest value. |
| Chart.Pad | static/chart.js:148-153 | The pad is never less than 5. |
| Chart.YRangePadding | static/chart.js:140-155 | Empty input gives undefined bounds. Otherwise the upper bound is at least 5 above every value and the lower bound is never below 0, with the same pad on both sides. The lower bound is at most every value when the values are non-negative. |
| Chart.Effective | static/chart.js:157-158 | A missing range reads as "1d". A given one is kept. |
| Chart.BucketMs | static/chart.js:60-75 | The bucket width is always positive. |
| Chart.RefreshMs | static/chart.js:6-10 | The reload period is always positive. |
| Chart.DecimationSamples | static/chart.js:111-125 | The sample count is always positive. |
| Chart.ZoomSpeed | static/chart.js:157-162 | The zoom speed is always positive. |
| Chart.DefaultsAreOneDay | static/chart.js:60-75 | An unknown or missing range gets the one-day settings: 2 h buckets, a 15000 ms refresh, 480 samples and the default zoom speed. |
| Chart.BucketsWidenWithRange | static/chart.js:60-75 | Longer ranges use buckets at least as wide. |
| Chart.RefreshSlowsWithRange | static/chart.js:6-10 | Longer ranges reload no more often. |
| Chart.SamplesGrowWithRange | static/chart.js:111-125 | Longer ranges keep strictly more samples. |
| Seqs.MultisetWithout | database/database.go:166 | Removing one element removes exactly it from the multiset. |
| Seqs.MembersWithout | database/database.go:166 | Removal keeps members of the original, and only the removed one can vanish. |

## Left out

- Goroutines, channels, semaphores and WaitGroups. Waiting for every attempt becomes "the reduction receives the complete result sequence". The target fan-out becomes a sequential fold in listing order. The concurrency width is computed (`Scheduler.EffectiveWidth`) but bounds nothing.
- The last-write-wins race between overlapping ticks. It is a concurrency property.
- Network I/O (`http.Client.Get`, `net.DialTimeout`) and the clock. Each attempt's reply, connect outcome and elapsed time is a parameter, and so is the tick time.
- The three `time.Now()` reads of one target are one tick time: the first-up time, `last_checked` and the history timestamp.
- `url.Parse`. Its outcome is a parameter: a parse error, or a scheme and a host.
- The SQL engine, schema creation and migrations. Every statement is a state transition whose failure is a parameter.
- The cron library, and the job removal and re-add in `UpdateSettings`. These are modelled only as a "rescheduled" flag.
- Templates, JSON encoding, HTTP routing and `main.go`. The dashboard's and the URL pages' assembly of page data is also left out, beyond the helpers above.
- `AddURLWithMode` and `DeleteURL` storage, and `GetScheduleInterval`. They are single-row statements with no logic beyond what `Handler.NormalizeTarget` and `Store.DeleteProbeHistory` already cover.
- The shown `AddProbeHistory` (database/database.go:161) takes two arguments. The shown target record (models/url.go:10-21) has no `ThreadCount`, and `GetSchedulerThreadCount` is not defined in the shown files. The model follows the scheduler's calls (scheduler/scheduler.go:31, 114, 155): history records carry latency, status, label and description, and rows carry `threadCount`. A tick requires `threadCount >= 1`, since 0 would divide by zero at scheduler/scheduler.go:114.
- Store.Prune: SQL's `ORDER BY timestamp DESC` leaves ties unordered. The model breaks ties on the history id, so among equal timestamps the lower id is dropped first.
- Int64 overflow of latency sums and counters, and of the offset product. Integers are unbounded.
- Floating point. `GetUptime` converts `time.Duration.Hours()` and `.Minutes()` to int, which is modelled as exact truncating integer division of nanoseconds. `Math.round` is modelled on exact quotients.
- Chart.Pad: the factors 0.1 and 0.15 are modelled as rounded integer divisions. Only the pad's floor of 5 is stated as a property.
- Chart.YRangePadding: "the lower bound is at most every value" is stated only for non-negative values. The `Math.max(0, …)` floor makes it false for negative ones.
- TargetText.GetAverageLatency: Go's truncating division is kept for negative sums or counts (`Numeric.GoQuot`). The text is specified by its parse, not its characters.
- `buildChartData`'s sort and mapping. The bucketing properties assume sorted input, which that sort provides.
- The chart script's lookup tables are plain objects. Keys inherited from `Object.prototype` (such as "constructor") are not modelled.
- `getZoomSpeed` has no entry for "1s", so that range gets the default speed. This is modelled as written. Speeds are in hundredths.
- `getTimeScaleOptions`, `pad2`, `formatHourDot`, `formatDateMonthHour`, `buildChartData`, `initChart`, `bindPanZoomToggle` and the DOM, timers and fetches. These are configuration and presentation.
- Handler.SchedulerPage: the page answers 500 when `GetScheduleInterval` fails (handler/handler.go:268-273). That path and the interval itself are not modelled. A failed history read is logged and the page is rendered with what the code has, meaning no rows, or a count of 0 when the count fails (handler/handler.go:320-328). The model always reads successfully. SchedulerHistoryAPI and ChartAPI instead answer a failed read with 500, and `Handler.HistoryApi` and `Handler.ChartApi` model that.
- Queries.QueryAt: SQL leaves the order of records with equal timestamps open. The model orders them by record id, oldest first, and newest first in reverse. The positions `Queries.QueryAt` states, and so each page's contents, hold for that order only. Lengths, counts and filtering do not depend on it.
- Scheduler.Settle: models the history append as gated by this target's own stats write. The code reads the gate through the shared `err` (see Findings), and `Scheduler.SettleAsWritten` models that. The tick itself uses `Settle`.

## Findings

| source | as written | input that shows it | evidently intended | confidence | as-written member | corrected member |
|---|---|---|---|---|---|---|
| scheduler/scheduler.go:147-156 | Every target's goroutine assigns the tick's one `err` (declared at scheduler/scheduler.go:19), and the history append is gated on `err == nil` read after this target's stats write. | A width of at least 2 and two targets A and B. A's stats write succeeds, then B's fails and sets `err` before A checks it: A's record is dropped (`Scheduler.RaceDropsRecord`). If A's write fails and B's success lands in between, A's record is appended after a failed stats write (`Scheduler.RaceAppendsAfterFailedWrite`). | A goroutine-local error, so a target's record is appended iff its own stats write and insert succeed. | not executed | Scheduler.SettleAsWritten | Scheduler.Settle |
