/** The pure helpers of the web handlers: dashboard figures, the clamping of
    query parameters, pagination and its 10-button navigator, the AddURL
    normalisation, the schedule-interval whitelist and the range table. A
    query parameter is given as `Option<int>`: `None` when it is absent or
    `strconv.Atoi` rejects it, except in `ChartApi`, which discards Atoi's
    error (`AtoiDiscarding`). Times are nanoseconds. */
module Handler {
  import opened Numeric
  import opened Optional
  import opened Store
  import opened Queries
  import opened Ranges

  // ---------------------------------------------------------------------
  // Dashboard figures
  // ---------------------------------------------------------------------

  function SumProbeCounts(ts: seq<Target>): int {
    if ts == [] then 0 else SumProbeCounts(ts[..|ts| - 1]) + ts[|ts| - 1].row.totalProbeCount
  }

  function SumLatencySums(ts: seq<Target>): int {
    if ts == [] then 0 else SumLatencySums(ts[..|ts| - 1]) + ts[|ts| - 1].row.totalLatencySum
  }

  /** calculateGlobalAvgLatency: the pooled mean over every target's
      successful ticks, truncated; 0 when no target has any. */
  function GlobalAvgLatency(ts: seq<Target>): (avg: int)
    ensures SumProbeCounts(ts) == 0 ==> avg == 0
    ensures SumProbeCounts(ts) > 0 && SumLatencySums(ts) >= 0 ==>
              avg * SumProbeCounts(ts) <= SumLatencySums(ts) < avg * SumProbeCounts(ts) + SumProbeCounts(ts)
  {
    var count := SumProbeCounts(ts);
    if count == 0 then 0 else GoQuot(SumLatencySums(ts), count)
  }

  /** With non-negative counters both pooled sums are non-negative, and the
      pooled count is 0 (so the average reads 0) exactly when no target has
      had a successful tick. */
  lemma {:induction false} GlobalSumsNonNegative(ts: seq<Target>)
    requires forall i :: 0 <= i < |ts| ==> ts[i].row.totalProbeCount >= 0 && ts[i].row.totalLatencySum >= 0
    ensures SumProbeCounts(ts) >= 0 && SumLatencySums(ts) >= 0
    ensures SumProbeCounts(ts) == 0 <==> forall i :: 0 <= i < |ts| ==> ts[i].row.totalProbeCount == 0
  {
    if ts != [] {
      var init := ts[..|ts| - 1];
      assert forall i :: 0 <= i < |init| ==> init[i] == ts[i];
      GlobalSumsNonNegative(init);
    }
  }

  function CountUp(ts: seq<Target>): (n: nat)
    ensures n <= |ts|
  {
    if ts == [] then 0 else CountUp(ts[..|ts| - 1]) + (if ts[|ts| - 1].isUp then 1 else 0)
  }

  /** The dashboard's uptime percentage: 0 without targets, otherwise the
      truncated share of targets that are up. */
  function UptimePercent(ts: seq<Target>): (p: int)
    ensures 0 <= p <= 100
    ensures ts == [] ==> p == 0
    ensures ts != [] ==> p * |ts| <= 100 * CountUp(ts) < p * |ts| + |ts|
  {
    if |ts| == 0 then 0
    else
      var p := GoDiv(100 * CountUp(ts), |ts|);
      QuotientBetween(|ts|, 100 * CountUp(ts), p, 0, 100);
      p
  }

  /** Every target up reads as 100 percent, none up as 0 percent. */
  lemma {:induction false} UptimePercentExtremes(ts: seq<Target>)
    ensures (forall i :: 0 <= i < |ts| ==> ts[i].isUp) && ts != [] ==> UptimePercent(ts) == 100
    ensures (forall i :: 0 <= i < |ts| ==> !ts[i].isUp) ==> UptimePercent(ts) == 0
  {
    CountUpExtremes(ts);
    if ts != [] {
      var n, p := |ts|, UptimePercent(ts);
      if forall i :: 0 <= i < |ts| ==> ts[i].isUp {
        assert n * 100 == 100 * n;
        QuotientBetween(n, 100 * CountUp(ts), p, 100, 100);
      }
      if forall i :: 0 <= i < |ts| ==> !ts[i].isUp {
        QuotientBetween(n, 100 * CountUp(ts), p, 0, 0);
      }
    }
  }

  lemma {:induction false} CountUpExtremes(ts: seq<Target>)
    ensures (forall i :: 0 <= i < |ts| ==> ts[i].isUp) ==> CountUp(ts) == |ts|
    ensures (forall i :: 0 <= i < |ts| ==> !ts[i].isUp) ==> CountUp(ts) == 0
  {
    if ts != [] {
      var init := ts[..|ts| - 1];
      assert forall i :: 0 <= i < |init| ==> init[i] == ts[i];
      CountUpExtremes(init);
    }
  }

  /** getLatestProbeTime: the latest last-checked time, or the zero time for
      an empty list (a time before the zero time is never chosen). */
  function LatestProbeTime(ts: seq<Target>): (t: int)
    ensures t >= ZeroTime
    ensures forall i :: 0 <= i < |ts| ==> ts[i].lastChecked <= t
    ensures t == ZeroTime || exists i :: 0 <= i < |ts| && ts[i].lastChecked == t
  {
    if ts == [] then ZeroTime
    else
      var latest := LatestProbeTime(ts[..|ts| - 1]);
      assert forall i :: 0 <= i < |ts| - 1 ==> ts[..|ts| - 1][i] == ts[i];
      if ts[|ts| - 1].lastChecked > latest then ts[|ts| - 1].lastChecked else latest
  }

  // ---------------------------------------------------------------------
  // Query parameters
  // ---------------------------------------------------------------------

  const MaxRequested := 200
  const DefaultLimit := 30
  const DefaultPageSize := 20

  /** A requested count is taken only when it is in (0, 200]. */
  function Clamp(requested: Option<int>, default: int): (n: int)
    ensures requested.Some? && 0 < requested.value <= MaxRequested ==> n == requested.value
    ensures !(requested.Some? && 0 < requested.value <= MaxRequested) ==> n == default
  {
    if requested.Some? && 0 < requested.value <= MaxRequested then requested.value else default
  }

  /** The history API's limit and the scheduler page's page size. */
  function ClampLimit(requested: Option<int>): (n: int)
    ensures 0 < n <= MaxRequested
  {
    Clamp(requested, DefaultLimit)
  }

  function ClampPageSize(requested: Option<int>): (n: int)
    ensures 0 < n <= MaxRequested
  {
    Clamp(requested, DefaultPageSize)
  }

  /** A requested page number is taken when positive, otherwise page 1. */
  function PageNumber(requested: Option<int>): (n: int)
    ensures n >= 1
    ensures requested.Some? && requested.value > 0 ==> n == requested.value
  {
    if requested.Some? && requested.value > 0 then requested.value else 1
  }

  /** The row offset of a page: whole pages before it. */
  function Offset(pageNum: int, pageSize: int): (o: int)
    requires pageNum >= 1 && pageSize >= 1
    ensures o >= pageNum - 1 >= 0
    ensures o < pageNum * pageSize
  {
    MulMonotone(pageNum - 1, 1, pageSize);
    (pageNum - 1) * pageSize
  }

  /** totalPages: the number of pages of `pageSize` rows needed for
      `totalItems` rows (0 when the page size is not positive). */
  function TotalPages(totalItems: int, pageSize: int): (n: int)
    ensures pageSize <= 0 ==> n == 0
    ensures pageSize > 0 && totalItems >= 0 ==>
              n >= 0 && (totalItems == 0 <==> n == 0) && (n > 0 ==> (n - 1) * pageSize < totalItems <= n * pageSize)
  {
    if pageSize > 0 then GoDiv(totalItems + pageSize - 1, pageSize) else 0
  }

  /** Every row lands on exactly one page: the last page is the one holding
      the final row, and a page past it starts beyond the rows. */
  lemma PagesCoverItems(totalItems: int, pageSize: int, pageNum: int)
    requires totalItems >= 0 && pageSize >= 1 && pageNum >= 1
    ensures pageNum <= TotalPages(totalItems, pageSize) <==> Offset(pageNum, pageSize) < totalItems
  {
    var n := TotalPages(totalItems, pageSize);
    var o := Offset(pageNum, pageSize);
    if pageNum <= n {
      assert pageSize * (pageNum - 1) <= pageSize * (n - 1) by {
        MulMonotone(pageSize, pageNum - 1, n - 1);
      }
    } else {
      assert pageSize * n <= pageSize * (pageNum - 1) by {
        MulMonotone(pageSize, n, pageNum - 1);
      }
    }
  }

  // ---------------------------------------------------------------------
  // Page navigator
  // ---------------------------------------------------------------------

  const NavigatorWidth := 10

  /** The navigator's first and last button: all pages when there are at
      most ten; otherwise a window of ten pinned to the first page near the
      start, to the last page near the end, and holding the current page
      five places from its left edge in between. */
  function NavigatorWindow(totalPages: int, pageNum: int): (w: (int, int))
  {
    if totalPages > NavigatorWidth then
      if pageNum <= 6 then (1, 10)
      else if pageNum + 4 >= totalPages then (totalPages - 9, totalPages)
      else (pageNum - 5, pageNum + 4)
    else (1, totalPages)
  }

  /** The buttons: every page from the window's start to its end. */
  method Navigator(totalPages: int, pageNum: int) returns (pages: seq<int>)
    ensures |pages| == Max(0, Min(NavigatorWidth, totalPages))
    ensures forall i :: 0 <= i < |pages| ==> pages[i] == pages[0] + i
    ensures forall i :: 0 <= i < |pages| ==> 1 <= pages[i] <= totalPages
    ensures 1 <= pageNum <= totalPages ==> pageNum in pages
  {
    var (start, end) := NavigatorWindow(totalPages, pageNum);
    pages := [];
    var i := start;
    while i <= end
      invariant start <= i <= Max(start, end + 1)
      invariant |pages| == i - start
      invariant forall k :: 0 <= k < |pages| ==> pages[k] == start + k
      decreases end - i
    {
      pages := pages + [i];
      i := i + 1;
    }
    if 1 <= pageNum <= totalPages {
      assert pages[pageNum - start] == pageNum;
    }
  }

  // ---------------------------------------------------------------------
  // AddURL and UpdateSettings
  // ---------------------------------------------------------------------

  predicate HasPrefix(s: string, p: string) {
    |p| <= |s| && s[..|p|] == p
  }

  /** The mode a new target gets: "tcp" and "icmp" are kept, anything else
      becomes "http". */
  function NormalMode(mode: string): (m: string)
    ensures m == "tcp" || m == "icmp" || m == "http"
    ensures mode == "tcp" || mode == "icmp" ==> m == mode
    ensures mode != "tcp" && mode != "icmp" ==> m == "http"
  {
    if mode != "tcp" && mode != "icmp" then "http" else mode
  }

  /** AddURL's normalisation: nothing is inserted for an empty address; an
      HTTP target without an explicit scheme gets "https://". */
  function NormalizeTarget(url: string, mode: string): (r: Option<(string, string)>)
    ensures r.None? <==> url == ""
    ensures r.Some? ==> r.value.1 == NormalMode(mode)
    ensures r.Some? ==> |url| <= |r.value.0| && r.value.0[|r.value.0| - |url|..] == url
    ensures r.Some? && r.value.1 == "http" ==> HasPrefix(r.value.0, "http://") || HasPrefix(r.value.0, "https://")
    ensures r.Some? && (r.value.1 != "http" || HasPrefix(url, "http://") || HasPrefix(url, "https://")) ==> r.value.0 == url
    ensures r.Some? && r.value.1 == "http" && !HasPrefix(url, "http://") && !HasPrefix(url, "https://") ==>
              r.value.0 == "https://" + url
  {
    if url == "" then None
    else
      var m := NormalMode(mode);
      if m == "http" && !(HasPrefix(url, "http://") || HasPrefix(url, "https://")) then
        var u := "https://" + url;
        assert u[..|"https://"|] == "https://";
        Some((u, m))
      else Some((url, m))
  }

  /** Normalising an already normalised target changes nothing. */
  lemma NormalizeIdempotent(url: string, mode: string)
    requires url != ""
    ensures var r := NormalizeTarget(url, mode).value;
            NormalizeTarget(r.0, r.1) == Some(r)
  {
  }

  /** The intervals UpdateSettings accepts. */
  const ValidIntervals: set<string> :=
    {"@every 1s", "@every 10s", "@every 30s", "@every 1m", "@every 5m", "@every 10m", "@every 30m"}

  /** The interval the settings table starts with. */
  const DefaultInterval := "@every 1m"

  datatype Settings = Settings(store: Store, rescheduled: bool)

  /** UpdateSettings: a whitelisted interval is stored and the job is
      re-registered with it; anything else, or a failed write, changes
      nothing. */
  function UpdateSettings(s: Store, interval: string, writeOk: bool): (r: Settings)
    ensures r.rescheduled <==> interval in ValidIntervals && writeOk
    ensures r.rescheduled ==> r.store == s.(interval := interval)
    ensures !r.rescheduled ==> r.store == s
  {
    if interval !in ValidIntervals || !writeOk then Settings(s, false)
    else Settings(s.(interval := interval), true)
  }

  /** The stored interval is whitelisted from the start and stays so. */
  lemma IntervalStaysValid(s: Store, interval: string, writeOk: bool)
    requires s.interval in ValidIntervals
    ensures UpdateSettings(s, interval, writeOk).store.interval in ValidIntervals
    ensures DefaultInterval in ValidIntervals
  {
  }

  // ---------------------------------------------------------------------
  // Ranges
  // ---------------------------------------------------------------------

  const Second := 1_000_000_000
  const MinuteNs := 60 * Second
  const HourNs := 60 * MinuteNs

  /** How far back a range reaches; `None` for a range the switch does not
      list (the handler then leaves `since` at the zero time). */
  function RangeSpan(r: string): (span: Option<int>)
    ensures span.Some? ==> span.value > 0
    ensures span.Some? <==> r in RangeNames
  {
    match r
    case "1s" => Some(Second)
    case "10s" => Some(10 * Second)
    case "30s" => Some(30 * Second)
    case "1min" => Some(MinuteNs)
    case "1h" => Some(HourNs)
    case "4h" => Some(4 * HourNs)
    case "1d" => Some(24 * HourNs)
    case "1w" => Some(7 * 24 * HourNs)
    case "1m" => Some(30 * 24 * HourNs)
    case _ => None
  }

  /** A longer range always reaches further back. */
  lemma RangeSpanIncreasing()
    ensures forall i, j :: 0 <= i < j < |RangeOrder| ==>
              RangeSpan(RangeOrder[i]).Some? && RangeSpan(RangeOrder[j]).Some? &&
              RangeSpan(RangeOrder[i]).value < RangeSpan(RangeOrder[j]).value
  {
    var spans := [Second, 10 * Second, 30 * Second, MinuteNs, HourNs, 4 * HourNs, 24 * HourNs, 7 * 24 * HourNs, 30 * 24 * HourNs];
    assert forall k :: 0 <= k < |RangeOrder| ==> RangeSpan(RangeOrder[k]) == Some(spans[k]) by {
      assert RangeOrder == ["1s", "10s", "30s", "1min", "1h", "4h", "1d", "1w", "1m"];
    }
    assert forall i, j :: 0 <= i < j < |spans| ==> spans[i] < spans[j];
  }

  /** ChartAPI's span: an unlisted range means one day. */
  function ChartSpan(r: string): (span: int)
    ensures span > 0
    ensures RangeSpan(r).Some? ==> span == RangeSpan(r).value
    ensures RangeSpan(r).None? ==> span == RangeSpan("1d").value
  {
    match RangeSpan(r)
    case Some(v) => v
    case None => 24 * HourNs
  }

  // ---------------------------------------------------------------------
  // The history listings the handlers serve
  // ---------------------------------------------------------------------

  /** What a JSON history endpoint answers: 400 for a missing or invalid
      target id, 500 when the history query fails, otherwise the rows. */
  datatype Reply = BadRequest | ServerError | Rows(rows: seq<HistoryView>)

  /** SchedulerHistoryAPI: the newest `limit` records, newest first,
      restricted to the range when one is given; a failed query is answered
      with 500. */
  function HistoryApi(s: Store, limitParam: Option<int>, rangeParam: string, now: int, queryOk: bool): (r: Reply)
    ensures !r.BadRequest?
    ensures r.ServerError? <==> !queryOk
    ensures r.Rows? ==> |r.rows| <= ClampLimit(limitParam) && InOrder(r.rows, true)
    ensures r.Rows? && RangeSpan(rangeParam).Some? ==>
              forall i :: 0 <= i < |r.rows| ==> r.rows[i].timestamp >= now - RangeSpan(rangeParam).value
    ensures r.Rows? && RangeSpan(rangeParam).None? ==>
              forall i :: 0 <= i < |r.rows| ==> r.rows[i].urlId in s.rows && r.rows[i].url == s.rows[r.rows[i].urlId].url
  {
    if !queryOk then ServerError
    else
      var limit := ClampLimit(limitParam);
      var span := RangeSpan(rangeParam);
      if span.Some? then
        GetAllProbeHistoryByRangePagedFacts(s, now - span.value, limit, 0);
        Rows(GetAllProbeHistoryByRangePaged(s, now - span.value, limit, 0))
      else
        GetAllProbeHistoryFacts(s, limit);
        Rows(GetAllProbeHistory(s, limit))
  }

  const MaxInt64 := 0x7fff_ffff_ffff_ffff
  const MinInt64 := -0x8000_0000_0000_0000

  /** `strconv.Atoi` with its error thrown away. `text` is `None` when the
      parameter is not a decimal integer (a syntax error, which gives 0) and
      otherwise its value, which may lie outside int64; an out-of-range
      value comes back as the int64 bound of its sign. */
  function AtoiDiscarding(text: Option<int>): (n: int)
    ensures MinInt64 <= n <= MaxInt64
    ensures text.Some? && MinInt64 <= text.value <= MaxInt64 ==> n == text.value
  {
    match text
    case None => 0
    case Some(v) => Min(Max(v, MinInt64), MaxInt64)
  }

  /** The value Atoi leaves behind is positive exactly when the text is a
      positive decimal, however large. */
  lemma AtoiDiscardingPositive(text: Option<int>)
    ensures AtoiDiscarding(text) > 0 <==> text.Some? && text.value > 0
    ensures text.Some? && text.value > MaxInt64 ==> AtoiDiscarding(text) == MaxInt64
  {
  }

  /** ChartAPI: a target id that is missing, not a decimal integer, or not
      positive is answered with 400 and a failed query with 500; a positive
      id beyond int64 is not rejected but queried as the int64 maximum.
      Otherwise the reply holds exactly that target's records within the
      chart's span, oldest first. */
  function ChartApi(s: Store, urlIdText: Option<int>, rangeParam: string, now: int, queryOk: bool): (r: Reply)
    ensures r.BadRequest? <==> urlIdText.None? || urlIdText.value <= 0
    ensures r.ServerError? <==> urlIdText.Some? && urlIdText.value > 0 && !queryOk
    ensures r.Rows? ==>
              var id := AtoiDiscarding(urlIdText);
              var since := now - ChartSpan(rangeParam);
              && (forall i :: 0 <= i < |r.rows| ==> r.rows[i].urlId == id && r.rows[i].timestamp >= since)
              && InOrder(r.rows, false)
              && (forall x :: x in s.history && x.urlId == id && x.timestamp >= since && id in s.rows ==> View(s, x) in r.rows)
  {
    var id := AtoiDiscarding(urlIdText);
    AtoiDiscardingPositive(urlIdText);
    if id <= 0 then BadRequest
    else if !queryOk then ServerError
    else
      var since := now - ChartSpan(rangeParam);
      GetProbeHistoryByRangeFacts(s, id, since);
      Rows(GetProbeHistoryByRange(s, id, since))
  }

  /** The scheduler page's table: the item count, the page count and the
      rows of the requested page. */
  datatype PageTable = PageTable(totalItems: int, totalPages: int, pageNum: int, rows: seq<HistoryView>)

  function SchedulerPage(s: Store, sizeParam: Option<int>, pageParam: Option<int>, rangeParam: string, now: int): (t: PageTable)
    ensures |t.rows| <= ClampPageSize(sizeParam)
    ensures t.totalPages == TotalPages(t.totalItems, ClampPageSize(sizeParam))
    ensures t.pageNum >= 1
  {
    var size := ClampPageSize(sizeParam);
    var page := PageNumber(pageParam);
    var offset := Offset(page, size);
    match RangeSpan(rangeParam)
    case Some(span) =>
      var items := CountProbeHistoryByRange(s, now - span);
      PageTable(items, TotalPages(items, size), page, GetAllProbeHistoryByRangePaged(s, now - span, size, offset))
    case None =>
      var items := CountProbeHistory(s);
      PageTable(items, TotalPages(items, size), page, GetAllProbeHistoryPaged(s, size, offset))
  }

  /** The page count is computed from the unjoined count, so it can promise
      more pages than the joined rows fill; a page within the count whose
      offset passes the joined rows comes back empty. With no orphaned
      records the count is exact and every page up to the last holds rows. */
  lemma SchedulerPageNonEmpty(s: Store, sizeParam: Option<int>, pageParam: Option<int>, rangeParam: string, now: int)
    requires forall i :: 0 <= i < |s.history| ==> s.history[i].urlId in s.rows
    ensures var t := SchedulerPage(s, sizeParam, pageParam, rangeParam, now);
            t.pageNum <= t.totalPages ==> t.rows != []
  {
    var size := ClampPageSize(sizeParam);
    var page := PageNumber(pageParam);
    if RangeSpan(rangeParam).Some? {
      var since := now - RangeSpan(rangeParam).value;
      CountBoundsPages(s, since);
      FilledPage(s, Since(since), size, page);
    } else {
      CountBoundsPages(s, 0);
      FilledPage(s, Everything, size, page);
    }
  }

  /** A page whose number is within the page count of the chosen records
      holds at least one of them. */
  lemma FilledPage(s: Store, f: Filter, size: int, page: int)
    requires size >= 1 && page >= 1
    ensures page <= TotalPages(|Chosen(s, f)|, size) ==> Query(s, f, true, size, Offset(page, size)) != []
  {
    PagesCoverItems(|Chosen(s, f)|, size, page);
  }


}
