/** One scheduler tick. With the goroutines stripped away, a tick loads the
    targets, runs each target's N attempts, reduces the complete result
    sequence to an outcome, steps the Up/Down state machine, picks one of
    the two stats writes and appends a history record only when that write
    succeeded. The targets are processed as a sequential fold in listing
    order; every target touches only its own row, so the fold order does not
    change any row. Everything the outside world decides (what each attempt
    sees, whether each statement succeeds) is a parameter. */
module Scheduler {
  import opened Numeric
  import opened Optional
  import opened Probe
  import opened Aggregate
  import opened Uptime
  import opened Store

  /** What the world does during one tick: how the address parses, the
      `i`-th attempt against a target to finish (so index order is drain
      order), and whether each target's stats UPDATE, history INSERT and
      retention DELETE succeed. */
  datatype World = World(
    parse: string -> ParsedUrl,
    attempt: (int, nat) -> Attempt,
    statsOk: int -> bool,
    insertOk: int -> bool,
    pruneOk: int -> bool)

  /** No attempt took negative time. */
  ghost predicate ClockForward(w: World) {
    forall id: int, i: nat :: w.attempt(id, i).elapsedNs >= 0
  }

  /** The attempt fan-out of one target, collected only once every attempt
      finished: one result per attempt, each produced by the strategy the
      target's mode selects. */
  function Execute(row: Row, w: World): (rs: seq<ProbeResult>)
    requires row.threadCount >= 1
    ensures |rs| == row.threadCount
    ensures forall i :: 0 <= i < |rs| ==> rs[i] == RunProbe(row.probeMode, row.url, w.parse(row.url), w.attempt(row.id, i))
  {
    seq(row.threadCount, (i: int) requires 0 <= i => RunProbe(row.probeMode, row.url, w.parse(row.url), w.attempt(row.id, i)))
  }

  /** Every attempt of a TCP or ICMP target reports status 0 exactly when it
      reports a network error, and latencies are never negative when the
      clock runs forward. */
  lemma ExecuteFacts(row: Row, w: World)
    requires row.threadCount >= 1
    ensures var rs := Execute(row, w);
            && (ModeOf(row.probeMode) != Http ==> forall i :: 0 <= i < |rs| ==> (rs[i].statusCode == 0 <==> rs[i].networkErr))
            && (ClockForward(w) ==> forall i :: 0 <= i < |rs| ==> rs[i].latencyMs >= 0)
  {
    var rs := Execute(row, w);
    forall i | 0 <= i < |rs| ensures ClockForward(w) ==> rs[i].latencyMs >= 0 {
      assert rs[i] == RunProbe(row.probeMode, row.url, w.parse(row.url), w.attempt(row.id, i));
    }
  }

  // ---------------------------------------------------------------------
  // One target
  // ---------------------------------------------------------------------

  /** What a tick did for one target. */
  datatype Report = Report(
    id: int,
    outcome: Outcome,
    decision: Label,
    firstUp: NullTime,
    statsWritten: bool,
    historyAppended: bool)

  datatype Processed = Processed(store: Store, report: Report)

  /** The status the tick stores for a target: the representative status on
      the success path, 0 on the failure path. */
  function StoredStatus(o: Outcome): int {
    if o.hasSuccess then o.lastStatus else 0
  }

  /** The history record the tick asks to insert for a target. */
  function RecordFor(s: Store, id: int, o: Outcome, now: int): HistoryRecord {
    var l := LabelFor(o.hasSuccess, o.lastStatus);
    HistoryRecord(s.nextHistoryId, id, o.avgLatency, now, o.lastStatus, l.status, l.description)
  }

  /** Everything after aggregation: the state machine, the label, exactly one
      of the two stats writes (selected by hasSuccess) and, only if that
      write succeeded, the history append. */
  function Settle(s: Store, row: Row, o: Outcome, w: World, now: int): (p: Processed)
    ensures p.report.id == row.id && p.report.outcome == o
    ensures p.report.firstUp == NextFirstUp(row.lastStatus, row.firstUp, o.hasSuccess, o.lastStatus, now)
    ensures p.report.decision == LabelFor(o.hasSuccess, o.lastStatus)
    ensures p.report.statsWritten == w.statsOk(row.id)
    ensures p.report.historyAppended <==> w.statsOk(row.id) && w.insertOk(row.id)
    ensures !w.statsOk(row.id) ==> p.store == s
  {
    var firstUp := NextFirstUp(row.lastStatus, row.firstUp, o.hasSuccess, o.lastStatus, now);
    var l := LabelFor(o.hasSuccess, o.lastStatus);
    var st :=
      if o.hasSuccess then UpdateProbeStats(s, row.id, o.lastStatus, o.avgLatency, firstUp, now, w.statsOk(row.id))
      else UpdateProbeNetworkError(s, row.id, o.avgLatency, firstUp, now, w.statsOk(row.id));
    if st.ok then
      var h := AddProbeHistory(st.store, row.id, o.avgLatency, o.lastStatus, l.status, l.description,
                               now, w.insertOk(row.id), w.pruneOk(row.id));
      Processed(h.store, Report(row.id, o, l, firstUp, true, h.ok))
    else
      Processed(st.store, Report(row.id, o, l, firstUp, false, false))
  }

  /** Settle as the tick's code is written: `err` is one variable shared by
      every target's goroutine, so between this target's stats write and the
      check that gates its history append another target may overwrite it.
      `overwrite` is that other target's write result, when one lands in
      between. */
  function SettleAsWritten(s: Store, row: Row, o: Outcome, w: World, now: int, overwrite: Option<bool>): (p: Processed)
    ensures p.report.statsWritten == w.statsOk(row.id)
    ensures p.report.historyAppended <==> (if overwrite.Some? then overwrite.value else w.statsOk(row.id)) && w.insertOk(row.id)
  {
    var firstUp := NextFirstUp(row.lastStatus, row.firstUp, o.hasSuccess, o.lastStatus, now);
    var l := LabelFor(o.hasSuccess, o.lastStatus);
    var st :=
      if o.hasSuccess then UpdateProbeStats(s, row.id, o.lastStatus, o.avgLatency, firstUp, now, w.statsOk(row.id))
      else UpdateProbeNetworkError(s, row.id, o.avgLatency, firstUp, now, w.statsOk(row.id));
    var gate := if overwrite.Some? then overwrite.value else st.ok;
    if gate then
      var h := AddProbeHistory(st.store, row.id, o.avgLatency, o.lastStatus, l.status, l.description,
                               now, w.insertOk(row.id), w.pruneOk(row.id));
      Processed(h.store, Report(row.id, o, l, firstUp, st.ok, h.ok))
    else
      Processed(st.store, Report(row.id, o, l, firstUp, st.ok, false))
  }

  /** Without an overwrite the code as written is `Settle`. */
  lemma SettleAsWrittenUnraced(s: Store, row: Row, o: Outcome, w: World, now: int)
    ensures SettleAsWritten(s, row, o, w, now, None) == Settle(s, row, o, w, now)
  {
  }

  /** Another target's failed write lands between a successful stats write
      and its check: the record is not appended, where `Settle` appends it. */
  lemma RaceDropsRecord(s: Store, row: Row, o: Outcome, w: World, now: int)
    requires w.statsOk(row.id) && w.insertOk(row.id)
    ensures !SettleAsWritten(s, row, o, w, now, Some(false)).report.historyAppended
    ensures Settle(s, row, o, w, now).report.historyAppended
    ensures |SettleAsWritten(s, row, o, w, now, Some(false)).store.history| == |s.history|
  {
  }

  /** Another target's successful write lands after a failed stats write:
      the record is appended anyway, where `Settle` leaves the store as it
      was. */
  lemma RaceAppendsAfterFailedWrite(s: Store, row: Row, o: Outcome, w: World, now: int)
    requires !w.statsOk(row.id) && w.insertOk(row.id) && !w.pruneOk(row.id)
    ensures SettleAsWritten(s, row, o, w, now, Some(true)).report.historyAppended
    ensures SettleAsWritten(s, row, o, w, now, Some(true)).store.history == s.history + [RecordFor(s, row.id, o, now)]
    ensures Settle(s, row, o, w, now).store == s
  {
  }

  /** What the settled writes do to the store: only the target's own row
      changes; it gets the stored status, the latency, the tick time and the
      new first-up time; the counters move by (1, avgLatency) on the success
      path and by (0, 0) on the failure path; the history grows by the
      record exactly when both the write and the insert succeeded and no
      retention ran. */
  lemma SettleWrites(s: Store, row: Row, o: Outcome, w: World, now: int)
    requires row.id in s.rows
    ensures var p := Settle(s, row, o, w, now);
            && p.store.rows.Keys == s.rows.Keys
            && (forall k :: k in s.rows && k != row.id ==> p.store.rows[k] == s.rows[k])
            && p.store.interval == s.interval
    ensures var p := Settle(s, row, o, w, now);
            var before := s.rows[row.id];
            var after := p.store.rows[row.id];
            w.statsOk(row.id) ==>
              && after.lastStatus == StoredStatus(o)
              && after.lastLatencyMs == o.avgLatency
              && after.lastChecked == Valid(now)
              && after.firstUp == p.report.firstUp
              && after.totalProbeCount == before.totalProbeCount + (if o.hasSuccess then 1 else 0)
              && after.totalLatencySum == before.totalLatencySum + (if o.hasSuccess then o.avgLatency else 0)
              && after.id == before.id && after.threadCount == before.threadCount
              && after.url == before.url && after.probeMode == before.probeMode
    ensures var p := Settle(s, row, o, w, now);
            w.statsOk(row.id) && w.insertOk(row.id) && !w.pruneOk(row.id) ==>
              p.store.history == s.history + [RecordFor(s, row.id, o, now)]
    ensures var p := Settle(s, row, o, w, now);
            w.statsOk(row.id) && w.pruneOk(row.id) ==> |p.store.history| <= HistoryCap
  {
  }

  /** The per-target goroutine body: run the attempts, aggregate the complete
      result sequence, settle. */
  function ProcessTarget(s: Store, row: Row, w: World, now: int): (p: Processed)
    requires row.threadCount >= 1
    ensures p.report.outcome == Reduce(Execute(row, w), row.threadCount)
    ensures p.report.id == row.id
  {
    Settle(s, row, Reduce(Execute(row, w), row.threadCount), w, now)
  }

  // ---------------------------------------------------------------------
  // The tick
  // ---------------------------------------------------------------------

  /** The targets in listing order, each processed against the store the
      previous ones left. */
  function ProcessAll(s: Store, ts: seq<Target>, w: World, now: int): (p: (Store, seq<Report>))
    requires AllRunnable(ts)
    ensures |p.1| == |ts|
    ensures forall i :: 0 <= i < |ts| ==> p.1[i].id == ts[i].row.id
    decreases |ts|
  {
    if ts == [] then (s, [])
    else
      var first := ProcessTarget(s, ts[0].row, w, now);
      var rest := ProcessAll(first.store, ts[1..], w, now);
      (rest.0, [first.report] + rest.1)
  }

  /** Every listed target has at least one attempt per tick. */
  predicate AllRunnable(ts: seq<Target>) {
    forall i :: 0 <= i < |ts| ==> ts[i].row.threadCount >= 1
  }

  /** The global concurrency width: the configured value, or 1 when it cannot
      be read. It bounds how many targets are in flight and nothing else. */
  function EffectiveWidth(read: Option<int>): (n: int)
    ensures read.None? ==> n == 1
    ensures read.Some? ==> n == read.value
  {
    match read
    case None => 1
    case Some(v) => v
  }

  /** How a tick ends. `Stalled`: with a width of 0 the semaphore channel
      has no buffer, so every target's goroutine blocks on its first send and
      the tick never finishes; nothing is written. `Panicked`: a negative
      width makes the channel allocation panic before any target is
      processed. */
  datatype Tick =
    | LoadFailed
    | NothingToProbe
    | Stalled
    | Panicked
    | Ran(store: Store, width: int, reports: seq<Report>)

  /** The store after a tick; a tick that probed nothing leaves it alone,
      and so does one that stalled or panicked before its first write. */
  function After(s: Store, t: Tick): Store {
    if t.Ran? then t.store else s
  }

  /** Every target row has at least one attempt per tick. */
  predicate Runnable(s: Store) {
    forall k :: k in s.rows ==> s.rows[k].threadCount >= 1
  }

  /** CreateJob's job: a failed load aborts, an empty listing is a no-op, a
      width below 1 stalls or panics, and otherwise every listed target is
      processed once. */
  function RunTick(s: Store, w: World, loadOk: bool, widthRead: Option<int>, now: int): (t: Tick)
    requires WellFormed(s) && Runnable(s)
    ensures t.LoadFailed? <==> !loadOk
    ensures t.NothingToProbe? <==> loadOk && |s.rows| == 0
    ensures t.Panicked? <==> loadOk && |s.rows| > 0 && EffectiveWidth(widthRead) < 0
    ensures t.Stalled? <==> loadOk && |s.rows| > 0 && EffectiveWidth(widthRead) == 0
    ensures t.Ran? ==> t.width == EffectiveWidth(widthRead) >= 1 && |t.reports| == |s.rows|
  {
    match GetAllURLs(s, loadOk)
    case None => LoadFailed
    case Some(ts) =>
      if ts == [] then NothingToProbe
      else
        var width := EffectiveWidth(widthRead);
        if width < 0 then Panicked
        else if width == 0 then Stalled
        else
          ListingRunnable(s);
          var p := ProcessAll(s, ts, w, now);
          Ran(p.0, width, p.1)
  }

  /** The listing of a table whose rows all have an attempt is runnable. */
  lemma ListingRunnable(s: Store)
    requires WellFormed(s) && Runnable(s)
    ensures AllRunnable(GetAllURLs(s, true).value)
  {
    GetAllURLsListing(s);
  }

  // ---------------------------------------------------------------------
  // What a tick preserves
  // ---------------------------------------------------------------------

  /** The row invariant of the target table: ids match keys, history ids
      were handed out, every target has an attempt per tick, and a first-up
      time is present exactly while the stored status is 200. */
  predicate Consistent(s: Store) {
    && WellFormed(s)
    && Runnable(s)
    && forall k :: k in s.rows ==> (s.rows[k].firstUp.Valid? <==> WasUp(s.rows[k].lastStatus))
  }

  /** What a tick may do to the counters of a row: the probe count grows by
      at most one and, when no attempt took negative time, the latency sum
      does not shrink. */
  ghost predicate CountersStep(before: Row, after: Row, w: World) {
    && before.totalProbeCount <= after.totalProbeCount <= before.totalProbeCount + 1
    && (ClockForward(w) ==> before.totalLatencySum <= after.totalLatencySum)
  }

  lemma AverageNonNegative(rs: seq<ProbeResult>, threadCount: int)
    requires threadCount >= 1
    requires forall i :: 0 <= i < |rs| ==> rs[i].latencyMs >= 0
    ensures Reduce(rs, threadCount).avgLatency >= 0
  {
    SumNonNegative(rs);
    var q := GoDiv(SumLatency(rs), threadCount);
    if q < 0 {
      assert false;
    }
  }

  /** The settled writes keep ids, history ids and attempt counts. */
  lemma SettleWellFormed(s: Store, row: Row, o: Outcome, w: World, now: int)
    requires WellFormed(s) && Runnable(s)
    requires row.id in s.rows
    ensures WellFormed(Settle(s, row, o, w, now).store) && Runnable(Settle(s, row, o, w, now).store)
  {
    var firstUp := NextFirstUp(row.lastStatus, row.firstUp, o.hasSuccess, o.lastStatus, now);
    var l := LabelFor(o.hasSuccess, o.lastStatus);
    var st :=
      if o.hasSuccess then UpdateProbeStats(s, row.id, o.lastStatus, o.avgLatency, firstUp, now, w.statsOk(row.id))
      else UpdateProbeNetworkError(s, row.id, o.avgLatency, firstUp, now, w.statsOk(row.id));
    if o.hasSuccess {
      StatsKeepShape(s, row.id, o.lastStatus, o.avgLatency, firstUp, now, w.statsOk(row.id));
    } else {
      NetworkErrorKeepsShape(s, row.id, o.avgLatency, firstUp, now, w.statsOk(row.id));
    }
    if st.ok {
      AddKeepsWellFormed(st.store, row.id, o.avgLatency, o.lastStatus, l.status, l.description,
                         now, w.insertOk(row.id), w.pruneOk(row.id));
    }
  }

  /** A stats update keeps ids, history ids and attempt counts. */
  lemma StatsKeepShape(s: Store, id: int, status: int, latency: int, firstUp: NullTime, now: int, execOk: bool)
    requires WellFormed(s) && Runnable(s)
    ensures var st := UpdateProbeStats(s, id, status, latency, firstUp, now, execOk).store;
            WellFormed(st) && Runnable(st)
  {
    var st := UpdateProbeStats(s, id, status, latency, firstUp, now, execOk).store;
    if execOk && id in s.rows {
      assert st.rows[id].id == s.rows[id].id && st.rows[id].threadCount == s.rows[id].threadCount;
    }
  }

  /** A network-error update keeps ids, history ids and attempt counts. */
  lemma NetworkErrorKeepsShape(s: Store, id: int, latency: int, firstUp: NullTime, now: int, execOk: bool)
    requires WellFormed(s) && Runnable(s)
    ensures var st := UpdateProbeNetworkError(s, id, latency, firstUp, now, execOk).store;
            WellFormed(st) && Runnable(st)
  {
    var st := UpdateProbeNetworkError(s, id, latency, firstUp, now, execOk).store;
    if execOk && id in s.rows {
      assert st.rows[id].id == s.rows[id].id && st.rows[id].threadCount == s.rows[id].threadCount;
    }
  }

  /** The settled writes keep the first-up invariant. */
  lemma SettleKeeps(s: Store, row: Row, o: Outcome, w: World, now: int)
    requires Consistent(s)
    requires row.id in s.rows && s.rows[row.id] == row
    ensures Consistent(Settle(s, row, o, w, now).store)
  {
    var s' := Settle(s, row, o, w, now).store;
    SettleWrites(s, row, o, w, now);
    SettleWellFormed(s, row, o, w, now);
    FirstUpTracksUp(row.lastStatus, row.firstUp, o.hasSuccess, o.lastStatus, now);
    forall k | k in s'.rows ensures s'.rows[k].firstUp.Valid? <==> WasUp(s'.rows[k].lastStatus) {
      if k != row.id {
        assert s'.rows[k] == s.rows[k];
      }
    }
  }

  /** Processing one listed target keeps the invariant, changes only the
      target's own row, and moves its counters by at most one probe. */
  lemma ProcessTargetKeeps(s: Store, row: Row, w: World, now: int)
    requires Consistent(s)
    requires row.id in s.rows && s.rows[row.id] == row
    ensures var s' := ProcessTarget(s, row, w, now).store;
            && Consistent(s')
            && s'.rows.Keys == s.rows.Keys
            && s'.interval == s.interval
            && (forall k :: k in s.rows && k != row.id ==> s'.rows[k] == s.rows[k])
            && CountersStep(s.rows[row.id], s'.rows[row.id], w)
  {
    var rs := Execute(row, w);
    var o := Reduce(rs, row.threadCount);
    SettleWrites(s, row, o, w, now);
    SettleKeeps(s, row, o, w, now);
    ExecuteFacts(row, w);
    if ClockForward(w) {
      AverageNonNegative(rs, row.threadCount);
    }
  }

  /** The ids of a listing. */
  function Ids(ts: seq<Target>): set<int> {
    set i | 0 <= i < |ts| :: ts[i].row.id
  }

  /** Folding over a listing of distinct, current rows keeps the invariant
      and leaves unlisted rows alone. */
  lemma {:induction false} ProcessAllKeeps(s: Store, ts: seq<Target>, w: World, now: int)
    requires Consistent(s)
    requires forall i :: 0 <= i < |ts| ==> ts[i].row.id in s.rows && s.rows[ts[i].row.id] == ts[i].row
    requires forall i, j :: 0 <= i < j < |ts| ==> ts[i].row.id != ts[j].row.id
    ensures var s' := ProcessAll(s, ts, w, now).0;
            && Consistent(s')
            && s'.rows.Keys == s.rows.Keys
            && s'.interval == s.interval
            && (forall k :: k in s.rows && k !in Ids(ts) ==> s'.rows[k] == s.rows[k])
    decreases |ts|
  {
    if ts != [] {
      var row := ts[0].row;
      var s1 := ProcessTarget(s, row, w, now).store;
      ProcessTargetKeeps(s, row, w, now);
      var rest := ts[1..];
      RestListed(s, s1, ts);
      ProcessAllKeeps(s1, rest, w, now);
      var s' := ProcessAll(s1, rest, w, now).0;
      assert s' == ProcessAll(s, ts, w, now).0;
      forall k | k in s.rows && k !in Ids(ts) ensures s'.rows[k] == s.rows[k] {
        assert k != row.id;
        assert k !in Ids(rest);
      }
    }
  }

  /** After the first target of a listing is processed, the rest of the
      listing is still distinct and current. */
  lemma RestListed(s: Store, s1: Store, ts: seq<Target>)
    requires ts != []
    requires forall i :: 0 <= i < |ts| ==> ts[i].row.id in s.rows && s.rows[ts[i].row.id] == ts[i].row
    requires forall i, j :: 0 <= i < j < |ts| ==> ts[i].row.id != ts[j].row.id
    requires s1.rows.Keys == s.rows.Keys
    requires forall k :: k in s.rows && k != ts[0].row.id ==> s1.rows[k] == s.rows[k]
    ensures var rest := ts[1..];
            && (forall i :: 0 <= i < |rest| ==> rest[i].row.id in s1.rows && s1.rows[rest[i].row.id] == rest[i].row)
            && (forall i, j :: 0 <= i < j < |rest| ==> rest[i].row.id != rest[j].row.id)
            && ts[0].row.id !in Ids(rest)
  {
    var rest := ts[1..];
    forall i | 0 <= i < |rest| ensures rest[i].row.id in s1.rows && s1.rows[rest[i].row.id] == rest[i].row {
      assert rest[i] == ts[i + 1];
    }
    forall i, j | 0 <= i < j < |rest| ensures rest[i].row.id != rest[j].row.id {
      assert rest[i] == ts[i + 1] && rest[j] == ts[j + 1];
    }
    forall i | 0 <= i < |rest| ensures rest[i].row.id != ts[0].row.id {
      assert rest[i] == ts[i + 1];
    }
  }

  /** A tick over a listing of distinct, current rows moves every counter by
      at most one probe. */
  lemma {:induction false} ProcessAllCounters(s: Store, ts: seq<Target>, w: World, now: int)
    requires Consistent(s)
    requires forall i :: 0 <= i < |ts| ==> ts[i].row.id in s.rows && s.rows[ts[i].row.id] == ts[i].row
    requires forall i, j :: 0 <= i < j < |ts| ==> ts[i].row.id != ts[j].row.id
    ensures var s' := ProcessAll(s, ts, w, now).0;
            && s'.rows.Keys == s.rows.Keys
            && forall k :: k in s.rows ==> CountersStep(s.rows[k], s'.rows[k], w)
    decreases |ts|
  {
    if ts != [] {
      var row := ts[0].row;
      var s1 := ProcessTarget(s, row, w, now).store;
      ProcessTargetKeeps(s, row, w, now);
      var rest := ts[1..];
      RestListed(s, s1, ts);
      ProcessAllKeeps(s1, rest, w, now);
      ProcessAllCounters(s1, rest, w, now);
      var s' := ProcessAll(s1, rest, w, now).0;
      assert s' == ProcessAll(s, ts, w, now).0;
      forall k | k in s.rows ensures CountersStep(s.rows[k], s'.rows[k], w) {
        if k == row.id {
          assert s'.rows[k] == s1.rows[k];
        } else {
          assert s1.rows[k] == s.rows[k];
        }
      }
    } else {
      forall k | k in s.rows ensures CountersStep(s.rows[k], s.rows[k], w) {
      }
    }
  }

  /** Folding over a listing of distinct, current rows keeps the invariant,
      the keys and the interval, and moves every counter by at most one
      probe. */
  lemma ProcessAllFacts(s: Store, ts: seq<Target>, w: World, now: int)
    requires Consistent(s)
    requires forall i :: 0 <= i < |ts| ==> ts[i].row.id in s.rows && s.rows[ts[i].row.id] == ts[i].row
    requires forall i, j :: 0 <= i < j < |ts| ==> ts[i].row.id != ts[j].row.id
    ensures var s' := ProcessAll(s, ts, w, now).0;
            && Consistent(s')
            && s'.rows.Keys == s.rows.Keys
            && s'.interval == s.interval
            && (forall k :: k in s.rows ==> CountersStep(s.rows[k], s'.rows[k], w))
  {
    ProcessAllKeeps(s, ts, w, now);
    ProcessAllCounters(s, ts, w, now);
  }

  /** A listing names current rows, each once. */
  lemma ListingDistinct(s: Store, ts: seq<Target>)
    requires IsListing(s, ts)
    ensures forall i :: 0 <= i < |ts| ==> ts[i].row.id in s.rows && s.rows[ts[i].row.id] == ts[i].row
    ensures forall i, j :: 0 <= i < j < |ts| ==> ts[i].row.id != ts[j].row.id
  {
  }

  /** A tick keeps the row invariant, never adds or removes a target, and
      moves every target's probe count by at most one; a tick that probed
      nothing changes nothing. */
  lemma TickKeeps(s: Store, w: World, loadOk: bool, widthRead: Option<int>, now: int)
    requires Consistent(s)
    ensures var t := RunTick(s, w, loadOk, widthRead, now);
            var s' := After(s, t);
            && Consistent(s')
            && s'.rows.Keys == s.rows.Keys
            && s'.interval == s.interval
            && (forall k :: k in s.rows ==> CountersStep(s.rows[k], s'.rows[k], w))
  {
    var t := RunTick(s, w, loadOk, widthRead, now);
    if t.Ran? {
      GetAllURLsListing(s);
      var ts := GetAllURLs(s, loadOk).value;
      ListingDistinct(s, ts);
      ProcessAllFacts(s, ts, w, now);
    } else {
      forall k | k in s.rows ensures CountersStep(s.rows[k], s.rows[k], w) {
      }
    }
  }

  /** A tick that ran reports on the targets in listing order. */
  lemma TickFollowsListing(s: Store, w: World, loadOk: bool, widthRead: Option<int>, now: int)
    requires WellFormed(s) && Runnable(s)
    ensures var t := RunTick(s, w, loadOk, widthRead, now);
            t.Ran? ==>
              && |t.reports| == |GetAllURLs(s, true).value|
              && forall i :: 0 <= i < |t.reports| ==> t.reports[i].id == GetAllURLs(s, true).value[i].row.id
  {
  }

  /** The reports name every target exactly once, in descending id order. */
  predicate ReportsCover(s: Store, reports: seq<Report>) {
    && (forall k :: k in s.rows ==> exists i :: 0 <= i < |reports| && reports[i].id == k)
    && (forall i :: 0 <= i < |reports| ==> reports[i].id in s.rows)
    && (forall i, j :: 0 <= i < j < |reports| ==> reports[i].id > reports[j].id)
  }

  /** A tick that ran reports on every target exactly once, in descending id
      order. */
  lemma TickCoversEveryTarget(s: Store, w: World, loadOk: bool, widthRead: Option<int>, now: int)
    requires WellFormed(s) && Runnable(s)
    ensures var t := RunTick(s, w, loadOk, widthRead, now);
            t.Ran? ==> ReportsCover(s, t.reports)
  {
    var t := RunTick(s, w, loadOk, widthRead, now);
    if t.Ran? {
      TickFollowsListing(s, w, loadOk, widthRead, now);
      GetAllURLsListing(s);
      ReportsFollowListing(s, GetAllURLs(s, true).value, t.reports);
    }
  }

  /** Reports that follow a listing one for one cover the table as the
      listing does. */
  lemma ReportsFollowListing(s: Store, ts: seq<Target>, reports: seq<Report>)
    requires IsListing(s, ts)
    requires |reports| == |ts|
    requires forall i :: 0 <= i < |ts| ==> reports[i].id == ts[i].row.id
    ensures ReportsCover(s, reports)
  {
    forall k | k in s.rows ensures exists i :: 0 <= i < |reports| && reports[i].id == k {
      var i :| 0 <= i < |ts| && ts[i].row.id == k;
      assert reports[i].id == k;
    }
  }

  // ---------------------------------------------------------------------
  // Worked scenarios
  // ---------------------------------------------------------------------

  /** Three attempts with statuses 200, 500 and 0, drained in any order:
      the target is up with one status-200 attempt and the floor-average
      latency; the description is "Succeed" or "Warning" depending on which
      success was drained last. */
  lemma ScenarioMixed(rs: seq<ProbeResult>, a: ProbeResult, b: ProbeResult, c: ProbeResult)
    requires a.statusCode == 200 && b.statusCode == 500 && c.statusCode == 0
    requires multiset(rs) == multiset([a, b, c])
    ensures var o := Reduce(rs, 3);
            && o.hasSuccess
            && o.successCount == 1
            && o.avgLatency == GoDiv(a.latencyMs + b.latencyMs + c.latencyMs, 3)
            && LabelFor(o.hasSuccess, o.lastStatus).status == "Up"
            && LabelFor(o.hasSuccess, o.lastStatus).description in {"Succeed", "Warning"}
  {
    var abc := [a, b, c];
    assert [a][..0] == [];
    assert SumLatency([a]) == a.latencyMs;
    assert CountOK([a]) == 1;
    assert [a, b][..1] == [a];
    assert SumLatency([a, b]) == a.latencyMs + b.latencyMs;
    assert CountOK([a, b]) == 1;
    assert abc[..2] == [a, b];
    assert SumLatency(abc) == a.latencyMs + b.latencyMs + c.latencyMs;
    assert CountOK(abc) == 1;
    assert Succeeded(abc[0]);
    OrderIndependent(rs, abc);
    LastSuccessStatusSpec(rs);
    var i :| 0 <= i < |rs| && Succeeded(rs[i]) && rs[i].statusCode == LastSuccessStatus(rs);
    assert rs[i] in multiset(abc);
    assert LastSuccessStatus(rs) == 200 || LastSuccessStatus(rs) == 500;
  }

  /** Two attempts that both got no response: the target is down, its status
      is stored as 0, its counters stay, and the record appended for it says
      status 0, "Down", "Network Error". */
  lemma ScenarioAllFailed(s: Store, row: Row, w: World, now: int, x: ProbeResult, y: ProbeResult)
    requires WellFormed(s)
    requires row.id in s.rows && s.rows[row.id] == row && row.threadCount == 2
    requires x.statusCode == 0 && y.statusCode == 0
    requires w.statsOk(row.id) && w.insertOk(row.id)
    requires forall i :: 0 <= i < |s.history| ==> s.history[i].timestamp <= now
    ensures var o := Reduce([x, y], 2);
            var p := Settle(s, row, o, w, now);
            var after := p.store.rows[row.id];
            && !o.hasSuccess
            && after.lastStatus == 0
            && after.totalProbeCount == row.totalProbeCount
            && after.totalLatencySum == row.totalLatencySum
            && p.report.historyAppended
            && RecordFor(s, row.id, o, now) in p.store.history
            && RecordFor(s, row.id, o, now).status == 0
            && RecordFor(s, row.id, o, now).statusLabel == "Down"
            && RecordFor(s, row.id, o, now).description == "Network Error"
  {
    var o := Reduce([x, y], 2);
    assert [x, y][..1] == [x] && [x][..0] == [];
    assert LastSuccessStatus([x]) == 0;
    assert !o.hasSuccess;
    assert o.lastStatus == 0;
    SettleWrites(s, row, o, w, now);
    var firstUp := NextFirstUp(row.lastStatus, row.firstUp, o.hasSuccess, o.lastStatus, now);
    var st := UpdateProbeNetworkError(s, row.id, o.avgLatency, firstUp, now, true);
    NewestRecordRetained(st.store, row.id, o.avgLatency, o.lastStatus, "Down", "Network Error", now, w.pruneOk(row.id));
  }

  /** A target that was down and comes up this tick gets the tick time as its
      first-up time, not any value the row held before. */
  lemma ScenarioComesUp(s: Store, row: Row, o: Outcome, w: World, now: int)
    requires row.id in s.rows && s.rows[row.id] == row
    requires row.lastStatus == 0 && o.hasSuccess && o.lastStatus == StatusOK
    requires w.statsOk(row.id)
    ensures Settle(s, row, o, w, now).store.rows[row.id].firstUp == Valid(now)
  {
    SettleWrites(s, row, o, w, now);
  }

  /** A target that was up and is not up after this tick loses its first-up
      time. */
  lemma ScenarioGoesDown(s: Store, row: Row, o: Outcome, w: World, now: int)
    requires row.id in s.rows && s.rows[row.id] == row
    requires row.lastStatus == StatusOK && !(o.hasSuccess && o.lastStatus == StatusOK)
    requires w.statsOk(row.id)
    ensures Settle(s, row, o, w, now).store.rows[row.id].firstUp == Null
  {
    SettleWrites(s, row, o, w, now);
  }
}
