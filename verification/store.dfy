/** The storage collaborator as an abstract state: the `urls` table as a map
    from id to row, the `probe_history` table as a sequence of records in
    insertion order, and the `schedule_interval` setting. Each statement the
    program issues is a transition of this state; whether the engine
    reports an error for a statement is a parameter. */
module Store {
  import opened Numeric
  import opened Uptime
  import opened Optional
  import opened Seqs

  /** The number of history records the retention statement keeps. */
  const HistoryCap := 1_000_000

  /** Go's zero `time.Time`, which a target with no last-checked time shows. */
  const ZeroTime := 0

  /** One row of the `urls` table. `threadCount` is the number of probe
      attempts the scheduler runs against the target per tick. */
  datatype Row = Row(
    id: int,
    url: string,
    probeMode: string,
    threadCount: int,
    lastStatus: int,
    lastLatencyMs: int,
    lastChecked: NullTime,
    firstUp: NullTime,
    totalProbeCount: int,
    totalLatencySum: int)

  /** One row of the `probe_history` table, in the form the scheduler writes. */
  datatype HistoryRecord = HistoryRecord(
    id: int,
    urlId: int,
    latencyMs: int,
    timestamp: int,
    status: int,
    statusLabel: string,
    description: string)

  datatype Store = Store(
    rows: map<int, Row>,
    history: seq<HistoryRecord>,
    nextHistoryId: int,
    interval: string)

  /** The state after a statement and whether the statement reported success. */
  datatype Written = Written(store: Store, ok: bool)

  /** Keys are the rows' ids and every history id was handed out before. */
  predicate WellFormed(s: Store) {
    && (forall k :: k in s.rows ==> s.rows[k].id == k)
    && (forall i :: 0 <= i < |s.history| ==> s.history[i].id < s.nextHistoryId)
  }

  // ---------------------------------------------------------------------
  // Stats updates (`UPDATE urls ... WHERE id = ?`)
  // ---------------------------------------------------------------------

  /** UpdateProbeStats: records the status, latency, check time and first-up
      time, and adds one probe and its latency to the cumulative counters.
      An UPDATE whose id matches no row changes nothing and still succeeds. */
  function UpdateProbeStats(s: Store, id: int, status: int, latency: int, firstUp: NullTime, now: int, execOk: bool): (w: Written)
    ensures w.ok == execOk
    ensures !execOk || id !in s.rows ==> w.store == s
    ensures w.store.history == s.history && w.store.nextHistoryId == s.nextHistoryId && w.store.interval == s.interval
    ensures w.store.rows.Keys == s.rows.Keys
    ensures forall k :: k in s.rows && k != id ==> w.store.rows[k] == s.rows[k]
    ensures execOk && id in s.rows ==>
      var before := s.rows[id];
      var after := w.store.rows[id];
      && after.lastStatus == status
      && after.lastLatencyMs == latency
      && after.lastChecked == Valid(now)
      && after.firstUp == firstUp
      && after.totalProbeCount == before.totalProbeCount + 1
      && after.totalLatencySum == before.totalLatencySum + latency
      && after.(lastStatus := before.lastStatus, lastLatencyMs := before.lastLatencyMs,
                lastChecked := before.lastChecked, firstUp := before.firstUp,
                totalProbeCount := before.totalProbeCount, totalLatencySum := before.totalLatencySum) == before
  {
    if !execOk || id !in s.rows then Written(s, execOk)
    else
      var row := s.rows[id];
      var row' := row.(lastStatus := status, lastLatencyMs := latency, lastChecked := Valid(now),
                       firstUp := firstUp, totalProbeCount := row.totalProbeCount + 1,
                       totalLatencySum := row.totalLatencySum + latency);
      Written(s.(rows := s.rows[id := row']), true)
  }

  /** UpdateProbeNetworkError: forces the status to 0, records latency, check
      time and first-up time, and leaves the cumulative counters alone. */
  function UpdateProbeNetworkError(s: Store, id: int, latency: int, firstUp: NullTime, now: int, execOk: bool): (w: Written)
    ensures w.ok == execOk
    ensures !execOk || id !in s.rows ==> w.store == s
    ensures w.store.history == s.history && w.store.nextHistoryId == s.nextHistoryId && w.store.interval == s.interval
    ensures w.store.rows.Keys == s.rows.Keys
    ensures forall k :: k in s.rows && k != id ==> w.store.rows[k] == s.rows[k]
    ensures execOk && id in s.rows ==>
      var before := s.rows[id];
      var after := w.store.rows[id];
      && after.lastStatus == 0
      && after.lastLatencyMs == latency
      && after.lastChecked == Valid(now)
      && after.firstUp == firstUp
      && after.totalProbeCount == before.totalProbeCount
      && after.totalLatencySum == before.totalLatencySum
      && after.(lastStatus := before.lastStatus, lastLatencyMs := before.lastLatencyMs,
                lastChecked := before.lastChecked, firstUp := before.firstUp) == before
  {
    if !execOk || id !in s.rows then Written(s, execOk)
    else
      var row := s.rows[id];
      var row' := row.(lastStatus := 0, lastLatencyMs := latency, lastChecked := Valid(now), firstUp := firstUp);
      Written(s.(rows := s.rows[id := row']), true)
  }

  // ---------------------------------------------------------------------
  // History retention
  // ---------------------------------------------------------------------

  /** `a` is not newer than `b`: the retention statement orders by timestamp;
      among equal timestamps the smaller id (the earlier insert) counts as
      older. */
  predicate NotNewer(a: HistoryRecord, b: HistoryRecord) {
    a.timestamp < b.timestamp || (a.timestamp == b.timestamp && a.id <= b.id)
  }

  /** The position of an oldest record. */
  function OldestIndex(h: seq<HistoryRecord>): (i: nat)
    requires h != []
    ensures i < |h|
    ensures forall j :: 0 <= j < |h| ==> NotNewer(h[i], h[j])
  {
    if |h| == 1 then 0
    else
      var k := OldestIndex(h[1..]);
      if NotNewer(h[0], h[k + 1]) then 0 else k + 1
  }

  /** Drops oldest records until at most `cap` remain. */
  function Prune(h: seq<HistoryRecord>, cap: nat): (r: seq<HistoryRecord>)
    ensures |r| == Min(|h|, cap)
    ensures multiset(r) <= multiset(h)
    ensures |h| <= cap ==> r == h
    ensures forall x, y :: x in h && x !in r && y in r ==> NotNewer(x, y)
    decreases |h|
  {
    if |h| <= cap then h
    else
      var i := OldestIndex(h);
      var r := Prune(Without(h, i), cap);
      PruneStep(h, i, r);
      r
  }

  /** Dropping an oldest record and then pruning the rest drops only records
      no newer than any kept one. */
  lemma PruneStep(h: seq<HistoryRecord>, i: nat, r: seq<HistoryRecord>)
    requires i < |h|
    requires forall j :: 0 <= j < |h| ==> NotNewer(h[i], h[j])
    requires multiset(r) <= multiset(Without(h, i))
    requires forall x, y :: x in Without(h, i) && x !in r && y in r ==> NotNewer(x, y)
    ensures multiset(r) <= multiset(h)
    ensures forall x, y :: x in h && x !in r && y in r ==> NotNewer(x, y)
  {
    var rest := Without(h, i);
    MultisetWithout(h, i);
    MembersWithout(h, i);
    forall x, y | x in h && x !in r && y in r ensures NotNewer(x, y) {
      assert y in multiset(r);
      assert y in rest;
      if x !in rest {
        var j :| 0 <= j < |h| && h[j] == y;
      }
    }
  }

  /** AddProbeHistory: insert one record stamped with the current time, then
      run the retention statement. The retention statement's error is
      ignored and only the insert's error is reported. */
  function AddProbeHistory(s: Store, urlId: int, latency: int, status: int, statusLabel: string, description: string,
                           now: int, insertOk: bool, pruneOk: bool): (w: Written)
    ensures w.ok == insertOk
    ensures w.store.rows == s.rows && w.store.interval == s.interval
    ensures pruneOk ==> |w.store.history| <= HistoryCap
    ensures !insertOk && |s.history| <= HistoryCap ==> w.store.history == s.history
    ensures insertOk && !pruneOk ==>
              w.store.history == s.history + [HistoryRecord(s.nextHistoryId, urlId, latency, now, status, statusLabel, description)]
  {
    var record := HistoryRecord(s.nextHistoryId, urlId, latency, now, status, statusLabel, description);
    var inserted := if insertOk then s.history + [record] else s.history;
    var next := if insertOk then s.nextHistoryId + 1 else s.nextHistoryId;
    var retained := if pruneOk then Prune(inserted, HistoryCap) else inserted;
    Written(s.(history := retained, nextHistoryId := next), insertOk)
  }

  /** After an insert the history holds only old records and the new one,
      and a record is dropped only when it is no newer than every record
      kept. */
  lemma AddProbeHistoryRetention(s: Store, urlId: int, latency: int, status: int, statusLabel: string, description: string,
                                 now: int, insertOk: bool, pruneOk: bool)
    ensures var w := AddProbeHistory(s, urlId, latency, status, statusLabel, description, now, insertOk, pruneOk);
            var record := HistoryRecord(s.nextHistoryId, urlId, latency, now, status, statusLabel, description);
            && w.store.nextHistoryId == (if insertOk then s.nextHistoryId + 1 else s.nextHistoryId)
            && multiset(w.store.history) <= multiset(s.history) + multiset{record}
            && forall x, y :: x in s.history && x !in w.store.history && y in w.store.history ==> NotNewer(x, y)
  {
    var record := HistoryRecord(s.nextHistoryId, urlId, latency, now, status, statusLabel, description);
    var inserted := if insertOk then s.history + [record] else s.history;
    assert forall x :: x in s.history ==> x in inserted;
  }

  /** A record inserted with a timestamp no earlier than any stored one
      survives the retention statement. */
  lemma NewestRecordRetained(s: Store, urlId: int, latency: int, status: int, statusLabel: string, description: string,
                             now: int, pruneOk: bool)
    requires WellFormed(s)
    requires forall i :: 0 <= i < |s.history| ==> s.history[i].timestamp <= now
    ensures var w := AddProbeHistory(s, urlId, latency, status, statusLabel, description, now, true, pruneOk);
            HistoryRecord(s.nextHistoryId, urlId, latency, now, status, statusLabel, description) in w.store.history
  {
    var record := HistoryRecord(s.nextHistoryId, urlId, latency, now, status, statusLabel, description);
    var inserted := s.history + [record];
    if pruneOk && |inserted| > HistoryCap {
      forall z | z in inserted && z != record ensures !NotNewer(record, z) {
        var i :| 0 <= i < |inserted| && inserted[i] == z;
        assert i < |s.history|;
      }
      PruneKeepsNewest(inserted, HistoryCap, record);
    }
  }

  /** Pruning to a positive cap never drops a record newer than all the
      others. */
  lemma PruneKeepsNewest(h: seq<HistoryRecord>, cap: nat, x: HistoryRecord)
    requires cap >= 1
    requires x in h
    requires forall z :: z in h && z != x ==> !NotNewer(x, z)
    ensures x in Prune(h, cap)
  {
    var r := Prune(h, cap);
    var y := r[0];
    assert y in multiset(r);
    assert y in h && y != x ==> !NotNewer(x, y);
  }

  /** Records keep their ids, so well-formedness survives an insert. */
  lemma AddKeepsWellFormed(s: Store, urlId: int, latency: int, status: int, statusLabel: string, description: string,
                           now: int, insertOk: bool, pruneOk: bool)
    requires WellFormed(s)
    ensures WellFormed(AddProbeHistory(s, urlId, latency, status, statusLabel, description, now, insertOk, pruneOk).store)
  {
    var w := AddProbeHistory(s, urlId, latency, status, statusLabel, description, now, insertOk, pruneOk);
    var record := HistoryRecord(s.nextHistoryId, urlId, latency, now, status, statusLabel, description);
    AddProbeHistoryRetention(s, urlId, latency, status, statusLabel, description, now, insertOk, pruneOk);
    forall i | 0 <= i < |w.store.history| ensures w.store.history[i].id < w.store.nextHistoryId {
      var x := w.store.history[i];
      assert x in multiset(w.store.history);
      assert x in multiset(s.history) + multiset{record};
      if x != record {
        assert x in s.history;
        var j :| 0 <= j < |s.history| && s.history[j] == x;
      }
    }
  }

  // ---------------------------------------------------------------------
  // DeleteProbeHistory (`DELETE FROM probe_history WHERE url_id = ?`)
  // ---------------------------------------------------------------------

  function KeepOthers(h: seq<HistoryRecord>, urlId: int): (r: seq<HistoryRecord>)
    ensures |r| <= |h|
    ensures forall x :: x in r <==> x in h && x.urlId != urlId
  {
    if h == [] then []
    else
      var r := KeepOthers(h[..|h| - 1], urlId);
      assert h == h[..|h| - 1] + [h[|h| - 1]];
      if h[|h| - 1].urlId == urlId then r else r + [h[|h| - 1]]
  }

  function DeleteProbeHistory(s: Store, urlId: int, execOk: bool): (w: Written)
    ensures w.ok == execOk
    ensures w.store.rows == s.rows && w.store.nextHistoryId == s.nextHistoryId && w.store.interval == s.interval
    ensures !execOk ==> w.store.history == s.history
    ensures execOk ==> forall x :: x in w.store.history <==> x in s.history && x.urlId != urlId
  {
    if execOk then Written(s.(history := KeepOthers(s.history, urlId)), true) else Written(s, false)
  }

  // ---------------------------------------------------------------------
  // GetAllURLs (`SELECT ... FROM urls ORDER BY id DESC`)
  // ---------------------------------------------------------------------

  /** A loaded target: the row plus the fields GetAllURLs derives from it. */
  datatype Target = Target(row: Row, lastChecked: int, isUp: bool)

  lemma HasElement(ks: set<int>)
    requires ks != {}
    ensures exists k :: k in ks
  {
    if forall k :: k !in ks { assert false; }
  }

  lemma {:induction false} MaxExists(ks: set<int>)
    requires ks != {}
    ensures exists m :: m in ks && forall k :: k in ks ==> k <= m
    decreases |ks|
  {
    HasElement(ks);
    var x :| x in ks;
    var rest := ks - {x};
    if rest == {} {
      forall k | k in ks ensures k <= x {
        assert k in rest || k == x;
      }
    } else {
      MaxExists(rest);
      var m' :| m' in rest && forall k :: k in rest ==> k <= m';
      assert forall k :: k in ks ==> k in rest || k == x;
      if x >= m' {
        assert forall k :: k in ks ==> k <= x;
      } else {
        assert forall k :: k in ks ==> k <= m';
      }
    }
  }

  function MaxOf(ks: set<int>): (m: int)
    requires ks != {}
    ensures m in ks && forall k :: k in ks ==> k <= m
  {
    MaxExists(ks);
    var m :| m in ks && forall k :: k in ks ==> k <= m; m
  }

  /** A set of ids listed from the largest down. */
  function Descending(ks: set<int>): (r: seq<int>)
    ensures |r| == |ks|
    ensures forall k :: k in r <==> k in ks
    decreases |ks|
  {
    if ks == {} then []
    else
      var m := MaxOf(ks);
      [m] + Descending(ks - {m})
  }

  /** The listing is strictly decreasing, so it holds no id twice. */
  lemma {:induction false} DescendingOrdered(ks: set<int>)
    ensures forall i, j :: 0 <= i < j < |Descending(ks)| ==> Descending(ks)[i] > Descending(ks)[j]
    decreases |ks|
  {
    if ks != {} {
      var m := MaxOf(ks);
      var rest := Descending(ks - {m});
      DescendingOrdered(ks - {m});
      var r := Descending(ks);
      assert r == [m] + rest;
      forall i, j | 0 <= i < j < |r| ensures r[i] > r[j] {
        var x := rest[j - 1];
        assert x in rest;
        assert r[j] == x && x in ks && x != m;
        if i == 0 {
          assert r[i] == m && x <= m;
        } else {
          assert r[i] == rest[i - 1];
          assert rest[i - 1] > rest[j - 1];
        }
      }
    }
  }

  /** The targets for a list of ids, in the same order. */
  function LoadAll(s: Store, ids: seq<int>): (ts: seq<Target>)
    requires forall i :: 0 <= i < |ids| ==> ids[i] in s.rows
    ensures |ts| == |ids|
    ensures forall i :: 0 <= i < |ids| ==> ts[i] == Load(s.rows[ids[i]])
  {
    if ids == [] then [] else [Load(s.rows[ids[0]])] + LoadAll(s, ids[1..])
  }

  function Load(row: Row): (t: Target)
    ensures t.row == row
    ensures t.isUp <==> row.lastStatus == 200
    ensures row.lastChecked.Valid? ==> t.lastChecked == row.lastChecked.time
    ensures row.lastChecked.Null? ==> t.lastChecked == ZeroTime
  {
    Target(row, if row.lastChecked.Valid? then row.lastChecked.time else ZeroTime, row.lastStatus == 200)
  }

  /** Loading a duplicate-free list of ids that covers every row in
      descending order gives every row once, in that order. */
  lemma ListingFacts(s: Store, ids: seq<int>) returns (ts: seq<Target>)
    requires WellFormed(s)
    requires forall i :: 0 <= i < |ids| ==> ids[i] in s.rows
    requires forall k :: k in s.rows ==> k in ids
    requires forall i, j :: 0 <= i < j < |ids| ==> ids[i] > ids[j]
    ensures ts == LoadAll(s, ids)
    ensures IsListing(s, ts)
  {
    ts := LoadAll(s, ids);
    forall k | k in s.rows ensures exists i :: 0 <= i < |ts| && ts[i].row.id == k {
      var i :| 0 <= i < |ids| && ids[i] == k;
      assert ts[i].row.id == k;
    }
    forall i | 0 <= i < |ts| ensures ts[i].row.id == ids[i] && ts[i] == Load(s.rows[ts[i].row.id]) {
      assert ts[i] == Load(s.rows[ids[i]]);
    }
    forall i, j | 0 <= i < j < |ts| ensures ts[i].row.id > ts[j].row.id {
      assert ts[i].row.id == ids[i] && ts[j].row.id == ids[j];
    }
  }

  /** `ts` holds every row exactly once, each loaded from its own row (so
      IsUp is LastStatus == 200), in strictly descending id order. */
  predicate IsListing(s: Store, ts: seq<Target>) {
    && (forall k :: k in s.rows ==> exists i :: 0 <= i < |ts| && ts[i].row.id == k)
    && (forall i :: 0 <= i < |ts| ==> ts[i].row.id in s.rows && ts[i] == Load(s.rows[ts[i].row.id]))
    && (forall i, j :: 0 <= i < j < |ts| ==> ts[i].row.id > ts[j].row.id)
  }

  /** GetAllURLs: every row, in descending id order, with IsUp derived from
      the stored status; a query error yields no list at all. */
  function GetAllURLs(s: Store, queryOk: bool): (r: Option<seq<Target>>)
    ensures !queryOk <==> r.None?
    ensures r.Some? ==> |r.value| == |s.rows|
  {
    if !queryOk then None
    else
      var ids := Descending(s.rows.Keys);
      assert |s.rows.Keys| == |s.rows|;
      Some(LoadAll(s, ids))
  }

  /** The listing GetAllURLs returns is the table's listing. */
  lemma GetAllURLsListing(s: Store)
    requires WellFormed(s)
    ensures IsListing(s, GetAllURLs(s, true).value)
  {
    var ids := Descending(s.rows.Keys);
    DescendingOrdered(s.rows.Keys);
    var ts := ListingFacts(s, ids);
    assert GetAllURLs(s, true).value == ts;
  }
}
