/** The read queries over the history table. Each one selects records,
    joins them with their target (so a record whose target row is gone is
    not returned), orders them by timestamp and applies LIMIT/OFFSET. The
    two count queries do not join. SQL leaves the order of records with
    equal timestamps open; the model fixes one, oldest first by record id
    (the insertion order), and newest first by the reverse of that. */
module Queries {
  import opened Numeric
  import opened Store
  import opened Seqs

  /** A history record as the read queries return it. */
  datatype HistoryView = HistoryView(urlId: int, url: string, latencyMs: int, timestamp: int)

  /** The conditions the read queries put on a record. */
  datatype Filter = Everything | OfTarget(urlId: int) | Since(since: int) | OfTargetSince(urlId: int, since: int)

  predicate Keeps(f: Filter, x: HistoryRecord) {
    match f
    case Everything => true
    case OfTarget(id) => x.urlId == id
    case Since(t) => x.timestamp >= t
    case OfTargetSince(id, t) => x.urlId == id && x.timestamp >= t
  }

  // ---------------------------------------------------------------------
  // Selection and join
  // ---------------------------------------------------------------------

  /** The records the filter keeps, in their original order. */
  function Select(h: seq<HistoryRecord>, f: Filter): (r: seq<HistoryRecord>)
    ensures |r| <= |h|
  {
    if h == [] then []
    else
      var init := Select(h[..|h| - 1], f);
      var last := h[|h| - 1];
      if Keeps(f, last) then init + [last] else init
  }

  /** Selection keeps exactly the records that meet the condition. */
  lemma {:induction false} SelectMembers(h: seq<HistoryRecord>, f: Filter)
    ensures forall x :: x in Select(h, f) <==> x in h && Keeps(f, x)
  {
    if h != [] {
      SelectMembers(h[..|h| - 1], f);
      assert h == h[..|h| - 1] + [h[|h| - 1]];
    }
  }

  /** The inner join with the target table: the records whose target row
      exists, in their original order. */
  function Join(s: Store, h: seq<HistoryRecord>): (r: seq<HistoryRecord>)
    ensures |r| <= |h|
  {
    if h == [] then []
    else
      var init := Join(s, h[..|h| - 1]);
      var last := h[|h| - 1];
      if last.urlId in s.rows then init + [last] else init
  }

  /** The join keeps exactly the records whose target row exists. */
  lemma {:induction false} JoinMembers(s: Store, h: seq<HistoryRecord>)
    ensures forall x :: x in Join(s, h) <==> x in h && x.urlId in s.rows
  {
    if h != [] {
      JoinMembers(s, h[..|h| - 1]);
      assert h == h[..|h| - 1] + [h[|h| - 1]];
    }
  }

  /** When every record's target row exists the join changes nothing. */
  lemma {:induction false} JoinWhole(s: Store, h: seq<HistoryRecord>)
    requires forall i :: 0 <= i < |h| ==> h[i].urlId in s.rows
    ensures Join(s, h) == h
  {
    if h != [] {
      JoinWhole(s, h[..|h| - 1]);
      assert h == h[..|h| - 1] + [h[|h| - 1]];
    }
  }

  /** The condition-free filter selects everything. */
  lemma {:induction false} SelectEverything(h: seq<HistoryRecord>)
    ensures Select(h, Everything) == h
  {
    if h != [] {
      SelectEverything(h[..|h| - 1]);
      assert h == h[..|h| - 1] + [h[|h| - 1]];
    }
  }

  // ---------------------------------------------------------------------
  // Ordering
  // ---------------------------------------------------------------------

  /** Oldest first. */
  predicate Sorted(h: seq<HistoryRecord>) {
    forall i, j :: 0 <= i < j < |h| ==> NotNewer(h[i], h[j])
  }

  function Insert(x: HistoryRecord, h: seq<HistoryRecord>): (r: seq<HistoryRecord>)
    ensures |r| == |h| + 1
  {
    if h == [] then [x]
    else if NotNewer(x, h[0]) then [x] + h
    else [h[0]] + Insert(x, h[1..])
  }

  /** Inserting into a sorted list keeps it sorted and adds exactly `x`. */
  lemma {:induction false} InsertFacts(x: HistoryRecord, h: seq<HistoryRecord>)
    requires Sorted(h)
    ensures Sorted(Insert(x, h))
    ensures multiset(Insert(x, h)) == multiset(h) + multiset{x}
  {
    if h == [] {
    } else if NotNewer(x, h[0]) {
      TailSorted(h);
      ConsSorted(x, h);
    } else {
      var t := h[1..];
      assert h == [h[0]] + t;
      TailSorted(h);
      InsertFacts(x, t);
      BoundSurvivesInsert(h[0], x, t);
      ConsSorted(h[0], Insert(x, t));
    }
  }

  /** A record no newer than `x` and than every element of `t` is no newer
      than any element of `t` with `x` inserted. */
  lemma BoundSurvivesInsert(a: HistoryRecord, x: HistoryRecord, t: seq<HistoryRecord>)
    requires NotNewer(a, x)
    requires forall i :: 0 <= i < |t| ==> NotNewer(a, t[i])
    requires multiset(Insert(x, t)) == multiset(t) + multiset{x}
    ensures forall i :: 0 <= i < |Insert(x, t)| ==> NotNewer(a, Insert(x, t)[i])
  {
    var rest := Insert(x, t);
    forall i | 0 <= i < |rest| ensures NotNewer(a, rest[i]) {
      var y := rest[i];
      assert y in multiset(rest);
      if y != x {
        assert y in multiset(t);
        var k :| 0 <= k < |t| && t[k] == y;
      }
    }
  }

  /** The tail of a sorted list is sorted and no older than its head. */
  lemma TailSorted(h: seq<HistoryRecord>)
    requires Sorted(h) && h != []
    ensures Sorted(h[1..])
    ensures forall i :: 0 <= i < |h| - 1 ==> NotNewer(h[0], h[1..][i])
  {
    var t := h[1..];
    forall i, j | 0 <= i < j < |t| ensures NotNewer(t[i], t[j]) {
      assert t[i] == h[i + 1] && t[j] == h[j + 1];
    }
    forall i | 0 <= i < |t| ensures NotNewer(h[0], t[i]) {
      assert t[i] == h[i + 1];
    }
  }

  /** A head no newer than every element of a sorted list keeps it sorted. */
  lemma ConsSorted(a: HistoryRecord, t: seq<HistoryRecord>)
    requires Sorted(t)
    requires forall i :: 0 <= i < |t| ==> NotNewer(a, t[i])
    ensures Sorted([a] + t)
  {
    var r := [a] + t;
    forall i, j | 0 <= i < j < |r| ensures NotNewer(r[i], r[j]) {
      assert r[j] == t[j - 1];
      if i > 0 {
        assert r[i] == t[i - 1];
      }
    }
  }

  function SortAsc(h: seq<HistoryRecord>): (r: seq<HistoryRecord>)
    ensures |r| == |h|
  {
    if h == [] then [] else Insert(h[0], SortAsc(h[1..]))
  }

  /** Insertion sort: the result is sorted and a permutation of the input. */
  lemma {:induction false} SortAscFacts(h: seq<HistoryRecord>)
    ensures Sorted(SortAsc(h))
    ensures multiset(SortAsc(h)) == multiset(h)
  {
    if h != [] {
      SortAscFacts(h[1..]);
      InsertFacts(h[0], SortAsc(h[1..]));
      assert h == [h[0]] + h[1..];
    }
  }

  lemma SortKeepsMembers(h: seq<HistoryRecord>)
    ensures forall x :: x in SortAsc(h) <==> x in h
  {
    var r := SortAsc(h);
    SortAscFacts(h);
    forall x ensures x in r <==> x in h {
      assert x in r <==> x in multiset(r);
      assert x in h <==> x in multiset(h);
    }
  }

  // ---------------------------------------------------------------------
  // Join and paging
  // ---------------------------------------------------------------------

  function View(s: Store, x: HistoryRecord): HistoryView
    requires x.urlId in s.rows
  {
    HistoryView(x.urlId, s.rows[x.urlId].url, x.latencyMs, x.timestamp)
  }

  function ViewAll(s: Store, h: seq<HistoryRecord>): (r: seq<HistoryView>)
    requires forall i :: 0 <= i < |h| ==> h[i].urlId in s.rows
    ensures |r| == |h|
  {
    if h == [] then [] else [View(s, h[0])] + ViewAll(s, h[1..])
  }

  /** Each view carries the fields of its record and its target's URL. */
  lemma {:induction false} ViewAllAt(s: Store, h: seq<HistoryRecord>)
    requires forall i :: 0 <= i < |h| ==> h[i].urlId in s.rows
    ensures forall i :: 0 <= i < |h| ==> ViewAll(s, h)[i] == View(s, h[i])
  {
    if h != [] {
      ViewAllAt(s, h[1..]);
    }
  }

  /** SQLite's `LIMIT limit OFFSET offset`: a negative offset counts as 0 and
      a negative limit means no limit. */
  function Page<T>(v: seq<T>, limit: int, offset: int): (r: seq<T>)
    ensures var from := Min(Max(offset, 0), |v|);
            |r| == (if limit < 0 then |v| - from else Min(limit, |v| - from))
  {
    var from := Min(Max(offset, 0), |v|);
    var rest := v[from..];
    if limit < 0 then rest else rest[..Min(limit, |rest|)]
  }

  /** The page is a run of consecutive rows starting at the offset. */
  lemma PageAt<T>(v: seq<T>, limit: int, offset: int)
    ensures var r := Page(v, limit, offset);
            var from := Min(Max(offset, 0), |v|);
            forall i :: 0 <= i < |r| ==> r[i] == v[from + i]
  {
  }

  /** The records a query may return: those whose target row exists and
      which satisfy the query's own condition, oldest first. */
  function Chosen(s: Store, f: Filter): (r: seq<HistoryRecord>)
  {
    SortAsc(Join(s, Select(s.history, f)))
  }

  lemma ChosenFacts(s: Store, f: Filter)
    ensures Sorted(Chosen(s, f))
    ensures forall x :: x in Chosen(s, f) <==> x in s.history && x.urlId in s.rows && Keeps(f, x)
  {
    var sel := Select(s.history, f);
    SelectMembers(s.history, f);
    JoinMembers(s, sel);
    SortAscFacts(Join(s, sel));
    SortKeepsMembers(Join(s, sel));
  }

  /** The chosen records in the direction the query asks for. */
  function Ordered(c: seq<HistoryRecord>, newestFirst: bool): (o: seq<HistoryRecord>)
    ensures |o| == |c|
  {
    if newestFirst then Reverse(c) else c
  }

  lemma OrderedMembers(c: seq<HistoryRecord>, newestFirst: bool)
    ensures forall x :: x in Ordered(c, newestFirst) <==> x in c
  {
    var o := Ordered(c, newestFirst);
    if newestFirst { ReverseAt(c); }
    forall x | x in c ensures x in o {
      var i :| 0 <= i < |c| && c[i] == x;
      if newestFirst { assert o[|c| - 1 - i] == x; }
    }
    forall i | 0 <= i < |o| ensures o[i] in c {
      if newestFirst { assert o[i] == c[|c| - 1 - i]; }
    }
  }

  /** Every record of `o` has a target row and meets the condition. */
  predicate AllJoined(s: Store, f: Filter, o: seq<HistoryRecord>) {
    forall i :: 0 <= i < |o| ==> o[i].urlId in s.rows && Keeps(f, o[i])
  }

  /** Each ordered record is joined and meets the condition. */
  lemma OrderedJoined(s: Store, f: Filter, newestFirst: bool)
    ensures AllJoined(s, f, Ordered(Chosen(s, f), newestFirst))
  {
    var o := Ordered(Chosen(s, f), newestFirst);
    ChosenFacts(s, f);
    OrderedMembers(Chosen(s, f), newestFirst);
    forall i | 0 <= i < |o| ensures o[i].urlId in s.rows && Keeps(f, o[i]) {
      assert o[i] in o;
    }
  }

  /** The common shape of the history reads. */
  function Query(s: Store, f: Filter, newestFirst: bool, limit: int, offset: int): (r: seq<HistoryView>)
    ensures var n := |Chosen(s, f)|;
            var from := Min(Max(offset, 0), n);
            |r| == (if limit < 0 then n - from else Min(limit, n - from))
  {
    var o := Ordered(Chosen(s, f), newestFirst);
    OrderedJoined(s, f, newestFirst);
    Page(ViewAll(s, o), limit, offset)
  }

  /** The filter's condition read off a returned row. */
  predicate ViewKept(f: Filter, v: HistoryView) {
    match f
    case Everything => true
    case OfTarget(id) => v.urlId == id
    case Since(t) => v.timestamp >= t
    case OfTargetSince(id, t) => v.urlId == id && v.timestamp >= t
  }

  /** Row `i` of a page of views is the view of record `from + i`, where
      `from` is the clamped offset. */
  lemma ViewPageAt(s: Store, o: seq<HistoryRecord>, limit: int, offset: int) returns (r: seq<HistoryView>, from: nat)
    requires forall i :: 0 <= i < |o| ==> o[i].urlId in s.rows
    ensures r == Page(ViewAll(s, o), limit, offset)
    ensures from == Min(Max(offset, 0), |o|) && from + |r| <= |o|
    ensures forall i :: 0 <= i < |r| ==> r[i] == View(s, o[from + i])
  {
    var views := ViewAll(s, o);
    r := Page(views, limit, offset);
    from := Min(Max(offset, 0), |o|);
    PageAt(views, limit, offset);
    ViewAllAt(s, o);
    forall i | 0 <= i < |r| ensures r[i] == View(s, o[from + i]) {
      assert r[i] == views[from + i];
    }
  }

  /** Row `i` of a query is the view of record `from + i` of the ordered
      records, where `from` is the clamped offset. */
  lemma QueryAt(s: Store, f: Filter, newestFirst: bool, limit: int, offset: int)
    returns (r: seq<HistoryView>, o: seq<HistoryRecord>, from: nat)
    ensures r == Query(s, f, newestFirst, limit, offset)
    ensures o == Ordered(Chosen(s, f), newestFirst)
    ensures AllJoined(s, f, o)
    ensures from == Min(Max(offset, 0), |o|) && from + |r| <= |o|
    ensures forall i :: 0 <= i < |r| ==> r[i] == View(s, o[from + i])
  {
    o := Ordered(Chosen(s, f), newestFirst);
    OrderedJoined(s, f, newestFirst);
    r, from := ViewPageAt(s, o, limit, offset);
  }

  /** Every row a query returns is the view of a stored record that meets
      the query's condition and whose target row exists. */
  lemma QuerySound(s: Store, f: Filter, newestFirst: bool, limit: int, offset: int)
    ensures var r := Query(s, f, newestFirst, limit, offset);
            forall i :: 0 <= i < |r| ==>
              exists x :: x in s.history && x.urlId in s.rows && Keeps(f, x) && r[i] == View(s, x)
  {
    var r, o, from := QueryAt(s, f, newestFirst, limit, offset);
    ChosenFacts(s, f);
    OrderedMembers(Chosen(s, f), newestFirst);
    forall i | 0 <= i < |r|
      ensures exists x :: x in s.history && x.urlId in s.rows && Keeps(f, x) && r[i] == View(s, x)
    {
      var x := o[from + i];
      assert x in o;
    }
  }

  /** Each returned row meets the condition and carries its target's URL. */
  lemma QueryJoined(s: Store, f: Filter, newestFirst: bool, limit: int, offset: int)
    ensures var r := Query(s, f, newestFirst, limit, offset);
            forall i :: 0 <= i < |r| ==>
              r[i].urlId in s.rows && r[i].url == s.rows[r[i].urlId].url && ViewKept(f, r[i])
  {
    var r, o, from := QueryAt(s, f, newestFirst, limit, offset);
    forall i | 0 <= i < |r|
      ensures r[i].urlId in s.rows && r[i].url == s.rows[r[i].urlId].url && ViewKept(f, r[i])
    {
      var v, x := r[i], o[from + i];
      assert x.urlId in s.rows && Keeps(f, x) && v == View(s, x);
    }
  }

  /** Without LIMIT and OFFSET a query returns every such record. */
  lemma QueryComplete(s: Store, f: Filter, newestFirst: bool, offset: int)
    requires offset <= 0
    ensures forall x :: x in s.history && x.urlId in s.rows && Keeps(f, x) ==>
              View(s, x) in Query(s, f, newestFirst, -1, offset)
  {
    var o := Ordered(Chosen(s, f), newestFirst);
    OrderedJoined(s, f, newestFirst);
    var views := ViewAll(s, o);
    PageWhole(views, offset);
    ChosenFacts(s, f);
    OrderedMembers(Chosen(s, f), newestFirst);
    forall x | x in s.history && x.urlId in s.rows && Keeps(f, x) ensures View(s, x) in views {
      ViewOfMember(s, o, x);
    }
  }

  lemma PageWhole<T>(v: seq<T>, offset: int)
    requires offset <= 0
    ensures Page(v, -1, offset) == v
  {
  }

  lemma ViewOfMember(s: Store, o: seq<HistoryRecord>, x: HistoryRecord)
    requires forall i :: 0 <= i < |o| ==> o[i].urlId in s.rows
    requires x in o
    ensures x.urlId in s.rows && View(s, x) in ViewAll(s, o)
  {
    var i :| 0 <= i < |o| && o[i] == x;
    ViewAllAt(s, o);
    assert ViewAll(s, o)[i] == View(s, x);
  }

  /** Timestamps never increase along `v` (or never decrease, when
      `newestFirst` is false). */
  predicate InOrder(v: seq<HistoryView>, newestFirst: bool) {
    forall i, j :: 0 <= i < j < |v| ==>
      if newestFirst then v[i].timestamp >= v[j].timestamp else v[i].timestamp <= v[j].timestamp
  }

  lemma OrderedInOrder(s: Store, c: seq<HistoryRecord>, newestFirst: bool)
    requires Sorted(c)
    requires forall i :: 0 <= i < |c| ==> c[i].urlId in s.rows
    ensures var o := Ordered(c, newestFirst);
            (forall i :: 0 <= i < |o| ==> o[i].urlId in s.rows) && InOrder(ViewAll(s, o), newestFirst)
  {
    var o := Ordered(c, newestFirst);
    OrderedMembers(c, newestFirst);
    if newestFirst { ReverseAt(c); }
    forall i | 0 <= i < |o| ensures o[i].urlId in s.rows {
      assert o[i] in c;
    }
    var v := ViewAll(s, o);
    ViewAllAt(s, o);
    forall i, j | 0 <= i < j < |v|
      ensures if newestFirst then v[i].timestamp >= v[j].timestamp else v[i].timestamp <= v[j].timestamp
    {
      if newestFirst {
        assert NotNewer(c[|c| - 1 - j], c[|c| - 1 - i]);
      } else {
        assert NotNewer(c[i], c[j]);
      }
    }
  }

  lemma PageInOrder(v: seq<HistoryView>, newestFirst: bool, limit: int, offset: int)
    requires InOrder(v, newestFirst)
    ensures InOrder(Page(v, limit, offset), newestFirst)
  {
    PageAt(v, limit, offset);
    RunInOrder(v, Page(v, limit, offset), Min(Max(offset, 0), |v|), newestFirst);
  }

  /** A run of consecutive rows of an ordered list is ordered. */
  lemma RunInOrder(v: seq<HistoryView>, r: seq<HistoryView>, from: nat, newestFirst: bool)
    requires InOrder(v, newestFirst)
    requires from + |r| <= |v|
    requires forall i :: 0 <= i < |r| ==> r[i] == v[from + i]
    ensures InOrder(r, newestFirst)
  {
    forall i, j | 0 <= i < j < |r|
      ensures if newestFirst then r[i].timestamp >= r[j].timestamp else r[i].timestamp <= r[j].timestamp
    {
      assert r[i] == v[from + i];
      assert r[j] == v[from + j];
    }
  }

  /** A query's rows come in timestamp order: newest first or oldest first
      as asked. */
  lemma QueryOrdered(s: Store, f: Filter, newestFirst: bool, limit: int, offset: int)
    ensures InOrder(Query(s, f, newestFirst, limit, offset), newestFirst)
  {
    var c := Chosen(s, f);
    ChosenFacts(s, f);
    forall i | 0 <= i < |c| ensures c[i].urlId in s.rows {
      assert c[i] in c;
    }
    OrderedInOrder(s, c, newestFirst);
    PageInOrder(ViewAll(s, Ordered(c, newestFirst)), newestFirst, limit, offset);
  }

  // ---------------------------------------------------------------------
  // The queries
  // ---------------------------------------------------------------------

  /** GetProbeHistory: the newest `limit` records of one target. */
  function GetProbeHistory(s: Store, urlId: int, limit: int): (r: seq<HistoryView>)
    ensures limit >= 0 ==> |r| <= limit
  {
    Query(s, OfTarget(urlId), true, limit, 0)
  }

  /** GetAllProbeHistory: the newest `limit` records over all targets. */
  function GetAllProbeHistory(s: Store, limit: int): (r: seq<HistoryView>)
    ensures limit >= 0 ==> |r| <= limit
  {
    Query(s, Everything, true, limit, 0)
  }

  /** GetAllProbeHistoryPaged: one page of the newest-first list. */
  function GetAllProbeHistoryPaged(s: Store, limit: int, offset: int): (r: seq<HistoryView>)
    ensures limit >= 0 ==> |r| <= limit
    ensures offset >= |Chosen(s, Everything)| ==> r == []
  {
    Query(s, Everything, true, limit, offset)
  }

  /** GetAllProbeHistoryByRangePaged: one page of the newest-first list of
      the records stamped at or after `since`. */
  function GetAllProbeHistoryByRangePaged(s: Store, since: int, limit: int, offset: int): (r: seq<HistoryView>)
    ensures limit >= 0 ==> |r| <= limit
    ensures offset >= |Chosen(s, Since(since))| ==> r == []
  {
    Query(s, Since(since), true, limit, offset)
  }

  /** GetProbeHistoryByRange: every record of one target stamped at or after
      `since`, oldest first. */
  function GetProbeHistoryByRange(s: Store, urlId: int, since: int): (r: seq<HistoryView>)
    ensures |r| == |Chosen(s, OfTargetSince(urlId, since))|
  {
    Query(s, OfTargetSince(urlId, since), false, -1, 0)
  }

  /** GetProbeHistory returns only the asked target's records, each carrying
      that target's URL, newest first. */
  lemma GetProbeHistoryFacts(s: Store, urlId: int, limit: int)
    ensures var r := GetProbeHistory(s, urlId, limit);
            (forall i :: 0 <= i < |r| ==> r[i].urlId == urlId && urlId in s.rows && r[i].url == s.rows[urlId].url)
            && InOrder(r, true)
  {
    QueryJoined(s, OfTarget(urlId), true, limit, 0);
    QueryOrdered(s, OfTarget(urlId), true, limit, 0);
  }

  /** GetAllProbeHistory returns only joined records, each carrying its
      target's URL, newest first. */
  lemma GetAllProbeHistoryFacts(s: Store, limit: int)
    ensures var r := GetAllProbeHistory(s, limit);
            (forall i :: 0 <= i < |r| ==> r[i].urlId in s.rows && r[i].url == s.rows[r[i].urlId].url)
            && InOrder(r, true)
  {
    QueryJoined(s, Everything, true, limit, 0);
    QueryOrdered(s, Everything, true, limit, 0);
  }

  /** A range page holds only records stamped at or after `since`, newest
      first. */
  lemma GetAllProbeHistoryByRangePagedFacts(s: Store, since: int, limit: int, offset: int)
    ensures var r := GetAllProbeHistoryByRangePaged(s, since, limit, offset);
            (forall i :: 0 <= i < |r| ==> r[i].timestamp >= since)
            && InOrder(r, true)
  {
    QueryJoined(s, Since(since), true, limit, offset);
    QueryOrdered(s, Since(since), true, limit, offset);
  }

  /** The per-target range read returns exactly that target's records
      stamped at or after `since` (every one of them, when the target row
      exists), oldest first. */
  lemma GetProbeHistoryByRangeFacts(s: Store, urlId: int, since: int)
    ensures var r := GetProbeHistoryByRange(s, urlId, since);
            (forall i :: 0 <= i < |r| ==> r[i].urlId == urlId && r[i].timestamp >= since)
            && InOrder(r, false)
            && (forall x :: x in s.history && x.urlId == urlId && x.timestamp >= since && urlId in s.rows ==> View(s, x) in r)
  {
    QueryJoined(s, OfTargetSince(urlId, since), false, -1, 0);
    QueryOrdered(s, OfTargetSince(urlId, since), false, -1, 0);
    QueryComplete(s, OfTargetSince(urlId, since), false, 0);
  }

  /** CountProbeHistory: every record, joined or not. */
  function CountProbeHistory(s: Store): (n: nat)
  {
    |s.history|
  }

  /** CountProbeHistoryByRange: the records stamped at or after `since`,
      joined or not. */
  function CountProbeHistoryByRange(s: Store, since: int): (n: nat)
    ensures n <= CountProbeHistory(s)
  {
    |Select(s.history, Since(since))|
  }

  /** The counts do not join, the pages do: each count is an upper bound on
      the records the pages can show, and exact when no record has lost its
      target row. */
  lemma CountBoundsPages(s: Store, since: int)
    ensures CountProbeHistoryByRange(s, since) >= |Chosen(s, Since(since))|
    ensures CountProbeHistory(s) >= |Chosen(s, Everything)|
    ensures (forall i :: 0 <= i < |s.history| ==> s.history[i].urlId in s.rows) ==>
              CountProbeHistoryByRange(s, since) == |Chosen(s, Since(since))|
              && CountProbeHistory(s) == |Chosen(s, Everything)|
  {
    SelectEverything(s.history);
    var sel := Select(s.history, Since(since));
    if forall i :: 0 <= i < |s.history| ==> s.history[i].urlId in s.rows {
      SelectMembers(s.history, Since(since));
      forall i | 0 <= i < |sel| ensures sel[i].urlId in s.rows {
        assert sel[i] in sel;
      }
      JoinWhole(s, sel);
      JoinWhole(s, s.history);
    }
  }
}
