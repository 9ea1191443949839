/** The pure helpers of the latency chart: averaging the points over time
    buckets, the colour of the line, the padding of the y axis and the
    settings each range selects. Times and latencies are integer
    milliseconds; JavaScript's `Math.round` of an exact quotient is
    `RoundDiv`, and `Math.floor(x / b)` for a positive width is Dafny's
    `x / b`. */
module Chart {
  import opened Numeric
  import opened Optional
  import Ranges
  import Seqs

  /** A chart point: a time `x` and a latency `y`. */
  datatype Point = Point(x: int, y: int)

  // ---------------------------------------------------------------------
  // Bucket averaging
  // ---------------------------------------------------------------------

  /** The bucket a time falls in; bucket `s` is `[s * b, s * b + b)`. */
  function Slot(x: int, b: int): int
    requires b > 0
  {
    x / b
  }

  /** Where the bucket of time `x` ends. */
  function BucketEnd(x: int, b: int): int
    requires b > 0
  {
    Slot(x, b) * b + b
  }

  /** A time lies before the end of bucket `s` exactly when its own bucket
      is `s` or an earlier one. */
  lemma BeforeEnd(x: int, s: int, b: int)
    requires b > 0
    ensures x < s * b + b <==> Slot(x, b) <= s
  {
    var q := Slot(x, b);
    assert q * b <= x < q * b + b;
    if q <= s {
      MulMonotone(b, q, s);
    } else {
      MulMonotone(b, s + 1, q);
    }
  }

  /** A time lies before the end of its own bucket. */
  lemma BeforeOwnEnd(x: int, b: int)
    requires b > 0
    ensures x < BucketEnd(x, b)
  {
    BeforeEnd(x, Slot(x, b), b);
  }

  /** Later times never fall in earlier buckets. */
  lemma SlotMonotone(x1: int, x2: int, b: int)
    requires b > 0
    requires x1 <= x2
    ensures Slot(x1, b) <= Slot(x2, b)
  {
    BeforeEnd(x1, Slot(x2, b), b);
  }

  /** Where the inner loop stops when it starts at `i`: the first index from
      `i` on whose time is not before `end`. */
  function RunEnd(p: seq<Point>, i: nat, end: int): (j: nat)
    requires i <= |p|
    ensures i <= j <= |p|
    decreases |p| - i
  {
    if i == |p| || p[i].x >= end then i else RunEnd(p, i + 1, end)
  }

  /** The run ends at the first point that is not before `end`. */
  lemma {:induction false} RunEndIs(p: seq<Point>, i: nat, end: int, j: nat)
    requires i <= j <= |p|
    requires forall k :: i <= k < j ==> p[k].x < end
    requires j < |p| ==> p[j].x >= end
    ensures RunEnd(p, i, end) == j
    decreases j - i
  {
    if i < j {
      RunEndIs(p, i + 1, end, j);
    }
  }

  lemma {:induction false} RunEndBounds(p: seq<Point>, i: nat, end: int)
    requires i <= |p|
    ensures forall k :: i <= k < RunEnd(p, i, end) ==> p[k].x < end
    ensures RunEnd(p, i, end) < |p| ==> p[RunEnd(p, i, end)].x >= end
    decreases |p| - i
  {
    if i < |p| && p[i].x < end {
      RunEndBounds(p, i + 1, end);
    }
  }

  /** The latencies of the points with index in `[i, j)`, added up. */
  function SumRange(p: seq<Point>, i: nat, j: nat): int
    requires i <= j <= |p|
    decreases j - i
  {
    if i == j then 0 else SumRange(p, i, j - 1) + p[j - 1].y
  }

  /** bucketAverage from index `i` on, for a positive width: the point at `i`
      opens its bucket, the run of points before the bucket's end becomes
      one point at the run's last time carrying the rounded mean latency,
      and bucketing goes on from where the run stopped. */
  function BucketsFrom(p: seq<Point>, i: nat, b: int): (r: seq<Point>)
    requires b > 0
    requires i <= |p|
    ensures |r| <= |p| - i
    ensures r == [] <==> i == |p|
    decreases |p| - i
  {
    if i == |p| then []
    else
      var j := RunEnd(p, i, BucketEnd(p[i].x, b));
      BeforeOwnEnd(p[i].x, b);
      [Point(p[j - 1].x, RoundDiv(SumRange(p, i, j), j - i))] + BucketsFrom(p, j, b)
  }

  /** bucketAverage for a positive width: never longer than its input, and
      empty only for empty input. */
  function Buckets(p: seq<Point>, b: int): (r: seq<Point>)
    requires b > 0
    ensures |r| <= |p|
    ensures r == [] <==> p == []
  {
    BucketsFrom(p, 0, b)
  }

  /** One step of the bucketing: the first run, then the rest. */
  lemma BucketsStep(p: seq<Point>, i: nat, b: int)
    requires b > 0
    requires i < |p|
    ensures var j := RunEnd(p, i, BucketEnd(p[i].x, b));
            && i < j
            && BucketsFrom(p, i, b) == [Point(p[j - 1].x, RoundDiv(SumRange(p, i, j), j - i))] + BucketsFrom(p, j, b)
  {
    BeforeOwnEnd(p[i].x, b);
  }

  /** The inner loop of bucketAverage: from index `i` on, add up the
      points before `end`, remembering the last time seen. */
  method SumRun(points: seq<Point>, i: nat, end: int) returns (next: nat, sum: int, count: nat, lastX: int)
    requires i < |points|
    requires points[i].x < end
    ensures next == RunEnd(points, i, end)
    ensures i < next && count == next - i
    ensures sum == SumRange(points, i, next)
    ensures lastX == points[next - 1].x
  {
    next := i;
    sum := 0;
    count := 0;
    lastX := points[i].x;
    while next < |points| && points[next].x < end
      invariant i <= next <= |points|
      invariant forall k :: i <= k < next ==> points[k].x < end
      invariant count == next - i
      invariant sum == SumRange(points, i, next)
      invariant next > i ==> lastX == points[next - 1].x
      decreases |points| - next
    {
      sum := sum + points[next].y;
      count := count + 1;
      lastX := points[next].x;
      next := next + 1;
    }
    RunEndIs(points, i, end, next);
  }

  /** bucketAverage: no points give none, a width that is not positive
      leaves the points as they are, and otherwise each run of points
      before the end of the bucket its first point opens is averaged into
      one point. */
  method BucketAverage(points: seq<Point>, bucketMs: int) returns (out: seq<Point>)
    ensures points == [] ==> out == []
    ensures points != [] && bucketMs <= 0 ==> out == points
    ensures bucketMs > 0 ==> out == Buckets(points, bucketMs)
    ensures |out| <= |points|
  {
    if |points| == 0 {
      return [];
    }
    if bucketMs <= 0 {
      return points;
    }
    out := [];
    var i := 0;
    while i < |points|
      invariant 0 <= i <= |points|
      invariant |out| <= i
      invariant out + BucketsFrom(points, i, bucketMs) == Buckets(points, bucketMs)
      decreases |points| - i
    {
      var start := Slot(points[i].x, bucketMs) * bucketMs;
      var end := start + bucketMs;
      BucketsStep(points, i, bucketMs);
      // The bucket's first point always lies before its end, so the run is
      // never empty and the source's `count > 0` test always passes.
      BeforeOwnEnd(points[i].x, bucketMs);
      var next, sum, count, lastX := SumRun(points, i, end);
      ghost var prev := out;
      out := out + [Point(lastX, RoundDiv(sum, count))];
      assert out + BucketsFrom(points, next, bucketMs) == prev + BucketsFrom(points, i, bucketMs);
      i := next;
    }
  }

  /** Oldest first, as the chart sorts its points before bucketing. */
  predicate SortedByTime(p: seq<Point>) {
    forall i, j :: 0 <= i < j < |p| ==> p[i].x <= p[j].x
  }

  /** How many of the points with index in `[i, j)` lie in bucket `s`, and
      their latencies added up. */
  function CountIn(p: seq<Point>, i: nat, j: nat, s: int, b: int): (n: nat)
    requires b > 0
    requires i <= j <= |p|
    decreases j - i
  {
    if i == j then 0 else CountIn(p, i, j - 1, s, b) + (if Slot(p[j - 1].x, b) == s then 1 else 0)
  }

  function SumIn(p: seq<Point>, i: nat, j: nat, s: int, b: int): int
    requires b > 0
    requires i <= j <= |p|
    decreases j - i
  {
    if i == j then 0 else SumIn(p, i, j - 1, s, b) + (if Slot(p[j - 1].x, b) == s then p[j - 1].y else 0)
  }

  /** Counting and adding up over `[i, k)` is doing it over `[i, j)` and
      then over `[j, k)`. */
  lemma {:induction false} InSplit(p: seq<Point>, i: nat, j: nat, k: nat, s: int, b: int)
    requires b > 0
    requires i <= j <= k <= |p|
    ensures CountIn(p, i, k, s, b) == CountIn(p, i, j, s, b) + CountIn(p, j, k, s, b)
    ensures SumIn(p, i, k, s, b) == SumIn(p, i, j, s, b) + SumIn(p, j, k, s, b)
    decreases k - j
  {
    if j < k {
      InSplit(p, i, j, k - 1, s, b);
    }
  }

  /** A range lying wholly in bucket `s` counts every point. */
  lemma {:induction false} InAll(p: seq<Point>, i: nat, j: nat, s: int, b: int)
    requires b > 0
    requires i <= j <= |p|
    requires forall k :: i <= k < j ==> Slot(p[k].x, b) == s
    ensures CountIn(p, i, j, s, b) == j - i
    ensures SumIn(p, i, j, s, b) == SumRange(p, i, j)
    decreases j - i
  {
    if i < j {
      InAll(p, i, j - 1, s, b);
    }
  }

  /** A range wholly outside bucket `s` counts nothing. */
  lemma {:induction false} InNone(p: seq<Point>, i: nat, j: nat, s: int, b: int)
    requires b > 0
    requires i <= j <= |p|
    requires forall k :: i <= k < j ==> Slot(p[k].x, b) != s
    ensures CountIn(p, i, j, s, b) == 0
    ensures SumIn(p, i, j, s, b) == 0
    decreases j - i
  {
    if i < j {
      InNone(p, i, j - 1, s, b);
    }
  }

  /** The first bucket from `i` on, in a sorted list: the run `[i, j)` is
      exactly the points in the bucket of `p[i]`, and every later point lies
      in a later bucket and after the run. */
  lemma FirstBucket(p: seq<Point>, i: nat, b: int) returns (j: nat)
    requires b > 0
    requires SortedByTime(p)
    requires i < |p|
    ensures j == RunEnd(p, i, BucketEnd(p[i].x, b))
    ensures i < j <= |p|
    ensures forall k :: i <= k < j ==> Slot(p[k].x, b) == Slot(p[i].x, b)
    ensures forall k :: j <= k < |p| ==> Slot(p[k].x, b) > Slot(p[i].x, b) && p[k].x > p[j - 1].x
  {
    var s0 := Slot(p[i].x, b);
    var end := BucketEnd(p[i].x, b);
    j := RunEnd(p, i, end);
    RunEndBounds(p, i, end);
    BeforeOwnEnd(p[i].x, b);
    forall k | i <= k < j ensures Slot(p[k].x, b) == s0 {
      BeforeEnd(p[k].x, s0, b);
      SlotMonotone(p[i].x, p[k].x, b);
    }
    forall k | j <= k < |p| ensures Slot(p[k].x, b) > s0 && p[k].x > p[j - 1].x {
      assert p[k].x >= p[j].x >= end;
      BeforeEnd(p[k].x, s0, b);
    }
  }

  /** For sorted points the averaged points come in strictly increasing
      time, none before the point bucketing starts from. */
  lemma {:induction false} BucketsIncreasing(p: seq<Point>, i: nat, b: int)
    requires b > 0
    requires SortedByTime(p)
    requires i <= |p|
    ensures var r := BucketsFrom(p, i, b);
            && (forall m :: 0 <= m < |r| ==> i < |p| && p[i].x <= r[m].x)
            && (forall m, n :: 0 <= m < n < |r| ==> r[m].x < r[n].x)
    decreases |p| - i
  {
    if i < |p| {
      var j := FirstBucket(p, i, b);
      BucketsStep(p, i, b);
      var r := BucketsFrom(p, i, b);
      var tail := BucketsFrom(p, j, b);
      BucketsIncreasing(p, j, b);
      forall m | 1 <= m < |r| ensures p[j - 1].x < r[m].x {
        assert r[m] == tail[m - 1];
      }
      forall m, n | 0 <= m < n < |r| ensures r[m].x < r[n].x {
        if m > 0 {
          assert r[m] == tail[m - 1] && r[n] == tail[n - 1];
        }
      }
      forall m | 0 <= m < |r| ensures p[i].x <= r[m].x {
        if m > 0 {
          assert r[m] == tail[m - 1];
        }
      }
    }
  }

  /** Point `pt` stands for its bucket among the points from index `i` on:
      its time is the latest time of a point in that bucket, and its
      latency is the rounded mean latency of all the points in that
      bucket. */
  predicate Represents(p: seq<Point>, i: nat, b: int, pt: Point)
    requires b > 0
    requires i <= |p|
  {
    var s := Slot(pt.x, b);
    && CountIn(p, i, |p|, s, b) >= 1
    && pt.y == RoundDiv(SumIn(p, i, |p|, s, b), CountIn(p, i, |p|, s, b))
    && (exists k :: i <= k < |p| && p[k].x == pt.x)
    && (forall k :: i <= k < |p| && Slot(p[k].x, b) == s ==> p[k].x <= pt.x)
  }

  /** The averaged point of the first run stands for its bucket. */
  lemma RepresentsFirst(p: seq<Point>, i: nat, j: nat, b: int)
    requires b > 0
    requires i < j <= |p|
    requires forall k :: i <= k < j ==> Slot(p[k].x, b) == Slot(p[i].x, b)
    requires forall k :: j <= k < |p| ==> Slot(p[k].x, b) > Slot(p[i].x, b)
    requires SortedByTime(p)
    ensures Represents(p, i, b, Point(p[j - 1].x, RoundDiv(SumRange(p, i, j), j - i)))
  {
    var s0 := Slot(p[i].x, b);
    assert Slot(p[j - 1].x, b) == s0;
    InSplit(p, i, j, |p|, s0, b);
    InAll(p, i, j, s0, b);
    InNone(p, j, |p|, s0, b);
  }

  /** A point standing for a bucket beyond the first run still does so once
      the first run is counted in. */
  lemma RepresentsLater(p: seq<Point>, i: nat, j: nat, b: int, pt: Point)
    requires b > 0
    requires i <= j <= |p|
    requires forall k :: i <= k < j ==> Slot(p[k].x, b) < Slot(pt.x, b)
    requires Represents(p, j, b, pt)
    ensures Represents(p, i, b, pt)
  {
    var s := Slot(pt.x, b);
    InSplit(p, i, j, |p|, s, b);
    InNone(p, i, j, s, b);
    var k :| j <= k < |p| && p[k].x == pt.x;
  }

  /** For sorted points each averaged point stands for its bucket. */
  lemma {:induction false} BucketsAverageTheirBucket(p: seq<Point>, i: nat, b: int)
    requires b > 0
    requires SortedByTime(p)
    requires i <= |p|
    ensures var r := BucketsFrom(p, i, b);
            forall m :: 0 <= m < |r| ==> Represents(p, i, b, r[m])
    decreases |p| - i
  {
    if i < |p| {
      var j := FirstBucket(p, i, b);
      BucketsStep(p, i, b);
      var r := BucketsFrom(p, i, b);
      var tail := BucketsFrom(p, j, b);
      BucketsAverageTheirBucket(p, j, b);
      BucketsIncreasing(p, j, b);
      RepresentsFirst(p, i, j, b);
      forall m | 1 <= m < |r| ensures Represents(p, i, b, r[m]) {
        assert r[m] == tail[m - 1];
        SlotMonotone(p[j].x, r[m].x, b);
        RepresentsLater(p, i, j, b, r[m]);
      }
    }
  }

  /** For sorted points every point's bucket is represented in the output. */
  lemma {:induction false} BucketsCoverInput(p: seq<Point>, i: nat, b: int)
    requires b > 0
    requires SortedByTime(p)
    requires i <= |p|
    ensures var r := BucketsFrom(p, i, b);
            forall k :: i <= k < |p| ==> exists m :: 0 <= m < |r| && Slot(r[m].x, b) == Slot(p[k].x, b)
    decreases |p| - i
  {
    if i < |p| {
      var j := FirstBucket(p, i, b);
      BucketsStep(p, i, b);
      var r := BucketsFrom(p, i, b);
      var tail := BucketsFrom(p, j, b);
      BucketsCoverInput(p, j, b);
      forall k | i <= k < |p| ensures exists m :: 0 <= m < |r| && Slot(r[m].x, b) == Slot(p[k].x, b) {
        if k < j {
          assert Slot(r[0].x, b) == Slot(p[k].x, b);
        } else {
          var m :| 0 <= m < |tail| && Slot(tail[m].x, b) == Slot(p[k].x, b);
          assert r[m + 1] == tail[m];
        }
      }
    }
  }

  // ---------------------------------------------------------------------
  // Line colour
  // ---------------------------------------------------------------------

  datatype Palette = Green | Red

  /** pickUniformColor: green when the latency fell from the first value to
      the last one (or there are too few values to tell), red otherwise. */
  function PickUniformColor(values: seq<int>): (c: Palette)
    ensures c == Red <==> |values| >= 2 && values[0] <= values[|values| - 1]
  {
    if |values| < 2 then Green
    else
      var first := values[0];
      var last := values[|values| - 1];
      if first > last then Green else Red
  }

  /** Read backwards, a series whose ends differ changes colour. */
  lemma ColorFlipsWhenReversed(values: seq<int>)
    requires |values| >= 2 && values[0] != values[|values| - 1]
    ensures PickUniformColor(Seqs.Reverse(values)) != PickUniformColor(values)
  {
    Seqs.ReverseAt(values);
  }

  // ---------------------------------------------------------------------
  // Y axis padding
  // ---------------------------------------------------------------------

  /** The least and the greatest of the first `n` values. */
  function LowestOf(v: seq<int>, n: nat): (m: int)
    requires 1 <= n <= |v|
    ensures forall i :: 0 <= i < n ==> m <= v[i]
  {
    if n == 1 then v[0] else Min(LowestOf(v, n - 1), v[n - 1])
  }

  function HighestOf(v: seq<int>, n: nat): (m: int)
    requires 1 <= n <= |v|
    ensures forall i :: 0 <= i < n ==> v[i] <= m
  {
    if n == 1 then v[0] else Max(HighestOf(v, n - 1), v[n - 1])
  }

  /** Both are among the values. */
  lemma {:induction false} ExtremesAreValues(v: seq<int>, n: nat)
    requires 1 <= n <= |v|
    ensures exists i :: 0 <= i < n && LowestOf(v, n) == v[i]
    ensures exists i :: 0 <= i < n && HighestOf(v, n) == v[i]
  {
    if n > 1 {
      ExtremesAreValues(v, n - 1);
      var i :| 0 <= i < n - 1 && LowestOf(v, n - 1) == v[i];
      var k :| 0 <= k < n - 1 && HighestOf(v, n - 1) == v[k];
      if LowestOf(v, n) != v[n - 1] { assert LowestOf(v, n) == v[i]; }
      if HighestOf(v, n) != v[n - 1] { assert HighestOf(v, n) == v[k]; }
    } else {
      assert LowestOf(v, n) == v[0] && HighestOf(v, n) == v[0];
    }
  }

  function Lowest(v: seq<int>): int
    requires v != []
  {
    LowestOf(v, |v|)
  }

  function Highest(v: seq<int>): int
    requires v != []
  {
    HighestOf(v, |v|)
  }

  /** The y axis bounds. */
  datatype YRange = YRange(lo: int, hi: int)

  /** The first loop of getYRangePadding: the least and the greatest
      value. */
  method Extremes(values: seq<int>) returns (min: int, max: int)
    requires values != []
    ensures min == Lowest(values) && max == Highest(values)
  {
    min := values[0];
    max := values[0];
    var i := 1;
    while i < |values|
      invariant 1 <= i <= |values|
      invariant min == LowestOf(values, i) && max == HighestOf(values, i)
    {
      if values[i] < min {
        min := values[i];
      }
      if values[i] > max {
        max := values[i];
      }
      i := i + 1;
    }
  }

  /** The pad getYRangePadding puts on both sides: a tenth of the value for
      a flat series, 15% of the spread otherwise, and never less than 5. */
  function Pad(lo: int, hi: int): (pad: int)
    ensures pad >= 5
  {
    Max(5, if lo == hi then RoundDiv(lo, 10) else RoundDiv(15 * (hi - lo), 100))
  }

  /** getYRangePadding: the same pad below the least value (but never
      below 0) and above the greatest; `None` stands for the undefined
      bounds of an empty series. */
  method YRangePadding(values: seq<int>) returns (r: Option<YRange>)
    ensures r.None? <==> values == []
    ensures r.Some? ==>
              var lo, hi := Lowest(values), Highest(values);
              && r.value.hi == hi + Pad(lo, hi)
              && r.value.lo == Max(0, lo - Pad(lo, hi))
              && 0 <= r.value.lo
              && (lo >= 0 ==> forall i :: 0 <= i < |values| ==> r.value.lo <= values[i])
              && (forall i :: 0 <= i < |values| ==> values[i] + 5 <= r.value.hi)
  {
    if |values| == 0 {
      return None;
    }
    var min, max := Extremes(values);
    if min == max {
      var pad := Max(5, RoundDiv(min, 10));
      return Some(YRange(Max(0, min - pad), max + pad));
    }
    var span := max - min;
    var pad := Max(5, RoundDiv(15 * span, 100));
    return Some(YRange(Max(0, min - pad), max + pad));
  }

  // ---------------------------------------------------------------------
  // Per-range settings
  // ---------------------------------------------------------------------

  const SecondMs := 1000
  const MinuteMs := 60 * SecondMs
  const HourMs := 60 * MinuteMs

  /** `range || '1d'`: a missing (empty) range reads as one day. */
  function Effective(range: string): (r: string)
    ensures r != ""
    ensures range != "" ==> r == range
  {
    if range == "" then "1d" else range
  }

  /** getBucketMs: the width of the averaging buckets. */
  function BucketMs(range: string): (ms: int)
    ensures ms > 0
  {
    match Effective(range)
    case "1m" => 6 * HourMs
    case "1w" => 2 * HourMs
    case "1d" => 2 * HourMs
    case "4h" => 5 * MinuteMs
    case "1h" => 5 * MinuteMs
    case "1min" => SecondMs
    case "30s" => SecondMs
    case "10s" => SecondMs
    case "1s" => SecondMs
    case _ => 2 * HourMs
  }

  /** getRefreshMs: how often the chart reloads. */
  function RefreshMs(range: string): (ms: int)
    ensures ms > 0
  {
    match Effective(range)
    case "1s" => 1000
    case "10s" => 2000
    case "30s" => 2000
    case "1min" => 3000
    case "1h" => 5000
    case "4h" => 10000
    case "1d" => 15000
    case "1w" => 30000
    case "1m" => 60000
    case _ => 15000
  }

  /** getDecimationSamples: how many points the chart keeps. */
  function DecimationSamples(range: string): (n: int)
    ensures n > 0
  {
    match Effective(range)
    case "1s" => 30
    case "10s" => 60
    case "30s" => 120
    case "1min" => 180
    case "1h" => 240
    case "4h" => 360
    case "1d" => 480
    case "1w" => 700
    case "1m" => 900
    case _ => 480
  }

  /** getZoomSpeed, in hundredths: finer zoom steps for the short ranges.
      The one-second range is not among them and gets the default. */
  function ZoomSpeed(range: string): (h: int)
    ensures h > 0
  {
    var r := Effective(range);
    if r == "10s" || r == "30s" || r == "1min" then 4
    else if r == "1h" || r == "4h" then 6
    else 8
  }

  /** Every setting of a missing or unlisted range is the one-day setting. */
  lemma DefaultsAreOneDay(range: string)
    requires range !in Ranges.RangeNames
    ensures BucketMs(range) == BucketMs("1d") == 2 * HourMs
    ensures RefreshMs(range) == RefreshMs("1d") == 15000
    ensures DecimationSamples(range) == DecimationSamples("1d") == 480
    ensures ZoomSpeed(range) == ZoomSpeed("1d") == 8
  {
    assert Effective(range) == "1d" || Effective(range) !in Ranges.RangeNames;
  }

  /** Along the ranges the interface offers, longer ranges use buckets at
      least as wide, reload no more often and keep more points. */
  lemma BucketsWidenWithRange()
    ensures forall i, j :: 0 <= i < j < |Ranges.RangeOrder| ==>
              BucketMs(Ranges.RangeOrder[i]) <= BucketMs(Ranges.RangeOrder[j])
  {
    var order := Ranges.RangeOrder;
    assert order == ["1s", "10s", "30s", "1min", "1h", "4h", "1d", "1w", "1m"];
    var widths := [SecondMs, SecondMs, SecondMs, SecondMs, 5 * MinuteMs, 5 * MinuteMs, 2 * HourMs, 2 * HourMs, 6 * HourMs];
    assert forall k :: 0 <= k < |order| ==> BucketMs(order[k]) == widths[k];
  }

  lemma RefreshSlowsWithRange()
    ensures forall i, j :: 0 <= i < j < |Ranges.RangeOrder| ==>
              RefreshMs(Ranges.RangeOrder[i]) <= RefreshMs(Ranges.RangeOrder[j])
  {
    var order := Ranges.RangeOrder;
    assert order == ["1s", "10s", "30s", "1min", "1h", "4h", "1d", "1w", "1m"];
    var periods := [1000, 2000, 2000, 3000, 5000, 10000, 15000, 30000, 60000];
    assert forall k :: 0 <= k < |order| ==> RefreshMs(order[k]) == periods[k];
  }

  lemma SamplesGrowWithRange()
    ensures forall i, j :: 0 <= i < j < |Ranges.RangeOrder| ==>
              DecimationSamples(Ranges.RangeOrder[i]) < DecimationSamples(Ranges.RangeOrder[j])
  {
    var order := Ranges.RangeOrder;
    assert order == ["1s", "10s", "30s", "1min", "1h", "4h", "1d", "1w", "1m"];
    var samples := [30, 60, 120, 180, 240, 360, 480, 700, 900];
    assert forall k :: 0 <= k < |order| ==> DecimationSamples(order[k]) == samples[k];
  }
}
