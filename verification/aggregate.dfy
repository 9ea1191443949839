/** The result aggregator of one scheduler tick for one target: the N attempt
    results, in the order they were drained from the result channel, are
    reduced to an average latency, a success flag, a count of status-200
    attempts and a representative status. */
module Aggregate {
  import opened Numeric
  import opened Probe
  import opened Seqs

  /** The aggregated outcome of one target in one tick. */
  datatype Outcome = Outcome(
    totalLatency: int,
    avgLatency: int,
    hasSuccess: bool,
    successCount: nat,
    lastStatus: int)

  // ---------------------------------------------------------------------
  // Reference definitions over the whole drained sequence
  // ---------------------------------------------------------------------

  /** An attempt counts as a success when it got any status at all. */
  predicate Succeeded(r: ProbeResult) { r.statusCode > 0 }

  function SumLatency(rs: seq<ProbeResult>): int
  {
    if rs == [] then 0 else SumLatency(rs[..|rs| - 1]) + rs[|rs| - 1].latencyMs
  }

  function CountOK(rs: seq<ProbeResult>): nat
  {
    if rs == [] then 0 else CountOK(rs[..|rs| - 1]) + (if rs[|rs| - 1].statusCode == StatusOK then 1 else 0)
  }

  predicate AnySuccess(rs: seq<ProbeResult>)
  {
    exists i :: 0 <= i < |rs| && Succeeded(rs[i])
  }

  /** The status of the last successful attempt in drain order, or 0. */
  function LastSuccessStatus(rs: seq<ProbeResult>): int
  {
    if rs == [] then 0
    else if Succeeded(rs[|rs| - 1]) then rs[|rs| - 1].statusCode
    else LastSuccessStatus(rs[..|rs| - 1])
  }

  // ---------------------------------------------------------------------
  // The drain loop
  // ---------------------------------------------------------------------

  /** The collection loop of the scheduler: every result adds its latency; a
      result with a positive status becomes the representative status and
      marks the target as having a success; status 200 is counted. The
      average is the Go (truncating) quotient by the target's attempt count. */
  method Drain(results: seq<ProbeResult>, threadCount: int) returns (o: Outcome)
    requires threadCount >= 1
    ensures o.totalLatency == SumLatency(results)
    ensures o.avgLatency == GoDiv(SumLatency(results), threadCount)
    ensures o.hasSuccess <==> AnySuccess(results)
    ensures o.successCount == CountOK(results)
    ensures o.lastStatus == LastSuccessStatus(results)
  {
    var totalLatency := 0;
    var successCount := 0;
    var lastStatus := 0;
    var hasSuccess := false;
    var i := 0;
    while i < |results|
      invariant 0 <= i <= |results|
      invariant totalLatency == SumLatency(results[..i])
      invariant successCount == CountOK(results[..i])
      invariant lastStatus == LastSuccessStatus(results[..i])
      invariant hasSuccess <==> AnySuccess(results[..i])
    {
      var r := results[i];
      assert results[..i + 1][..i] == results[..i];
      totalLatency := totalLatency + r.latencyMs;
      if r.statusCode > 0 {
        lastStatus := r.statusCode;
        hasSuccess := true;
        if r.statusCode == StatusOK {
          successCount := successCount + 1;
        }
      }
      assert AnySuccess(results[..i + 1]) <==> AnySuccess(results[..i]) || Succeeded(r) by {
        if AnySuccess(results[..i]) {
          var j :| 0 <= j < i && Succeeded(results[..i][j]);
          assert results[..i + 1][j] == results[..i][j];
        }
        if Succeeded(r) {
          assert results[..i + 1][i] == r;
        }
      }
      i := i + 1;
    }
    assert results[..i] == results;
    o := Outcome(totalLatency, GoDiv(totalLatency, threadCount), hasSuccess, successCount, lastStatus);
  }

  /** The same reduction as a function, for use inside the tick model. */
  function Reduce(results: seq<ProbeResult>, threadCount: int): (o: Outcome)
    requires threadCount >= 1
  {
    Outcome(SumLatency(results), GoDiv(SumLatency(results), threadCount),
            AnySuccess(results), CountOK(results), LastSuccessStatus(results))
  }

  /** The loop and the function agree on every input. */
  method DrainMatchesReduce(results: seq<ProbeResult>, threadCount: int) returns (o: Outcome)
    requires threadCount >= 1
    ensures o == Reduce(results, threadCount)
  {
    o := Drain(results, threadCount);
  }

  // ---------------------------------------------------------------------
  // Properties
  // ---------------------------------------------------------------------

  /** The number of status-200 attempts never exceeds the number of attempts. */
  lemma {:induction false} CountOKBounded(rs: seq<ProbeResult>)
    ensures CountOK(rs) <= |rs|
    ensures CountOK(rs) > 0 ==> AnySuccess(rs)
  {
    if rs != [] {
      var init := rs[..|rs| - 1];
      CountOKBounded(init);
      if CountOK(init) > 0 {
        var j :| 0 <= j < |init| && Succeeded(init[j]);
        assert rs[j] == init[j];
      }
    }
  }

  /** The representative status is 0 exactly when no attempt succeeded;
      otherwise it is the status of a successful attempt after which no
      attempt in drain order succeeded. */
  lemma {:induction false} LastSuccessStatusSpec(rs: seq<ProbeResult>)
    ensures LastSuccessStatus(rs) == 0 <==> !AnySuccess(rs)
    ensures AnySuccess(rs) ==>
      exists i :: 0 <= i < |rs| && Succeeded(rs[i]) && rs[i].statusCode == LastSuccessStatus(rs)
                  && forall j :: i < j < |rs| ==> !Succeeded(rs[j])
  {
    if rs != [] {
      var init := rs[..|rs| - 1];
      var n := |rs| - 1;
      LastSuccessStatusSpec(init);
      if Succeeded(rs[n]) {
        assert AnySuccess(rs);
      } else {
        assert AnySuccess(rs) <==> AnySuccess(init) by {
          if AnySuccess(rs) {
            var j :| 0 <= j < |rs| && Succeeded(rs[j]);
            assert j < n && init[j] == rs[j];
          }
          if AnySuccess(init) {
            var j :| 0 <= j < |init| && Succeeded(init[j]);
            assert rs[j] == init[j];
          }
        }
        if AnySuccess(init) {
          var i :| 0 <= i < |init| && Succeeded(init[i]) && init[i].statusCode == LastSuccessStatus(init)
                   && forall j :: i < j < |init| ==> !Succeeded(init[j]);
          assert rs[i] == init[i];
          assert forall j :: i < j < |rs| ==> !Succeeded(rs[j]) by {
            forall j | i < j < |rs| ensures !Succeeded(rs[j]) {
              if j < n { assert rs[j] == init[j]; }
            }
          }
        }
      }
    }
  }

  /** hasSuccess is false exactly when every attempt has status 0 (statuses
      are never negative). */
  lemma NoSuccessIffAllZero(rs: seq<ProbeResult>)
    requires forall i :: 0 <= i < |rs| ==> rs[i].statusCode >= 0
    ensures !AnySuccess(rs) <==> forall i :: 0 <= i < |rs| ==> rs[i].statusCode == 0
  {
  }

  function MaxLatency(rs: seq<ProbeResult>): int
    requires rs != []
  {
    if |rs| == 1 then rs[0].latencyMs else Max(MaxLatency(rs[..|rs| - 1]), rs[|rs| - 1].latencyMs)
  }

  function MinLatency(rs: seq<ProbeResult>): int
    requires rs != []
  {
    if |rs| == 1 then rs[0].latencyMs else Min(MinLatency(rs[..|rs| - 1]), rs[|rs| - 1].latencyMs)
  }

  lemma {:induction false} SumBetween(rs: seq<ProbeResult>)
    requires rs != []
    ensures |rs| * MinLatency(rs) <= SumLatency(rs) <= |rs| * MaxLatency(rs)
  {
    if |rs| > 1 {
      var init := rs[..|rs| - 1];
      var last := rs[|rs| - 1].latencyMs;
      var n := |init|;
      var lo, hi := MinLatency(rs), MaxLatency(rs);
      assert lo == Min(MinLatency(init), last) && hi == Max(MaxLatency(init), last);
      assert SumLatency(rs) == SumLatency(init) + last;
      SumBetween(init);
      MulMonotone(n, MaxLatency(init), hi);
      MulMonotone(n, lo, MinLatency(init));
      MulSucc(n, lo);
      MulSucc(n, hi);
    } else {
      assert rs[..0] == [];
    }
  }

  /** With N = threadCount attempts and no negative latency, the average is
      the floor of the mean and lies between the smallest and the largest
      latency. */
  lemma AverageWithinRange(rs: seq<ProbeResult>, threadCount: int)
    requires threadCount >= 1 && |rs| == threadCount
    requires forall i :: 0 <= i < |rs| ==> rs[i].latencyMs >= 0
    ensures Reduce(rs, threadCount).avgLatency == SumLatency(rs) / threadCount
    ensures MinLatency(rs) <= Reduce(rs, threadCount).avgLatency <= MaxLatency(rs)
  {
    SumNonNegative(rs);
    SumBetween(rs);
    var s := SumLatency(rs);
    assert GoDiv(s, threadCount) == s / threadCount;
    QuotientBetween(threadCount, s, s / threadCount, MinLatency(rs), MaxLatency(rs));
  }

  lemma {:induction false} SumNonNegative(rs: seq<ProbeResult>)
    requires forall i :: 0 <= i < |rs| ==> rs[i].latencyMs >= 0
    ensures SumLatency(rs) >= 0
  {
    if rs != [] {
      SumNonNegative(rs[..|rs| - 1]);
    }
  }

  // ---------------------------------------------------------------------
  // Drain order
  // ---------------------------------------------------------------------

  lemma {:induction false} SumWithout(rs: seq<ProbeResult>, k: nat)
    requires k < |rs|
    ensures SumLatency(rs) == SumLatency(Without(rs, k)) + rs[k].latencyMs
    ensures CountOK(rs) == CountOK(Without(rs, k)) + (if rs[k].statusCode == StatusOK then 1 else 0)
    ensures AnySuccess(rs) <==> AnySuccess(Without(rs, k)) || Succeeded(rs[k])
    decreases |rs|
  {
    var n := |rs| - 1;
    var w := Without(rs, k);
    if k == n {
      assert w == rs[..n];
    } else {
      var init := rs[..n];
      SumWithout(init, k);
      assert Without(init, k) == w[..|w| - 1];
      assert w[|w| - 1] == rs[n];
    }
    AnyWithout(rs, k);
  }

  lemma AnyWithout(rs: seq<ProbeResult>, k: nat)
    requires k < |rs|
    ensures AnySuccess(rs) <==> AnySuccess(Without(rs, k)) || Succeeded(rs[k])
  {
    var w := Without(rs, k);
    if AnySuccess(rs) && !Succeeded(rs[k]) {
      var j :| 0 <= j < |rs| && Succeeded(rs[j]);
      if j < k { assert w[j] == rs[j]; } else { assert w[j - 1] == rs[j]; }
    }
    if AnySuccess(w) {
      var j :| 0 <= j < |w| && Succeeded(w[j]);
      if j < k { assert w[j] == rs[j]; } else { assert w[j] == rs[j + 1]; }
    }
  }

  /** The total latency, the average, hasSuccess and successCount do not
      depend on the order in which the attempts completed. */
  lemma {:induction false} OrderIndependent(rs: seq<ProbeResult>, ss: seq<ProbeResult>)
    requires multiset(rs) == multiset(ss)
    ensures SumLatency(rs) == SumLatency(ss)
    ensures CountOK(rs) == CountOK(ss)
    ensures AnySuccess(rs) <==> AnySuccess(ss)
    decreases |rs|
  {
    if rs != [] {
      var n := |rs| - 1;
      var x := rs[n];
      assert x in multiset(ss);
      var k :| 0 <= k < |ss| && ss[k] == x;
      MultisetWithout(rs, n);
      MultisetWithout(ss, k);
      OrderIndependent(Without(rs, n), Without(ss, k));
      SumWithout(rs, n);
      SumWithout(ss, k);
    } else {
      assert |ss| == |multiset(ss)| == 0;
    }
  }

  /** The representative status, on the other hand, depends on the drain
      order: the same two results drained in the two possible orders give
      "Succeed" once and "Warning" the other time. */
  lemma RepresentativeDependsOnOrder()
    ensures var a := ProbeResult(200, 10, false);
            var b := ProbeResult(500, 30, false);
            LastSuccessStatus([a, b]) == 500 && LastSuccessStatus([b, a]) == 200
  {
    var a := ProbeResult(200, 10, false);
    var b := ProbeResult(500, 30, false);
    assert [a, b][..1] == [a];
    assert [b, a][..1] == [b];
  }
}
