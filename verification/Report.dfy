/** From results to the published record: aggregation over trials and order statistics. */
module Report {
  import opened Common
  import opened Perf
  import opened Socket
  import opened Stats
  import opened Streams

  datatype Spread = Spread(min: int, avg: int, p50: int, p95: int, max: int)

  datatype PerfRecord = PerfRecord(trial: int, trials: int, count: int, size: int, duration: int, warmup: int,
                                   window: int, streams: int, datagrams: nat, lost: int, transferBytes: int,
                                   elapsed: int, rtt: Spread)

  /** The statistics of a list of round trips; all zero when there are none. */
  function SpreadOf(rtt: seq<int>): Spread {
    var s := Sort(rtt);
    if s == [] then Spread(0, 0, 0, 0, 0)
    else Spread(s[0], Quot(Total(s), |s|), PercentileDuration(s, 50), PercentileDuration(s, 95), s[|s| - 1])
  }

  /** At least `p` percent of the values are at or below `v`, which is one of them, and for no
      smaller one of them is that so. */
  ghost predicate IsPercentile(rtt: seq<int>, p: nat, v: int) {
    && v in rtt
    && 100 * AtMost(rtt, v) >= |rtt| * p
    && (forall u :: u in rtt && u < v ==> 100 * AtMost(rtt, u) < |rtt| * p)
  }

  /** The sum divided by the number, cut off toward zero. */
  ghost predicate IsAverage(rtt: seq<int>, avg: int) {
    var sum, n := Total(rtt), |rtt|;
    if sum >= 0 then n * avg <= sum < n * (avg + 1) else n * (avg - 1) < sum <= n * avg
  }

  /** What the five figures of a record mean, for the round trips in any order. */
  ghost predicate Summarizes(rtt: seq<int>, d: Spread) {
    if rtt == [] then d == Spread(0, 0, 0, 0, 0)
    else
      && d.min in rtt && d.max in rtt && (forall x :: x in rtt ==> d.min <= x <= d.max)
      && IsAverage(rtt, d.avg) && IsPercentile(rtt, 50, d.p50) && IsPercentile(rtt, 95, d.p95)
  }

  lemma SpreadSummarizes(rtt: seq<int>)
    ensures Summarizes(rtt, SpreadOf(rtt))
  {
    hide AtMost, Total, Quot, PercentileDuration;
    if rtt == [] {
      assert Sort(rtt) == [];
    } else {
      Extremes(rtt);
      NearestRank(rtt, 50);
      NearestRank(rtt, 95);
      TotalSort(rtt);
      QuotNear(Total(rtt), |rtt|);
      AverageStep(|rtt|, SpreadOf(rtt).avg);
    }
  }

  lemma AverageStep(n: nat, avg: int)
    ensures n * (avg + 1) == n * avg + n && n * (avg - 1) == n * avg - n
  {}

  lemma Extremes(rtt: seq<int>)
    requires rtt != []
    ensures var s := Sort(rtt);
            s[0] in rtt && s[|s| - 1] in rtt && forall x :: x in rtt ==> s[0] <= x <= s[|s| - 1]
  {
    var s := Sort(rtt);
    SameElements(s, rtt, 0);
    SameElements(s, rtt, |s| - 1);
    forall x | x in rtt
      ensures s[0] <= x <= s[|s| - 1]
    {
      assert x in multiset(s);
      var k :| 0 <= k < |s| && s[k] == x;
    }
  }

  method UdpPerfRecordForTrial(result: PerfResult, trial: int, trials: int) returns (record: PerfRecord)
    ensures record.datagrams == |result.rtt| && record.transferBytes == |result.rtt| * result.size * 2
    ensures record.count == result.count && record.lost == result.lost && record.elapsed == result.elapsed
    ensures record.rtt == SpreadOf(result.rtt) && Summarizes(result.rtt, record.rtt)
    ensures (record.trial, record.trials, record.size, record.duration, record.warmup, record.window, record.streams)
         == (trial, trials, result.size, result.duration, result.warmup, result.window, result.streams)
  {
    hide Summarizes;
    SpreadSummarizes(result.rtt);
    var rtt := Sort(result.rtt);
    var success := |rtt|;
    record := PerfRecord(trial, trials, result.count, result.size, result.duration, result.warmup, result.window,
                         result.streams, success, result.lost, success * result.size * 2, result.elapsed,
                         Spread(0, 0, 0, 0, 0));
    if success == 0 {
      return;
    }
    var total := 0;
    for i := 0 to success
      invariant total == Total(rtt[..i])
    {
      assert rtt[..i + 1][..i] == rtt[..i];
      total := total + rtt[i];
    }
    assert rtt[..success] == rtt;
    record := record.(rtt := Spread(rtt[0], Quot(total, success), PercentileDuration(rtt, 50),
                                    PercentileDuration(rtt, 95), rtt[success - 1]));
  }

  /** The printed statistics are ordered, and lie within any bounds the round trips keep. */
  lemma SpreadOrdered(rtt: seq<int>, lo: int, hi: int)
    requires rtt != [] && forall i :: 0 <= i < |rtt| ==> lo <= rtt[i] <= hi
    ensures var d := SpreadOf(rtt);
            && lo <= d.min <= d.p50 <= d.p95 <= d.max <= hi
            && d.min <= d.avg <= d.max
            && d.min in rtt && d.max in rtt
            && (forall x :: x in rtt ==> d.min <= x <= d.max)
  {
    var s := Sort(rtt);
    Extremes(rtt);
    PercentilesOrdered(s);
    TotalBounds(s, s[0], s[|s| - 1]);
    QuotBounds(Total(s), |s|, s[0], s[|s| - 1]);
  }

  lemma PercentilesOrdered(s: seq<int>)
    requires Sorted(s) && s != []
    ensures s[0] <= PercentileDuration(s, 50) <= PercentileDuration(s, 95) <= s[|s| - 1]
  {}

  /** The statistics depend on the round trips as a bag: no order of arrival shows. */
  lemma SpreadOrderFree(a: seq<int>, b: seq<int>)
    requires multiset(a) == multiset(b)
    ensures SpreadOf(a) == SpreadOf(b) && |a| == |b|
  {
    SortIsUnique(Sort(a), Sort(b));
  }

  // --- Aggregation over trials -----------------------------------------------------

  datatype Sums = Sums(count: int, duration: int, warmup: int, lost: int, elapsed: int, rtt: seq<int>)

  function Summed(results: seq<PerfResult>): Sums {
    if results == [] then Sums(0, 0, 0, 0, 0, [])
    else
      var t, r := Summed(results[..|results| - 1]), results[|results| - 1];
      Sums(t.count + r.count, t.duration + r.duration, t.warmup + r.warmup, t.lost + r.lost,
           t.elapsed + r.elapsed, t.rtt + r.rtt)
  }

  method AggregateUdpPerfResults(results: seq<PerfResult>) returns (out: PerfResult)
    ensures results == [] ==> out == PerfResult(0, 0, 0, 0, 0, 0, 0, 0, [])
    ensures results != [] ==>
              && (out.size, out.window, out.streams) == (results[0].size, results[0].window, results[0].streams)
              && Sums(out.count, out.duration, out.warmup, out.lost, out.elapsed, out.rtt) == Summed(results)
  {
    if results == [] {
      return PerfResult(0, 0, 0, 0, 0, 0, 0, 0, []);
    }
    out := PerfResult(0, 0, results[0].size, 0, results[0].window, results[0].streams, 0, 0, []);
    for i := 0 to |results|
      invariant (out.size, out.window, out.streams) == (results[0].size, results[0].window, results[0].streams)
      invariant Sums(out.count, out.duration, out.warmup, out.lost, out.elapsed, out.rtt) == Summed(results[..i])
    {
      assert results[..i + 1][..i] == results[..i];
      var r := results[i];
      out := out.(count := out.count + r.count, duration := out.duration + r.duration, warmup := out.warmup + r.warmup,
                  lost := out.lost + r.lost, elapsed := out.elapsed + r.elapsed, rtt := out.rtt + r.rtt);
    }
    assert results[..|results|] == results;
  }

  lemma {:induction false} SummedAppend(a: seq<PerfResult>, b: seq<PerfResult>)
    ensures var s, t, u := Summed(a), Summed(b), Summed(a + b);
            && u.count == s.count + t.count && u.duration == s.duration + t.duration && u.warmup == s.warmup + t.warmup
            && u.lost == s.lost + t.lost && u.elapsed == s.elapsed + t.elapsed && u.rtt == s.rtt + t.rtt
  {
    if b == [] {
      assert a + b == a;
    } else {
      assert (a + b)[..|a + b| - 1] == a + b[..|b| - 1];
      SummedAppend(a, b[..|b| - 1]);
    }
  }

  /** Of one result the sums are its own numbers; of two lists they add up, number by number,
      with the round trips one list after the other. */
  lemma SummedIsSum(a: seq<PerfResult>, r: PerfResult, b: seq<PerfResult>)
    ensures Summed([r]) == Sums(r.count, r.duration, r.warmup, r.lost, r.elapsed, r.rtt)
    ensures var s, t, u := Summed(a), Summed(b), Summed(a + [r] + b);
            && u.count == s.count + r.count + t.count && u.duration == s.duration + r.duration + t.duration
            && u.warmup == s.warmup + r.warmup + t.warmup && u.lost == s.lost + r.lost + t.lost
            && u.elapsed == s.elapsed + r.elapsed + t.elapsed && u.rtt == s.rtt + r.rtt + t.rtt
  {
    assert [r][..0] == [];
    SummedAppend(a, [r]);
    SummedAppend(a + [r], b);
  }

  /** A result that accounts for every datagram, with all round trips within the timeout. */
  ghost predicate Sound(r: PerfResult, timeout: int) {
    && |r.rtt| + r.lost == r.count
    && (forall i :: 0 <= i < |r.rtt| ==> 0 <= r.rtt[i] <= timeout)
  }

  lemma {:induction false} AggregateSound(results: seq<PerfResult>, timeout: int)
    requires forall i :: 0 <= i < |results| ==> Sound(results[i], timeout)
    ensures var t := Summed(results);
            |t.rtt| + t.lost == t.count && (forall i :: 0 <= i < |t.rtt| ==> 0 <= t.rtt[i] <= timeout)
  {
    if results != [] {
      AggregateSound(results[..|results| - 1], timeout);
    }
  }

  lemma {:induction false} FoldSound(outs: Own, timeout: int)
    requires forall i :: 0 <= i < |outs| ==> outs[i].Ok? && Sound(outs[i].value, timeout)
    ensures var t := Fold(outs);
            |t.rtt| + t.lost == t.count && (forall i :: 0 <= i < |t.rtt| ==> 0 <= t.rtt[i] <= timeout)
  {
    if outs != [] {
      FoldSound(outs[..|outs| - 1], timeout);
    }
  }

  // --- From the sockets to the record ----------------------------------------------

  /** What stream `i` of a measurement returns when nobody cancels it. */
  ghost predicate Streamed(worlds: seq<World>, lines: seq<Line>, q: Request, own: Own) {
    && |worlds| == |lines| == |own|
    && (forall i :: 0 <= i < |own| ==> worlds[i].InOrder() && lines[i].cursor <= |worlds[i].inbox|)
    && (forall i :: 0 <= i < |own| ==> own[i] == StreamOutcome(worlds[i], q, lines[i]))
  }

  ghost function StreamOutcome(w: World, q: Request, l: Line): Result<PerfResult, PerfError> {
    if w.InOrder() && l.cursor <= |w.inbox| then
      match Measure(w, q, l)
      case Done(r, _, _) => Ok(r)
      case Not(e, _) => Err(e)
    else Err(BadCount)
  }

  lemma OwnSound(worlds: seq<World>, lines: seq<Line>, q: Request, own: Own, i: nat)
    requires Streamed(worlds, lines, q, own) && q.timeout > 0 && i < |own| && own[i].Ok?
    ensures Sound(own[i].value, q.timeout)
  {
    assert own[i] == StreamOutcome(worlds[i], q, lines[i]);
    MeasureCounts(worlds[i], q, lines[i]);
    MeasureTimes(worlds[i], q, lines[i]);
  }

  /** End to end: whatever the networks do and however the streams interleave, if no stream
      fails then the merged result accounts for every datagram sent, and every figure of the
      record printed from it lies between zero and the packet timeout. */
  lemma {:induction false} RecordIsSound(worlds: seq<World>, lines: seq<Line>, q: Request, own: Own, states: seq<FanIn>, k: nat)
    requires Streamed(worlds, lines, q, own) && q.timeout > 0
    requires Schedule(own, states) && k < |states| && |states[k].received| == |own|
    requires FirstError(states[k].received).None?
    ensures var t := Fold(Outcomes(states[k].received));
            && |t.rtt| + t.lost == t.count
            && SpreadOf(t.rtt) == SpreadOf(Fold(own).rtt)
            && (t.rtt != [] ==>
                  var d := SpreadOf(t.rtt);
                  0 <= d.min <= d.p50 <= d.p95 <= d.max <= q.timeout && d.min <= d.avg <= d.max)
  {
    hide Schedule, Streamed;
    ScheduleIndependent(own, states, k);
    var t := Fold(Outcomes(states[k].received));
    forall i | 0 <= i < |own|
      ensures own[i].Ok? && Sound(own[i].value, q.timeout)
    {
      OwnSound(worlds, lines, q, own, i);
    }
    FoldSound(own, q.timeout);
    assert |multiset(t.rtt)| == |t.rtt| && |multiset(Fold(own).rtt)| == |Fold(own).rtt|;
    SpreadOrderFree(t.rtt, Fold(own).rtt);
    if t.rtt != [] {
      SpreadOrdered(Fold(own).rtt, 0, q.timeout);
    }
  }
}
