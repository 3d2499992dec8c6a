/** Real-time bounds of the windowed run: round trips, the send schedule, the end of the
    run, and runs bounded by time instead of by count. */
module EchoTiming {
  import opened Common
  import opened Socket
  import opened EchoMachine
  import opened EchoLaws

  // --- Round trips -----------------------------------------------------------------

  ghost predicate Bounded(e: Echo, rtt: seq<int>) {
    forall i :: 0 <= i < |rtt| ==> 0 <= rtt[i] && (e.timeout > 0 ==> rtt[i] <= e.timeout)
  }

  lemma AdvanceBounded(w: World, e: Echo, f: Flight)
    requires Ready(w, e, f) && Bounded(e, f.rtt) && Advance(w, e, f).On?
    ensures Bounded(e, Advance(w, e, f).flight.rtt)
  {}

  /** No round trip is negative or longer than the packet timeout, at any step of any run. */
  lemma {:induction false} RoundTripsBounded(w: World, e: Echo, l0: Line, n: nat)
    requires w.InOrder() && e.WellFormed() && l0.cursor <= |w.inbox|
    ensures var r := Reach(w, e, Start(e, l0), n);
            r.Some? ==> Bounded(e, r.value.rtt)
  {
    hide SendOne, ReadOne, MaySend;
    StartReady(w, e, l0);
    if n > 0 && Reach(w, e, Start(e, l0), n).Some? {
      RoundTripsBounded(w, e, l0, n - 1);
      AdvanceBounded(w, e, Reach(w, e, Start(e, l0), n - 1).value);
    }
  }

  // --- The schedule of a fixed-count run -------------------------------------------

  /** The latest moment at which datagram `k` is sent: one timeout per full window before it. */
  function Due(e: Echo, start: int, k: nat): int
    requires e.window > 0
  {
    start + (k / e.window) * e.timeout
  }

  lemma DueMonotone(e: Echo, start: int, j: nat, k: nat)
    requires e.window > 0 && e.timeout >= 0 && j <= k
    ensures Due(e, start, j) <= Due(e, start, k)
  {
    DivMonotone(j, k, e.window);
    MulMonotone(j / e.window, k / e.window, e.timeout);
  }

  lemma DivMonotone(j: nat, k: nat, m: nat)
    requires m > 0 && j <= k
    ensures j / m <= k / m
  {
    assert j == m * (j / m) + j % m && k == m * (k / m) + k % m;
    if j / m > k / m {
      MulMonotone(k / m + 1, j / m, m);
    }
  }

  lemma MulMonotone(a: int, b: int, c: int)
    requires a <= b && 0 <= c
    ensures a * c <= b * c
  {}

  lemma DueStep(e: Echo, start: int, k: nat)
    requires e.window > 0
    ensures Due(e, start, k + e.window) == Due(e, start, k) + e.timeout
  {
    DivStep(k, e.window);
    assert (k / e.window + 1) * e.timeout == (k / e.window) * e.timeout + e.timeout;
  }

  lemma DivStep(k: nat, m: nat)
    requires m > 0
    ensures (k + m) / m == k / m + 1
  {
    var q, r := k / m, k % m;
    assert k + m == m * (q + 1) + r;
    DivUnique(k + m, m, q + 1, r);
  }

  lemma DivUnique(x: nat, m: nat, q: nat, r: nat)
    requires m > 0 && r < m && x == m * q + r
    ensures x / m == q
  {
    var p, s := x / m, x % m;
    assert x == m * p + s;
    if p < q { MulMonotone(p + 1, q, m); }
    if q < p { MulMonotone(q + 1, p, m); }
  }

  /** Among `m` numbers below `hi` one is at most `hi - m`. */
  lemma {:induction false} LowNumber(s: set<nat>, hi: nat, m: nat)
    requires 0 < m <= |s| && forall x :: x in s ==> x < hi
    ensures exists x :: x in s && x + m <= hi
  {
    var top :| top in s;
    if m == 1 {
      assert top + m <= hi;
    } else {
      LowNumber(s - {hi - 1}, hi - 1, m - 1);
    }
  }

  ghost predicate Paced(e: Echo, start: int, sends: seq<Sent>, f: Flight)
    requires e.WellFormed() && e.plan.Count?
  {
    && (forall k :: 0 <= k < |sends| ==> sends[k].at <= Due(e, start, k))
    && (f.next < e.plan.limit ==> f.line.now <= Due(e, start, |sends|))
    && (|sends| > 0 ==> f.line.now <= Due(e, start, |sends| - 1) + e.timeout)
    && (|sends| == 0 ==> f.line.now == start)
  }

  /** A read that does not end the run returns before any pending datagram has expired. */
  lemma ReadInTime(w: World, e: Echo, f: Flight, s: nat)
    requires Ready(w, e, f) && f.pending != map[] && ReadOne(w, e, f).On? && s in f.pending && e.timeout > 0
    ensures ReadOne(w, e, f).flight.line.now <= f.pending[s] + e.timeout
  {}

  lemma {:induction false} ReadPaced(w: World, e: Echo, l0: Line, sends: seq<Sent>, f: Flight)
    requires Ready(w, e, f) && Logged(e, l0, sends, f)
    requires e.plan.Count? && e.timeout > 0 && Paced(e, l0.now, sends, f)
    requires f.pending != map[] && (MaySend(e, f) ==> |f.pending| == e.window)
    requires ReadOne(w, e, f).On?
    ensures Paced(e, l0.now, sends, ReadOne(w, e, f).flight)
  {
    hide IsOldest, Due;
    var g := ReadOne(w, e, f).flight;
    var s :| s in f.pending;
    ReadInTime(w, e, f, s);
    DueMonotone(e, l0.now, s - e.base, |sends| - 1);
    if f.next < e.plan.limit {
      var ks := f.pending.Keys;
      assert |ks| == e.window;
      LowNumber(ks, f.next, e.window);
      var x :| x in ks && x + e.window <= f.next;
      ReadInTime(w, e, f, x);
      DueStep(e, l0.now, x - e.base);
      DueMonotone(e, l0.now, x - e.base + e.window, |sends|);
    }
  }

  lemma {:induction false} AdvancePaced(w: World, e: Echo, l0: Line, f: Flight)
    requires Inv(w, e, l0, Mine(l0, f.line), f)
    requires e.plan.Count? && e.timeout > 0 && Paced(e, l0.now, Mine(l0, f.line), f)
    requires Advance(w, e, f).On?
    ensures var g := Advance(w, e, f).flight;
            Paced(e, l0.now, Mine(l0, g.line), g)
  {
    hide Accounted, Tallied, Prompt, IsOldest, Due;
    var sends := Mine(l0, f.line);
    if MaySend(e, f) && |f.pending| < e.window {
      var g := SendOne(w, e, f).flight;
      assert Mine(l0, g.line) == sends + [Sent(PEER, f.next, e.size, f.line.now, f.line.cursor)];
      DueMonotone(e, l0.now, |sends|, |sends| + 1);
    } else {
      ReadPaced(w, e, l0, sends, f);
    }
  }

  lemma {:induction false} ReachPaced(w: World, e: Echo, l0: Line, n: nat)
    requires w.InOrder() && e.WellFormed() && l0.cursor <= |w.inbox|
    requires e.plan.Count? && e.timeout > 0
    requires Reach(w, e, Start(e, l0), n).Some?
    ensures var f := Reach(w, e, Start(e, l0), n).value;
            Paced(e, l0.now, Mine(l0, f.line), f)
  {
    hide Inv, Due;
    if n == 0 {
      assert Mine(l0, l0) == [];
      StartDue(e, l0.now);
    } else {
      ReachInv(w, e, l0, n - 1);
      ReachPaced(w, e, l0, n - 1);
      AdvancePaced(w, e, l0, Reach(w, e, Start(e, l0), n - 1).value);
    }
  }

  lemma StartDue(e: Echo, start: int)
    requires e.window > 0
    ensures Due(e, start, 0) == start
  {}

  /** Whatever is lost, reordered or duplicated, datagram `k` of a run is sent within
      `k / window` packet timeouts of the start, and the run is over one timeout after the
      last datagram was due. */
  lemma {:induction false} Schedule(w: World, e: Echo, l0: Line, n: nat)
    requires w.InOrder() && e.WellFormed() && l0.cursor <= |w.inbox|
    requires e.plan.Count? && e.timeout > 0
    ensures var r := Reach(w, e, Start(e, l0), n);
            r.Some? ==>
              && (forall k :: 0 <= k < |Mine(l0, r.value.line)| ==>
                    Mine(l0, r.value.line)[k].at <= l0.now + (k / e.window) * e.timeout)
              && (e.base < e.plan.limit ==>
                    r.value.line.now <= l0.now + ((e.plan.limit - e.base - 1) / e.window + 1) * e.timeout)
  {
    hide Inv;
    if Reach(w, e, Start(e, l0), n).Some? {
      ReachPaced(w, e, l0, n);
      ReachCounts(w, e, l0, n);
      var f := Reach(w, e, Start(e, l0), n).value;
      PacedSchedule(e, l0, Mine(l0, f.line), f);
    }
  }

  /** The log and the pending table of a reached state, by position. */
  lemma {:induction false} ReachCounts(w: World, e: Echo, l0: Line, n: nat)
    requires w.InOrder() && e.WellFormed() && l0.cursor <= |w.inbox|
    requires Reach(w, e, Start(e, l0), n).Some?
    ensures var f := Reach(w, e, Start(e, l0), n).value;
            && f.next == e.base + |Mine(l0, f.line)|
            && (e.plan.Count? ==> f.next <= e.plan.limit)
            && (forall s :: s in f.pending ==> e.base <= s < f.next && f.pending[s] == Mine(l0, f.line)[s - e.base].at)
  {
    hide Accounted, Tallied, Prompt, Entry, IsOldest, SendOne, ReadOne, MaySend;
    ReachInv(w, e, l0, n);
  }

  lemma {:induction false} PacedSchedule(e: Echo, l0: Line, sends: seq<Sent>, f: Flight)
    requires e.WellFormed() && e.plan.Count? && Paced(e, l0.now, sends, f)
    requires f.next == e.base + |sends| && f.next <= e.plan.limit
    ensures forall k :: 0 <= k < |sends| ==> sends[k].at <= l0.now + (k / e.window) * e.timeout
    ensures e.base < e.plan.limit ==>
              f.line.now <= l0.now + ((e.plan.limit - e.base - 1) / e.window + 1) * e.timeout
  {
    forall k | 0 <= k < |sends|
      ensures sends[k].at <= l0.now + (k / e.window) * e.timeout
    {
      assert sends[k].at <= Due(e, l0.now, k);
    }
    if e.base < e.plan.limit {
      EndBound(e, l0, f, |sends|);
    }
  }

  lemma {:induction false} EndBound(e: Echo, l0: Line, f: Flight, k: nat)
    requires e.WellFormed() && e.plan.Count? && e.base < e.plan.limit
    requires k <= e.plan.limit - e.base
    requires if k == 0 then f.line.now == l0.now else f.line.now <= Due(e, l0.now, k - 1) + e.timeout
    ensures f.line.now <= l0.now + ((e.plan.limit - e.base - 1) / e.window + 1) * e.timeout
  {
    var last := e.plan.limit - e.base - 1;
    DueMonotone(e, l0.now, if k == 0 then 0 else k - 1, last);
    StartDue(e, l0.now);
    assert (last / e.window + 1) * e.timeout == (last / e.window) * e.timeout + e.timeout;
  }

  // --- The deadline of a health sample ---------------------------------------------

  /** The context timeout under which the link-health agent samples a path. */
  function SampleTimeout(count: nat, window: nat, timeout: int, interval: int): int
    requires window > 0
  {
    Max(2 * timeout * (count / window + 1), interval)
  }

  lemma SampleTimeoutIsLater(count: nat, window: nat, timeout: int, interval: int)
    requires window > 0 && timeout > 0 && count > 0
    ensures ((count - 1) / window + 1) * timeout < SampleTimeout(count, window, timeout, interval)
  {
    DivMonotone(count - 1, count, window);
    MulMonotone((count - 1) / window + 1, count / window + 1, timeout);
    var m := (count / window + 1) * timeout;
    assert 2 * timeout * (count / window + 1) == 2 * m;
    MulMonotone(1, count / window + 1, timeout);
  }

  /** `derived` is `parent` but for a deadline lowered to some moment after `end`. */
  predicate Later(parent: Context, derived: Context, end: int) {
    && derived.cancelledAt == parent.cancelledAt
    && (derived.deadline != parent.deadline ==>
          derived.deadline.Some? && end < derived.deadline.value
          && (parent.deadline.Some? ==> derived.deadline.value < parent.deadline.value))
  }

  /** As long as the lowered deadline comes after the schedule, it is as if it were not there:
      no step changes. */
  lemma {:induction false} LateContext(w: World, w': World, e: Echo, l0: Line, n: nat)
    requires w.InOrder() && e.WellFormed() && l0.cursor <= |w.inbox|
    requires e.plan.Count? && e.timeout > 0 && e.base < e.plan.limit
    requires w' == w.(ctx := w'.ctx)
    requires Later(w.ctx, w'.ctx, l0.now + ((e.plan.limit - e.base - 1) / e.window + 1) * e.timeout)
    requires Reach(w, e, Start(e, l0), n).Some?
    ensures var f := Reach(w, e, Start(e, l0), n).value;
            Ready(w', e, f) && Advance(w', e, f) == Advance(w, e, f)
  {
    hide Paced, Due, Inv;
    var f := Reach(w, e, Start(e, l0), n).value;
    Schedule(w, e, l0, n);
    if f.pending != map[] {
      ExpiryBeforeDeadline(w, e, l0, n);
      ReadSame(w, w', e, f);
    }
  }

  lemma {:induction false} ReadSame(w: World, w': World, e: Echo, f: Flight)
    requires Ready(w, e, f) && e.timeout > 0 && f.pending != map[]
    requires w' == w.(ctx := w'.ctx)
    requires Later(w.ctx, w'.ctx, Oldest(f.pending) + e.timeout)
    ensures Ready(w', e, f) && ReadOne(w', e, f) == ReadOne(w, e, f)
  {
    hide Survivors;
    var d := Oldest(f.pending) + e.timeout;
    if w'.ctx.deadline != w.ctx.deadline {
      assert ReadDeadline(w.ctx, f.line.now, f.pending, e.timeout) == d;
      assert ReadDeadline(w'.ctx, f.line.now, f.pending, e.timeout) == d;
      assert Receive(w', f.line, d) == Receive(w, f.line, d);
    } else {
      assert w'.ctx == w.ctx;
    }
  }

  lemma {:induction false} ExpiryBeforeDeadline(w: World, e: Echo, l0: Line, n: nat)
    requires w.InOrder() && e.WellFormed() && l0.cursor <= |w.inbox|
    requires e.plan.Count? && e.timeout > 0 && e.base < e.plan.limit
    requires Reach(w, e, Start(e, l0), n).Some?
    requires Reach(w, e, Start(e, l0), n).value.pending != map[]
    ensures Oldest(Reach(w, e, Start(e, l0), n).value.pending) + e.timeout
            <= l0.now + ((e.plan.limit - e.base - 1) / e.window + 1) * e.timeout
  {
    hide Due, Inv, Reach, Oldest, Paced;
    var f := Reach(w, e, Start(e, l0), n).value;
    ReachCounts(w, e, l0, n);
    ReachPaced(w, e, l0, n);
    PacedExpiry(e, l0, Mine(l0, f.line), f);
  }

  lemma {:induction false} PacedExpiry(e: Echo, l0: Line, sends: seq<Sent>, f: Flight)
    requires e.WellFormed() && e.plan.Count? && e.base < e.plan.limit && Paced(e, l0.now, sends, f)
    requires f.next == e.base + |sends| && f.next <= e.plan.limit && f.pending != map[]
    requires forall s :: s in f.pending ==> e.base <= s < f.next && f.pending[s] == sends[s - e.base].at
    ensures Oldest(f.pending) + e.timeout
            <= l0.now + ((e.plan.limit - e.base - 1) / e.window + 1) * e.timeout
  {
    hide Due;
    var s :| s in f.pending && f.pending[s] == Oldest(f.pending);
    var last := e.plan.limit - e.base - 1;
    DueMonotone(e, l0.now, s - e.base, last);
    LastDue(e, l0.now, last);
  }

  lemma LastDue(e: Echo, start: int, last: nat)
    requires e.window > 0
    ensures Due(e, start, last) + e.timeout == start + (last / e.window + 1) * e.timeout
  {}

  lemma {:induction false} SameReach(w: World, w': World, e: Echo, l0: Line, n: nat, f: Flight)
    requires w.InOrder() && e.WellFormed() && l0.cursor <= |w.inbox|
    requires e.plan.Count? && e.timeout > 0 && e.base < e.plan.limit
    requires w' == w.(ctx := w'.ctx)
    requires Later(w.ctx, w'.ctx, l0.now + ((e.plan.limit - e.base - 1) / e.window + 1) * e.timeout)
    requires Reach(w, e, Start(e, l0), n) == Some(f) && Ready(w, e, f) && Ready(w', e, f)
    ensures Run(w', e, f) == Run(w, e, f)
    decreases Work(w, e, f)
  {
    hide SendOne, ReadOne, MaySend;
    LateContext(w, w', e, l0, n);
    if Advance(w, e, f).On? {
      var g := Advance(w, e, f).flight;
      RunStep(w, e, f, g);
      RunStep(w', e, f, g);
      WorkFalls(w, e, f);
      SameReach(w, w', e, l0, n + 1, g);
    }
  }

  /** The sample's own deadline never ends a sample: under it the run does exactly what it
      does under whatever context the sample was started with. */
  lemma {:induction false} SampleDeadlineNeverFires(w: World, e: Echo, l0: Line, interval: int)
    requires w.InOrder() && e.WellFormed() && l0.cursor <= |w.inbox|
    requires e.plan.Count? && e.timeout > 0 && e.base < e.plan.limit
    ensures var limit := SampleTimeout(e.plan.limit - e.base, e.window, e.timeout, interval);
            var limited := w.(ctx := WithTimeout(w.ctx, l0.now, limit));
            Ready(limited, e, Start(e, l0)) && Run(limited, e, Start(e, l0)) == Run(w, e, Start(e, l0))
  {
    hide IsOldest, SendOne, ReadOne, MaySend;
    var limit := SampleTimeout(e.plan.limit - e.base, e.window, e.timeout, interval);
    SampleTimeoutIsLater(e.plan.limit - e.base, e.window, e.timeout, interval);
    var limited := w.(ctx := WithTimeout(w.ctx, l0.now, limit));
    StartReady(w, e, l0);
    assert Ready(limited, e, Start(e, l0));
    SameReach(w, limited, e, l0, 0, Start(e, l0));
  }

  // --- Runs bounded by time --------------------------------------------------------

  ghost predicate Timely(e: Echo, sends: seq<Sent>, f: Flight)
    requires e.plan.Until?
  {
    && (forall k :: 0 < k < |sends| ==> sends[k].at < e.plan.end)
    && (|sends| > 0 ==> sends[0].at < e.plan.end)
    && (e.timeout > 0 ==> f.line.now < e.plan.end + e.timeout)
    && (f.next == e.base ==> f.line.now < e.plan.end)
  }

  lemma {:induction false} AdvanceTimely(w: World, e: Echo, l0: Line, f: Flight)
    requires Inv(w, e, l0, Mine(l0, f.line), f)
    requires e.plan.Until? && Timely(e, Mine(l0, f.line), f)
    requires Advance(w, e, f).On?
    ensures var g := Advance(w, e, f).flight;
            Timely(e, Mine(l0, g.line), g)
  {
    hide Accounted, Tallied, Prompt, IsOldest, Entry;
    var sends := Mine(l0, f.line);
    if MaySend(e, f) && |f.pending| < e.window {
      var g := SendOne(w, e, f).flight;
      assert Mine(l0, g.line) == sends + [Sent(PEER, f.next, e.size, f.line.now, f.line.cursor)];
    } else {
      ReadTimely(w, e, l0, sends, f);
    }
  }

  lemma {:induction false} ReadTimely(w: World, e: Echo, l0: Line, sends: seq<Sent>, f: Flight)
    requires Ready(w, e, f) && Logged(e, l0, sends, f)
    requires e.plan.Until? && Timely(e, sends, f)
    requires f.pending != map[] && ReadOne(w, e, f).On?
    ensures Timely(e, sends, ReadOne(w, e, f).flight)
  {
    hide IsOldest, Entry;
    var s :| s in f.pending;
    if e.timeout > 0 {
      ReadInTime(w, e, f, s);
    }
  }

  lemma {:induction false} ReachTimely(w: World, e: Echo, l0: Line, n: nat)
    requires w.InOrder() && e.WellFormed() && l0.cursor <= |w.inbox|
    requires e.plan.Until? && l0.now < e.plan.end
    requires Reach(w, e, Start(e, l0), n).Some?
    ensures var f := Reach(w, e, Start(e, l0), n).value;
            Timely(e, Mine(l0, f.line), f)
  {
    hide Inv;
    if n == 0 {
      assert Mine(l0, l0) == [];
    } else {
      ReachInv(w, e, l0, n - 1);
      ReachTimely(w, e, l0, n - 1);
      AdvanceTimely(w, e, l0, Reach(w, e, Start(e, l0), n - 1).value);
    }
  }

  /** A run bounded by time sends at least once and nothing at or after its end, leaves
      nothing pending, and is over within one packet timeout of its end, not before it. */
  lemma {:induction false} DurationRun(w: World, e: Echo, l0: Line)
    requires w.InOrder() && e.WellFormed() && l0.cursor <= |w.inbox|
    requires e.plan.Until? && l0.now < e.plan.end
    requires Run(w, e, Start(e, l0)).Finished?
    ensures var f := Run(w, e, Start(e, l0)).flight;
            var sends := Mine(l0, f.line);
            && |sends| >= 1 && |sends| == f.next - e.base == |f.rtt| + f.lost && f.pending == map[]
            && (forall k :: 0 <= k < |sends| ==> sends[k].at < e.plan.end)
            && e.plan.end <= f.line.now
            && (e.timeout > 0 ==> f.line.now < e.plan.end + e.timeout)
  {
    var n := RunReaches(w, e, Start(e, l0));
    ReachInv(w, e, l0, n);
    ReachTimely(w, e, l0, n);
  }
}
