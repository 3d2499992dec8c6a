/** One echo measurement over one socket: validation, warm-up, dispatch, result. */
module Perf {
  import opened Common
  import opened Socket
  import opened EchoMachine
  import opened EchoEngines
  import opened EchoSerial
  import opened EchoLaws
  import opened EchoTiming

  datatype Request = Request(count: int, size: int, warmup: int, window: int, timeout: int, duration: int)

  datatype PerfError =
    | BadCount | BadSize | BadWarmup | BadWindow | BadTimeout | BadDuration
    | WarmupFailed(index: nat, why: Failure)
    | EchoFailed(why: Failure)

  datatype PerfResult = PerfResult(count: int, duration: int, size: int, warmup: int, window: int,
                                   streams: int, lost: int, elapsed: int, rtt: seq<int>)

  function Rejected(q: Request): Option<PerfError> {
    if q.count <= 0 && q.duration <= 0 then Some(BadCount)
    else if q.size < 8 then Some(BadSize)
    else if q.warmup < 0 then Some(BadWarmup)
    else if q.window <= 0 then Some(BadWindow)
    else if q.timeout < 0 then Some(BadTimeout)
    else if q.duration < 0 then Some(BadDuration)
    else None
  }

  /** The warm-up: datagrams `i..warmup`, whose losses are ignored. `answered` counts replies. */
  datatype Warmth = Warm(line: Line, answered: nat) | Cold(index: nat, why: Failure, line: Line)

  function WarmUp(w: World, q: Request, l: Line, i: nat, answered: nat): (r: Warmth)
    requires l.cursor <= |w.inbox| && q.size >= 0 && i <= q.warmup
    ensures r.line.cursor <= |w.inbox| && l.now <= r.line.now
    ensures r.Warm? ==>
      && |r.line.sent| == |l.sent| + q.warmup - i && r.line.sent[..|l.sent|] == l.sent
      && r.answered - answered <= r.line.cursor - l.cursor
      && answered <= r.answered <= answered + q.warmup - i
      && Intact(w, l.cursor, r.line.cursor)
    decreases q.warmup - i
  {
    if i == q.warmup then Warm(l, answered)
    else
      match EchoOnce(w, q.size, q.timeout, l, i)
      case Broke(why, l') => Cold(i, why, l')
      case Replied(l') => WarmUp(w, q, l', i + 1, answered + 1)
      case Silent(l') => WarmUp(w, q, l', i + 1, answered)
  }

  function PlanOf(q: Request, start: int): Plan
    requires Rejected(q).None?
  {
    if q.duration > 0 then Until(start + q.duration) else Count(q.warmup + q.count)
  }

  function EchoOf(q: Request, start: int): (e: Echo)
    requires Rejected(q).None?
    ensures e.WellFormed()
  {
    Echo(q.warmup, PlanOf(q, start), q.size, q.window, q.timeout)
  }

  /** Window 1 takes the serial engine, any other window the windowed one. */
  ghost function Engine(w: World, q: Request, l: Line): Outcome
    requires Rejected(q).None? && w.InOrder() && l.cursor <= |w.inbox|
  {
    if q.window == 1 then SerialRun(w, EchoOf(q, l.now), l) else WindowRun(w, EchoOf(q, l.now), l)
  }

  function ResultOf(q: Request, start: int, f: Flight): PerfResult {
    PerfResult(if q.duration > 0 then f.next - q.warmup else q.count, q.duration, q.size, q.warmup, q.window,
               1, f.lost, f.line.now - start, f.rtt)
  }

  datatype Measured =
    | Done(result: PerfResult, line: Line, answered: nat)
    | Not(error: PerfError, line: Line)

  /** The whole measurement. */
  ghost function Measure(w: World, q: Request, l: Line): Measured
    requires w.InOrder() && l.cursor <= |w.inbox|
  {
    if Rejected(q).Some? then Not(Rejected(q).value, l)
    else
      match WarmUp(w, q, l, 0, 0)
      case Cold(i, why, l') => Not(WarmupFailed(i, why), l')
      case Warm(l', answered) =>
        match Engine(w, q, l')
        case Failed(why, l'') => Not(EchoFailed(why), l'')
        case Finished(f) => Done(ResultOf(q, l'.now, f), f.line, answered)
  }

  method RunUdpEchoPerf(conn: PacketConn, count: int, size: int, warmup: int, window: int, timeout: int, duration: int)
    returns (r: Result<PerfResult, PerfError>)
    requires conn.Valid()
    modifies conn
    ensures conn.Valid()
    ensures match Measure(conn.world, Request(count, size, warmup, window, timeout, duration), old(conn.line))
            case Done(result, l, _) => r == Ok(result) && conn.line == l
            case Not(error, l) => r == Err(error) && conn.line == l
    ensures r == Err(BadCount) <==> count <= 0 && duration <= 0
    ensures r == Err(BadSize) <==> (count > 0 || duration > 0) && size < 8
    ensures r == Err(BadWarmup) <==> (count > 0 || duration > 0) && size >= 8 && warmup < 0
    ensures r == Err(BadWindow) <==> (count > 0 || duration > 0) && size >= 8 && warmup >= 0 && window <= 0
    ensures r == Err(BadTimeout) <==> (count > 0 || duration > 0) && size >= 8 && warmup >= 0 && window > 0 && timeout < 0
    ensures r == Err(BadDuration) <==>
              (count > 0 || duration > 0) && size >= 8 && warmup >= 0 && window > 0 && timeout >= 0 && duration < 0
    ensures r.Err? && !r.error.WarmupFailed? && !r.error.EchoFailed? ==> conn.line == old(conn.line)
  {
    hide EchoOnce, SerialRun, WindowRun;
    ghost var q := Request(count, size, warmup, window, timeout, duration);
    if count <= 0 && duration <= 0 { return Err(BadCount); }
    if size < 8 { return Err(BadSize); }
    if warmup < 0 { return Err(BadWarmup); }
    if window <= 0 { return Err(BadWindow); }
    if timeout < 0 { return Err(BadTimeout); }
    if duration < 0 { return Err(BadDuration); }
    ghost var answered: nat := 0;
    for i := 0 to warmup
      invariant conn.Valid()
      invariant WarmUp(conn.world, q, conn.line, i, answered) == WarmUp(conn.world, q, old(conn.line), 0, 0)
    {
      ghost var a := EchoOnce(conn.world, size, timeout, conn.line, i);
      var echo := UdpEchoOnce(conn, size, i, timeout);
      if echo.Err? {
        return Err(WarmupFailed(i, echo.error));
      }
      answered := answered + (if a.Replied? then 1 else 0);
    }
    assert WarmUp(conn.world, q, old(conn.line), 0, 0) == Warm(conn.line, answered);
    var start := conn.line.now;
    var run: Result<Flight, Failure>;
    if duration > 0 {
      if window == 1 {
        run := EchoSerialDuration(conn, size, warmup, timeout, duration);
      } else {
        run := EchoWindowDuration(conn, size, warmup, window, timeout, duration);
      }
    } else if window == 1 {
      run := EchoSerialCount(conn, count, size, warmup, timeout);
    } else {
      run := EchoWindow(conn, count, size, warmup, window, timeout);
    }
    if run.Err? {
      return Err(EchoFailed(run.error));
    }
    var f := run.value;
    return Ok(PerfResult(if duration > 0 then f.next - warmup else count, duration, size, warmup, window,
                         1, f.lost, conn.line.now - start, f.rtt));
  }

  // --- What a measurement is worth -------------------------------------------------

  /** The write log from `m` on carries the numbers `base`, `base + 1`, ... */
  ghost predicate Numbered(sent: seq<Sent>, m: nat, base: nat) {
    forall k :: m <= k < |sent| ==> sent[k].seqno == base + (k - m)
  }

  /** What the serial engine keeps count of, for any packet timeout. */
  lemma {:induction false} SerialTally(w: World, e: Echo, f: Flight, m: nat)
    requires f.line.cursor <= |w.inbox| && e.base <= f.next && (e.plan.Count? ==> f.next <= e.plan.limit)
    requires m + (f.next - e.base) == |f.line.sent| && Numbered(f.line.sent, m, e.base)
    requires f.pending == map[]
    ensures Serial(w, e, f).Finished? ==>
              var g := Serial(w, e, f).flight;
              && |g.rtt| + g.lost - (|f.rtt| + f.lost) == g.next - f.next
              && !MaySend(e, g) && g.pending == map[] && e.base <= g.next
              && m + (g.next - e.base) == |g.line.sent| && Numbered(g.line.sent, m, e.base)
              && |f.line.sent| <= |g.line.sent| && g.line.sent[..|f.line.sent|] == f.line.sent
              && |g.rtt| - |f.rtt| <= g.line.cursor - f.line.cursor && Intact(w, f.line.cursor, g.line.cursor)
              && g.line.cursor <= |w.inbox| && f.line.now <= g.line.now
              && (e.plan.Count? ==> g.next == e.plan.limit)
    decreases if e.plan.Count? then e.plan.limit - f.next else Unread(w, f), TimeLeft(e, f), f.next == e.base
  {
    hide EchoOnce;
    if MaySend(e, f) {
      var a := EchoOnce(w, e.size, e.timeout, f.line, f.next);
      if !a.Broke? {
        SerialTally(w, e, AfterEcho(f, a), m);
      }
    }
  }

  lemma {:induction false} ReachMatched(w: World, e: Echo, l0: Line, n: nat)
    requires w.InOrder() && e.WellFormed() && l0.cursor <= |w.inbox|
    requires Reach(w, e, Start(e, l0), n).Some?
    ensures var f := Reach(w, e, Start(e, l0), n).value;
            |f.rtt| <= f.line.cursor - l0.cursor && Intact(w, l0.cursor, f.line.cursor)
  {
    hide Advance;
    if n > 0 {
      ReachMatched(w, e, l0, n - 1);
      AdvanceMatched(w, e, Reach(w, e, Start(e, l0), n - 1).value);
    }
  }

  lemma AdvanceMatched(w: World, e: Echo, f: Flight)
    requires Ready(w, e, f)
    ensures Advance(w, e, f).On? ==>
              var g := Advance(w, e, f).flight;
              && |g.rtt| - |f.rtt| <= g.line.cursor - f.line.cursor
              && Intact(w, f.line.cursor, g.line.cursor)
  {
    hide IsOldest, Survivors, ReadDeadline, MaySend;
  }

  /** The same count for the windowed engine. */
  lemma WindowTally(w: World, e: Echo, l0: Line)
    requires w.InOrder() && e.WellFormed() && l0.cursor <= |w.inbox|
    requires WindowRun(w, e, l0).Finished?
    ensures var g := WindowRun(w, e, l0).flight;
            && |g.rtt| + g.lost == g.next - e.base
            && !MaySend(e, g) && e.base <= g.next
            && |l0.sent| + (g.next - e.base) == |g.line.sent| && Numbered(g.line.sent, |l0.sent|, e.base)
            && g.line.sent[..|l0.sent|] == l0.sent
            && |g.rtt| <= g.line.cursor - l0.cursor && Intact(w, l0.cursor, g.line.cursor)
            && g.line.cursor <= |w.inbox| && l0.now <= g.line.now
            && (e.plan.Count? ==> g.next == e.plan.limit)
  {
    hide Accounted, Prompt, IsOldest;
    var n := RunReaches(w, e, Start(e, l0));
    ReachInv(w, e, l0, n);
    ReachMatched(w, e, l0, n);
    RunIsFaithful(w, e, l0);
    var g := WindowRun(w, e, l0).flight;
    var sends := Mine(l0, g.line);
    TallyOfLog(e, l0, sends, g);
  }

  lemma TallyOfLog(e: Echo, l0: Line, sends: seq<Sent>, g: Flight)
    requires g.line.sent == l0.sent + sends
    requires forall k :: 0 <= k < |sends| ==> sends[k].seqno == e.base + k
    ensures Numbered(g.line.sent, |l0.sent|, e.base)
  {
    forall k | |l0.sent| <= k < |g.line.sent|
      ensures g.line.sent[k].seqno == e.base + (k - |l0.sent|)
    {
      assert g.line.sent[k] == sends[k - |l0.sent|];
    }
  }

  lemma {:induction false} WarmUpNumbered(w: World, q: Request, l: Line, i: nat, answered: nat, m: nat)
    requires l.cursor <= |w.inbox| && q.size >= 0 && i <= q.warmup
    requires |l.sent| == m + i && Numbered(l.sent, m, 0)
    ensures WarmUp(w, q, l, i, answered).Warm? ==> Numbered(WarmUp(w, q, l, i, answered).line.sent, m, 0)
    decreases q.warmup - i
  {
    hide EchoOnce;
    if i < q.warmup {
      match EchoOnce(w, q.size, q.timeout, l, i) {
        case Broke(_, _) =>
        case Replied(l') => WarmUpNumbered(w, q, l', i + 1, answered + 1, m);
        case Silent(l') => WarmUpNumbered(w, q, l', i + 1, answered, m);
      }
    }
  }

  lemma JoinNumbered(sent: seq<Sent>, m: nat, i: nat)
    requires m + i <= |sent| && Numbered(sent[..m + i], m, 0) && Numbered(sent, m + i, i)
    ensures Numbered(sent, m, 0)
  {
    forall k | m <= k < m + i
      ensures sent[k].seqno == k - m
    {
      assert sent[..m + i][k].seqno == k - m;
    }
  }

  /** Both engines, as one: what either of them returns is counted the same way. */
  lemma EngineTally(w: World, q: Request, l: Line)
    requires Rejected(q).None? && w.InOrder() && l.cursor <= |w.inbox|
    requires Engine(w, q, l).Finished?
    ensures var g := Engine(w, q, l).flight;
            && |g.rtt| + g.lost == g.next - q.warmup
            && |l.sent| + (g.next - q.warmup) == |g.line.sent| && Numbered(g.line.sent, |l.sent|, q.warmup)
            && g.line.sent[..|l.sent|] == l.sent
            && |g.rtt| <= g.line.cursor - l.cursor && Intact(w, l.cursor, g.line.cursor)
            && g.line.cursor <= |w.inbox| && l.now <= g.line.now
            && q.warmup <= g.next
            && (q.duration <= 0 ==> g.next == q.warmup + q.count)
            && (q.duration > 0 ==> q.warmup < g.next)
  {
    var e := EchoOf(q, l.now);
    if q.window == 1 {
      SerialTally(w, e, Start(e, l), |l.sent|);
    } else {
      WindowTally(w, e, l);
    }
  }

  /** For every request that is measured without error: the datagrams are exactly divided
      between round trips and losses; the write log shows the numbers `0, 1, ...` in order,
      warm-ups first; and no more replies were matched than datagrams were taken in. */
  lemma {:induction false} MeasureCounts(w: World, q: Request, l: Line)
    requires w.InOrder() && l.cursor <= |w.inbox|
    ensures match Measure(w, q, l)
            case Not(_, _) => true
            case Done(r, l', answered) =>
              && |r.rtt| + r.lost == r.count && r.count >= 1 && r.lost >= 0
              && (q.duration <= 0 ==> r.count == q.count)
              && |l'.sent| == |l.sent| + q.warmup + r.count
              && l'.sent[..|l.sent|] == l.sent && Numbered(l'.sent, |l.sent|, 0)
              && answered <= q.warmup && answered + |r.rtt| <= l'.cursor - l.cursor
              && Intact(w, l.cursor, l'.cursor)
              && l'.cursor <= |w.inbox| && l.now <= l'.now
  {
    hide WarmUp, Engine;
    if Rejected(q).None? && WarmUp(w, q, l, 0, 0).Warm? {
      var l1 := WarmUp(w, q, l, 0, 0).line;
      WarmUpNumbered(w, q, l, 0, 0, |l.sent|);
      if Engine(w, q, l1).Finished? {
        EngineTally(w, q, l1);
        var l2 := Engine(w, q, l1).flight.line;
        assert l2.sent[..|l.sent| + q.warmup] == l1.sent;
        JoinNumbered(l2.sent, |l.sent|, q.warmup);
        assert l2.sent[..|l.sent|] == l1.sent[..|l.sent|];
      }
    }
  }

  /** Under a packet timeout the choice of engine cannot be told from the result. */
  lemma DispatchPreservesMeaning(w: World, q: Request, l: Line)
    requires Rejected(q).None? && w.InOrder() && l.cursor <= |w.inbox|
    requires q.timeout > 0 || w.ctx.deadline.Some?
    ensures Engine(w, q, l) == WindowRun(w, EchoOf(q, l.now), l)
  {
    if q.window == 1 {
      SerialIsWindowOne(w, EchoOf(q, l.now), Start(EchoOf(q, l.now), l));
    }
  }

  /** The writes from `m` on were made before `end`. */
  ghost predicate SentBefore(sent: seq<Sent>, m: int, end: int) {
    forall k :: 0 <= k < |sent| && m <= k ==> sent[k].at < end
  }

  /** Every round trip of every engine lies between nothing and the packet timeout, and the
      run keeps to its schedule: a count to the last window's timeout, a duration to one
      timeout past its end, with nothing sent once the time is up. The run starts `elapsed`
      before the end, after the warm-up. */
  lemma {:induction false} MeasureTimes(w: World, q: Request, l: Line)
    requires w.InOrder() && l.cursor <= |w.inbox| && q.timeout > 0
    ensures match Measure(w, q, l)
            case Not(_, _) => true
            case Done(r, l', _) =>
              && (forall i :: 0 <= i < |r.rtt| ==> 0 <= r.rtt[i] <= q.timeout)
              && (q.duration <= 0 ==> 0 <= r.elapsed <= ((q.count - 1) / q.window + 1) * q.timeout)
              && (q.duration > 0 ==>
                    && q.duration <= r.elapsed < q.duration + q.timeout
                    && SentBefore(l'.sent, |l.sent| + q.warmup, l'.now - r.elapsed + q.duration))
  {
    if Rejected(q).None? && WarmUp(w, q, l, 0, 0).Warm? {
      var l1 := WarmUp(w, q, l, 0, 0).line;
      var e := EchoOf(q, l1.now);
      DispatchPreservesMeaning(w, q, l1);
      if WindowRun(w, e, l1).Finished? {
        EngineTally(w, q, l1);
        RunTimes(w, e, l1);
      }
    }
  }

  lemma RunTimes(w: World, e: Echo, l: Line)
    requires w.InOrder() && e.WellFormed() && l.cursor <= |w.inbox| && e.timeout > 0
    requires WindowRun(w, e, l).Finished?
    requires e.plan.Until? ==> l.now < e.plan.end
    ensures var g := WindowRun(w, e, l).flight;
            && Bounded(e, g.rtt)
            && (e.plan.Count? && e.base < e.plan.limit ==>
                  g.line.now <= l.now + ((e.plan.limit - e.base - 1) / e.window + 1) * e.timeout)
            && (e.plan.Until? ==>
                  e.plan.end <= g.line.now < e.plan.end + e.timeout
                  && SentBefore(g.line.sent, |l.sent|, e.plan.end))
  {
    var n := RunReaches(w, e, Start(e, l));
    RoundTripsBounded(w, e, l, n);
    if e.plan.Count? {
      Schedule(w, e, l, n);
    } else {
      DurationRun(w, e, l);
      var g := WindowRun(w, e, l).flight;
      assert forall k :: |l.sent| <= k < |g.line.sent| ==> g.line.sent[k] == Mine(l, g.line)[k - |l.sent|];
    }
  }

  /** The health agent's own sample: under its context timeout the measurement is the one
      that the context it was started with would give, whatever that is. */
  lemma SampleIsUnlimited(w: World, q: Request, l: Line, interval: int)
    requires w.InOrder() && l.cursor <= |w.inbox|
    requires q.count > 0 && q.size >= 8 && q.warmup == 0 && q.window > 0 && q.timeout > 0 && q.duration == 0
    ensures var limit := SampleTimeout(q.count, q.window, q.timeout, interval);
            Measure(w.(ctx := WithTimeout(w.ctx, l.now, limit)), q, l) == Measure(w, q, l)
  {
    var limited := w.(ctx := WithTimeout(w.ctx, l.now, SampleTimeout(q.count, q.window, q.timeout, interval)));
    assert WarmUp(w, q, l, 0, 0) == Warm(l, 0) == WarmUp(limited, q, l, 0, 0);
    DispatchPreservesMeaning(w, q, l);
    DispatchPreservesMeaning(limited, q, l);
    SampleDeadlineNeverFires(w, EchoOf(q, l.now), l, interval);
  }
}
