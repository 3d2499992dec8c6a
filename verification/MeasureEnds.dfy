/** When a whole measurement ends without error, and what causes each failure. */
module MeasureEnds {
  import opened Common
  import opened Socket
  import opened EchoMachine
  import opened Endings
  import opened Perf

  // --- One echo ----------------------------------------------------------------------

  lemma HarmLater(w: World, size: nat, timed: bool, l0: Line, l1: Line, l: Line, why: Failure)
    requires Smooth(w, size, l0, l1) && Written(w, l0, l1) && l0.cursor <= l1.cursor
    requires Harm(w, size, timed, l1, l, why)
    ensures Harm(w, size, timed, l0, l, why)
  {}

  lemma SmoothLater(w: World, size: nat, l0: Line, l1: Line, l: Line)
    requires Smooth(w, size, l0, l1) && Written(w, l0, l1) && Smooth(w, size, l1, l) && Written(w, l1, l)
    ensures Smooth(w, size, l0, l) && Written(w, l0, l)
  {}

  /** Waiting ends with the reply, at the deadline, or with a reason to fail. */
  lemma {:induction false} AwaitEnds(w: World, size: nat, l: Line, seqno: nat, d: int)
    requires l.cursor <= |w.inbox|
    ensures var a := Await(w, size, l, seqno, d);
            && (l.now <= d ==> a.line.now <= d)
            && LastTaken(w, l, a.line) <= a.line.now
            && match a
               case Replied(l') => Smooth(w, size, l, l')
               case Silent(l') => Smooth(w, size, l, l') && l'.now == Max(l.now, d)
               case Broke(why, l') =>
                 why != WriteFailed && (d < l.now ==> l' == l)
                 && (why == WrongSize ==> LastMisfit(w, size, l, l'))
                 && (why == ReadFailed ==>
                       LastFault(w, l, l')
                       || (Smooth(w, size, l, l') && w.ctx.Done(l'.now)
                           && (l'.cursor < |w.inbox| ==> d < l'.now || l'.now < w.inbox[l'.cursor].at)))
    decreases |w.inbox| - l.cursor
  {
    var (reply, l') := Receive(w, l, d);
    if reply.Got? && reply.size == size {
      assert SoundAt(w, size, l.cursor);
      if reply.seqno != seqno {
        AwaitEnds(w, size, l', seqno, d);
      }
    }
  }

  /** One echo: a datagram that is given up is given up exactly at its expiry, or after 30
      seconds when there is no packet timeout; and an echo that fails had a reason to. */
  lemma EchoEnds(w: World, size: nat, timeout: int, l: Line, seqno: nat)
    requires l.cursor <= |w.inbox|
    ensures var a := EchoOnce(w, size, timeout, l, seqno);
            && LastTaken(w, l, a.line) <= a.line.now
            && (timeout > 0 ==> a.line.now <= l.now + timeout)
            && match a
               case Replied(l') => Smooth(w, size, l, l') && Written(w, l, l')
               case Silent(l') =>
                 && Smooth(w, size, l, l') && Written(w, l, l')
                 && l'.now == l.now + (if timeout > 0 then timeout else 30_000_000_000)
               case Broke(why, l') =>
                 && Harm(w, size, true, l, l', why)
                 && (if why == WriteFailed then l' == l else |l'.sent| == |l.sent| + 1)
  {
    if Transmit(w, l, PEER, seqno, size).Some? {
      var l1 := Transmit(w, l, PEER, seqno, size).value;
      var d := PacketDeadline(w.ctx, l.now, timeout);
      AwaitEnds(w, size, l1, seqno, d);
      assert d < l.now ==> w.ctx.deadline.Some? && w.ctx.deadline.value < l.now;
    }
  }

  /** Warm-ups, whose losses are ignored, fail for the same reasons only. */
  lemma {:induction false} WarmUpEnds(w: World, q: Request, l: Line, i: nat, answered: nat)
    requires l.cursor <= |w.inbox| && q.size >= 0 && i <= q.warmup
    ensures var r := WarmUp(w, q, l, i, answered);
            match r
            case Warm(l', _) => Smooth(w, q.size, l, l') && Written(w, l, l')
            case Cold(n, why, l') =>
              && i <= n < q.warmup && Harm(w, q.size, true, l, l', why)
              && |l'.sent| - |l.sent| == n - i + (if why == WriteFailed then 0 else 1)
    decreases q.warmup - i
  {
    hide EchoOnce, Harm, Smooth, Written, LastTaken;
    if i == q.warmup {
      NothingYet(w, q.size, l);
    } else {
      EchoEnds(w, q.size, q.timeout, l, i);
      var a := EchoOnce(w, q.size, q.timeout, l, i);
      if !a.Broke? {
        var more := answered + if a.Replied? then 1 else 0;
        var r := WarmUp(w, q, a.line, i + 1, more);
        WarmUpEnds(w, q, a.line, i + 1, more);
        match r {
          case Warm(l', _) => SmoothLater(w, q.size, l, a.line, l');
          case Cold(_, why, l') => HarmLater(w, q.size, true, l, a.line, l', why);
        }
      }
    }
  }

  /** Each takes one packet timeout at most. */
  lemma {:induction false} WarmUpOver(w: World, q: Request, l: Line, i: nat, answered: nat)
    requires l.cursor <= |w.inbox| && q.size >= 0 && i <= q.warmup && q.timeout > 0
    ensures var r := WarmUp(w, q, l, i, answered);
            && l.cursor <= r.line.cursor && LastTaken(w, l, r.line) <= r.line.now
            && r.line.now <= l.now + Product(q.warmup - i, q.timeout)
    decreases q.warmup - i
  {
    hide EchoOnce, Harm, Smooth, Written;
    if i < q.warmup {
      EchoEnds(w, q.size, q.timeout, l, i);
      var a := EchoOnce(w, q.size, q.timeout, l, i);
      if !a.Broke? {
        WarmUpOver(w, q, a.line, i + 1, answered + if a.Replied? then 1 else 0);
      }
    }
  }

  function Product(n: nat, t: nat): (r: nat)
    ensures r == n * t
  {
    if n == 0 then 0 else Product(n - 1, t) + t
  }

  lemma LogGrows(w: World, l0: Line, l: Line)
    requires Written(w, l0, l)
    ensures |l0.sent| <= |l.sent|
  {}

  lemma HarmWritten(w: World, size: nat, timed: bool, l0: Line, l: Line, why: Failure)
    requires Harm(w, size, timed, l0, l, why)
    ensures Written(w, l0, l) && (timed ==> Harm(w, size, false, l0, l, why))
  {}

  lemma NothingYet(w: World, size: nat, l: Line)
    ensures Smooth(w, size, l, l) && Written(w, l, l)
  {}

  // --- A measurement -----------------------------------------------------------------

  /** The socket as the measurement leaves it. */
  function LeftBy(m: Measured): Line {
    match m
    case Done(_, l, _) => l
    case Not(_, l) => l
  }

  /** Some datagram of the plan has still to be sent. The time of a measurement by duration
      begins with the first datagram after the warm-up. */
  predicate StillToSend(q: Request, l0: Line, l: Line) {
    var n := |l.sent| - |l0.sent|;
    if q.duration <= 0 then n < q.warmup + q.count
    else n <= q.warmup || (q.warmup >= 0 && l.now < l.sent[|l0.sent| + q.warmup].at + q.duration)
  }

  /** How long an engine with a packet timeout takes at most. */
  function EngineTime(q: Request): int
    requires q.window > 0
  {
    if q.duration > 0 then q.duration + q.timeout else ((q.count - 1) / q.window + 1) * q.timeout
  }

  /** By when a measurement with a packet timeout is over, whatever happens. */
  function LastCall(q: Request, start: int): int
    requires q.window > 0
  {
    start + q.warmup * q.timeout + EngineTime(q)
  }

  lemma EngineMoment(q: Request, start: int)
    requires Rejected(q).None?
    ensures LastMoment(EchoOf(q, start), start) == start + EngineTime(q)
  {}

  lemma EngineOver(w: World, q: Request, l: Line)
    requires Rejected(q).None? && w.InOrder() && l.cursor <= |w.inbox| && q.timeout > 0
    ensures var l' := Left(Engine(w, q, l));
            l.cursor <= l'.cursor <= |w.inbox| && LastTaken(w, l, l') <= l'.now <= l.now + EngineTime(q)
  {
    hide LastMoment, WindowRun, Harm, EngineTime;
    EngineMoment(q, l.now);
    DispatchPreservesMeaning(w, q, l);
    RunEnds(w, EchoOf(q, l.now), l);
    RunIsOver(w, EchoOf(q, l.now), l);
  }

  /** The serial engine, with or without a packet timeout. */
  lemma {:induction false} SerialEnds(w: World, e: Echo, f: Flight)
    requires f.line.cursor <= |w.inbox| && e.base <= f.next && (e.plan.Count? ==> f.next <= e.plan.limit)
    ensures match Serial(w, e, f)
            case Finished(g) =>
              && Smooth(w, e.size, f.line, g.line) && Written(w, f.line, g.line) && !MaySend(e, g)
              && |g.line.sent| - |f.line.sent| == g.next - f.next && f.line.cursor <= g.line.cursor
            case Failed(why, l) =>
              && Harm(w, e.size, true, f.line, l, why)
              && (why == WriteFailed ==>
                    match e.plan
                    case Count(limit) => |l.sent| - |f.line.sent| < limit - f.next
                    case Until(end) => (f.next == e.base && |l.sent| == |f.line.sent|) || l.now < end)
    decreases if e.plan.Count? then e.plan.limit - f.next else Unread(w, f), TimeLeft(e, f), f.next == e.base
  {
    hide EchoOnce, Harm, Smooth, Written, LastTaken;
    if !MaySend(e, f) {
      NothingYet(w, e.size, f.line);
    } else {
      EchoEnds(w, e.size, e.timeout, f.line, f.next);
      var a := EchoOnce(w, e.size, e.timeout, f.line, f.next);
      if !a.Broke? {
        var g := AfterEcho(f, a);
        SerialEnds(w, e, g);
        match Serial(w, e, g) {
          case Finished(h) => SmoothLater(w, e.size, f.line, g.line, h.line);
          case Failed(why, l) => HarmLater(w, e.size, true, f.line, g.line, l, why);
        }
      }
    }
  }

  /** Without a packet timeout the windowed engine fails on silence, the serial one does not. */
  predicate Timed(q: Request) {
    q.timeout > 0 || q.window == 1
  }

  /** Any engine, with the warm-up's `l0` before it. */
  lemma EngineEnds(w: World, q: Request, l0: Line, l: Line)
    requires Rejected(q).None? && w.InOrder() && l.cursor <= |w.inbox|
    requires |l.sent| == |l0.sent| + q.warmup
    ensures match Engine(w, q, l)
            case Finished(f) => Smooth(w, q.size, l, f.line) && Written(w, l, f.line) && !StillToSend(q, l0, f.line)
            case Failed(why, l') =>
              Harm(w, q.size, Timed(q), l, l', why) && (why == WriteFailed ==> StillToSend(q, l0, l'))
  {
    hide WindowRun, SerialRun, Harm, Smooth, Written;
    var e := EchoOf(q, l.now);
    if q.window == 1 {
      SerialRunEnds(w, e, l);
    } else {
      RunEnds(w, e, l);
    }
    match Engine(w, q, l) {
      case Finished(f) => LogGrows(w, l, f.line);
      case Failed(why, l') =>
        HarmWritten(w, q.size, Timed(q), l, l', why);
        LogGrows(w, l, l');
    }
  }

  lemma SerialRunEnds(w: World, e: Echo, l: Line)
    requires w.InOrder() && e.WellFormed() && l.cursor <= |w.inbox|
    ensures match SerialRun(w, e, l)
            case Finished(f) =>
              Smooth(w, e.size, l, f.line) && Written(w, l, f.line) && !Unsent(e, l, f.line) && StartsAtOnce(l, f.line)
            case Failed(why, l') =>
              && Harm(w, e.size, true, l, l', why)
              && (why == WriteFailed ==> Unsent(e, l, l') && StartsAtOnce(l, l'))
  {
    hide Harm, Smooth, Written;
    SerialEnds(w, e, Start(e, l));
    SerialStarts(w, e, l);
  }

  lemma SerialStarts(w: World, e: Echo, l: Line)
    requires l.cursor <= |w.inbox| && (e.plan.Count? ==> e.base <= e.plan.limit)
    ensures StartsAtOnce(l, Left(SerialRun(w, e, l)))
  {
    hide EchoOnce;
    var f := Start(e, l);
    if MaySend(e, f) {
      FirstEcho(w, e.size, e.timeout, l, e.base);
      var a := EchoOnce(w, e.size, e.timeout, l, e.base);
      if !a.Broke? {
        Continues(w, e, AfterEcho(f, a));
      }
    }
  }

  lemma FirstEcho(w: World, size: nat, timeout: int, l: Line, seqno: nat)
    requires l.cursor <= |w.inbox|
    ensures StartsAtOnce(l, EchoOnce(w, size, timeout, l, seqno).line)
    ensures l.sent <= EchoOnce(w, size, timeout, l, seqno).line.sent
  {}

  /** A serial run only adds to the write log. */
  lemma {:induction false} Continues(w: World, e: Echo, f: Flight)
    requires f.line.cursor <= |w.inbox| && e.base <= f.next && (e.plan.Count? ==> f.next <= e.plan.limit)
    ensures f.line.sent <= Left(Serial(w, e, f)).sent
    decreases if e.plan.Count? then e.plan.limit - f.next else Unread(w, f), TimeLeft(e, f), f.next == e.base
  {
    hide EchoOnce;
    if MaySend(e, f) {
      FirstEcho(w, e.size, e.timeout, f.line, f.next);
      var a := EchoOnce(w, e.size, e.timeout, f.line, f.next);
      if !a.Broke? {
        Continues(w, e, AfterEcho(f, a));
      }
    }
  }

  lemma MeasureOver(w: World, q: Request, l: Line)
    requires Rejected(q).None? && w.InOrder() && l.cursor <= |w.inbox| && q.timeout > 0
    ensures var l' := LeftBy(Measure(w, q, l));
            l.cursor <= l'.cursor <= |w.inbox| && LastTaken(w, l, l') <= l'.now <= LastCall(q, l.now)
  {
    hide WarmUp, Engine, EngineTime;
    WarmUpOver(w, q, l, 0, 0);
    match WarmUp(w, q, l, 0, 0) {
      case Cold(_, _, _) => EngineTimePositive(q);
      case Warm(l1, _) => EngineOver(w, q, l1);
    }
  }

  lemma EngineTimePositive(q: Request)
    requires Rejected(q).None?
    ensures EngineTime(q) >= 0
  {}

  predicate FailsAs(error: PerfError, why: Failure) {
    (error.WarmupFailed? || error.EchoFailed?) && error.why == why
  }

  /** What is true of the end of every measurement that is begun. */
  lemma MeasureEndsAs(w: World, q: Request, l: Line)
    requires Rejected(q).None? && w.InOrder() && l.cursor <= |w.inbox|
    ensures match Measure(w, q, l)
            case Done(_, l', _) => Smooth(w, q.size, l, l') && Written(w, l, l') && !StillToSend(q, l, l')
            case Not(error, l') =>
              exists why ::
                && FailsAs(error, why) && Harm(w, q.size, Timed(q), l, l', why)
                && (why == WriteFailed ==> StillToSend(q, l, l'))
  {
    hide WarmUp, Engine, Harm, Smooth, Written;
    WarmUpEnds(w, q, l, 0, 0);
    match WarmUp(w, q, l, 0, 0) {
      case Cold(n, why, l') =>
        HarmWritten(w, q.size, true, l, l', why);
        assert FailsAs(WarmupFailed(n, why), why);
      case Warm(l1, _) =>
        EngineEnds(w, q, l, l1);
        match Engine(w, q, l1) {
          case Finished(f) => SmoothLater(w, q.size, l, l1, f.line);
          case Failed(why, l') =>
            HarmLater(w, q.size, Timed(q), l, l1, l', why);
            assert FailsAs(EchoFailed(why), why);
        }
    }
  }

  /** Exactly when a measurement ends without error, and exactly when in each way with one,
      under a packet timeout and a context that outlives it. */
  lemma MeasureEndsIff(w: World, q: Request, l: Line)
    requires Rejected(q).None? && w.InOrder() && l.cursor <= |w.inbox| && q.timeout > 0
    requires !w.ctx.Done(LastCall(q, l.now))
    ensures var m := Measure(w, q, l);
            var l' := LeftBy(m);
            var stuck := |l'.sent| in w.writeFaults && StillToSend(q, l, l');
            && (m.Done? <==> Smooth(w, q.size, l, l') && !stuck)
            && (m.Not? && FailsAs(m.error, WriteFailed) <==> Smooth(w, q.size, l, l') && stuck)
            && (m.Not? && FailsAs(m.error, WrongSize) <==> LastMisfit(w, q.size, l, l'))
            && (m.Not? && FailsAs(m.error, ReadFailed) <==> LastFault(w, l, l'))
  {
    hide LastCall, Measure, StillToSend;
    MeasureEndsAs(w, q, l);
    MeasureOver(w, q, l);
    var l' := LeftBy(Measure(w, q, l));
    DoneLater(w.ctx, l'.now, LastCall(q, l.now));
    NotSmooth(w, q.size, l, l');
  }

  /** What can be looked at before the call: then a measurement ends without error. */
  lemma MeasureFinishes(w: World, q: Request, l: Line)
    requires Rejected(q).None? && w.InOrder() && l.cursor <= |w.inbox| && q.timeout > 0
    requires !w.ctx.Done(LastCall(q, l.now)) && SoundBy(w, q.size, l.cursor, LastCall(q, l.now))
    requires forall k: nat :: |l.sent| <= k && (q.duration <= 0 ==> k - |l.sent| < q.warmup + q.count) ==> k !in w.writeFaults
    ensures Measure(w, q, l).Done?
  {
    hide LastCall, Measure, SoundBy, Smooth;
    MeasureEndsAs(w, q, l);
    MeasureOver(w, q, l);
    MeasureEndsIff(w, q, l);
    SmoothBy(w, q.size, l, LeftBy(Measure(w, q, l)), LastCall(q, l.now));
  }

  /** A peer that never answers costs no error: all is lost, and that is the result. */
  lemma MeasureOfSilence(w: World, q: Request, l: Line)
    requires Rejected(q).None? && w.InOrder() && l.cursor <= |w.inbox| && q.timeout > 0
    requires !w.ctx.Done(LastCall(q, l.now))
    requires l.cursor < |w.inbox| ==> LastCall(q, l.now) < w.inbox[l.cursor].at
    requires forall k: nat :: |l.sent| <= k && (q.duration <= 0 ==> k - |l.sent| < q.warmup + q.count) ==> k !in w.writeFaults
    ensures var m := Measure(w, q, l);
            && m.Done? && m.answered == 0 && m.result.rtt == [] && m.result.lost == m.result.count
            && (q.duration <= 0 ==> m.result.lost == q.count)
  {
    hide LastCall, Measure;
    MeasureFinishes(w, q, l);
    MeasureOver(w, q, l);
    MeasureCounts(w, q, l);
  }

  /** The time of a measurement runs from its first datagram after the warm-up; the rest of the
      result repeats the request. */
  lemma MeasureClock(w: World, q: Request, l: Line)
    requires w.InOrder() && l.cursor <= |w.inbox|
    ensures match Measure(w, q, l)
            case Not(_, _) => true
            case Done(r, l', _) =>
              && q.warmup >= 0 && |l.sent| + q.warmup < |l'.sent|
              && r.elapsed == l'.now - l'.sent[|l.sent| + q.warmup].at
              && (r.duration, r.size, r.warmup, r.window, r.streams) == (q.duration, q.size, q.warmup, q.window, 1)
  {
    hide WarmUp, Engine;
    MeasureCounts(w, q, l);
    if Rejected(q).None? && WarmUp(w, q, l, 0, 0).Warm? {
      var l1 := WarmUp(w, q, l, 0, 0).line;
      if Engine(w, q, l1).Finished? {
        EngineStarts(w, q, l1);
      }
    }
  }

  lemma EngineStarts(w: World, q: Request, l: Line)
    requires Rejected(q).None? && w.InOrder() && l.cursor <= |w.inbox| && Engine(w, q, l).Finished?
    ensures StartsAtOnce(l, Engine(w, q, l).flight.line)
  {
    hide WindowRun;
    var e := EchoOf(q, l.now);
    if q.window == 1 {
      SerialStarts(w, e, l);
    } else {
      RunEnds(w, e, l);
    }
  }

  // --- The context's deadline --------------------------------------------------------

  lemma {:induction false} AwaitWithin(w: World, size: nat, l: Line, seqno: nat, d: int)
    requires l.cursor <= |w.inbox| && (w.ctx.deadline.Some? ==> d <= w.ctx.deadline.value)
    ensures Within(w.ctx, l.now, Await(w, size, l, seqno, d).line.now)
    decreases |w.inbox| - l.cursor
  {
    var (reply, l') := Receive(w, l, d);
    if reply.Got? && reply.size == size && reply.seqno != seqno {
      AwaitWithin(w, size, l', seqno, d);
    }
  }

  lemma EchoWithin(w: World, size: nat, timeout: int, l: Line, seqno: nat)
    requires l.cursor <= |w.inbox|
    ensures Within(w.ctx, l.now, EchoOnce(w, size, timeout, l, seqno).line.now)
  {
    if Transmit(w, l, PEER, seqno, size).Some? {
      AwaitWithin(w, size, Transmit(w, l, PEER, seqno, size).value, seqno, PacketDeadline(w.ctx, l.now, timeout));
    }
  }

  lemma {:induction false} WarmUpWithin(w: World, q: Request, l: Line, i: nat, answered: nat)
    requires l.cursor <= |w.inbox| && q.size >= 0 && i <= q.warmup
    ensures Within(w.ctx, l.now, WarmUp(w, q, l, i, answered).line.now)
    decreases q.warmup - i
  {
    hide EchoOnce;
    if i < q.warmup {
      EchoWithin(w, q.size, q.timeout, l, i);
      var a := EchoOnce(w, q.size, q.timeout, l, i);
      if !a.Broke? {
        WarmUpWithin(w, q, a.line, i + 1, answered + if a.Replied? then 1 else 0);
      }
    }
  }

  lemma {:induction false} SerialWithin(w: World, e: Echo, f: Flight)
    requires f.line.cursor <= |w.inbox| && e.base <= f.next && (e.plan.Count? ==> f.next <= e.plan.limit)
    ensures Within(w.ctx, f.line.now, Left(Serial(w, e, f)).now)
    decreases if e.plan.Count? then e.plan.limit - f.next else Unread(w, f), TimeLeft(e, f), f.next == e.base
  {
    hide EchoOnce;
    if MaySend(e, f) {
      EchoWithin(w, e.size, e.timeout, f.line, f.next);
      var a := EchoOnce(w, e.size, e.timeout, f.line, f.next);
      if !a.Broke? {
        SerialWithin(w, e, AfterEcho(f, a));
      }
    }
  }

  /** No measurement outlasts the deadline of its context, with any engine and any packet
      timeout or none. */
  lemma MeasureWithin(w: World, q: Request, l: Line)
    requires w.InOrder() && l.cursor <= |w.inbox|
    ensures Within(w.ctx, l.now, LeftBy(Measure(w, q, l)).now)
  {
    hide WarmUp, WindowRun;
    if Rejected(q).None? {
      WarmUpWithin(w, q, l, 0, 0);
      if WarmUp(w, q, l, 0, 0).Warm? {
        var l1 := WarmUp(w, q, l, 0, 0).line;
        var e := EchoOf(q, l1.now);
        if q.window == 1 {
          SerialWithin(w, e, Start(e, l1));
        } else {
          RunWithin(w, e, l1);
        }
      }
    }
  }
}
