/** When an echo run ends without error, and what causes each failure. */
module Endings {
  import opened Common
  import opened Socket
  import opened EchoMachine
  import opened EchoLaws
  import opened EchoTiming

  /** Arrival `j` is a datagram of the size that was sent. */
  predicate SoundAt(w: World, size: nat, j: nat) {
    j < |w.inbox| && w.inbox[j].Datagram? && w.inbox[j].size == size
  }

  /** From `l0` to `l`: all that was taken is such datagrams. */
  ghost predicate Smooth(w: World, size: nat, l0: Line, l: Line) {
    forall j: nat :: l0.cursor <= j < l.cursor ==> SoundAt(w, size, j)
  }

  /** From `l0` to `l`: no write was one that fails. */
  ghost predicate Written(w: World, l0: Line, l: Line) {
    |l0.sent| <= |l.sent| && forall k: nat :: |l0.sent| <= k < |l.sent| ==> k !in w.writeFaults
  }

  /** What was taken last is a datagram of the wrong size. */
  predicate LastMisfit(w: World, size: nat, l0: Line, l: Line) {
    && l0.cursor < l.cursor <= |w.inbox|
    && w.inbox[l.cursor - 1].Datagram? && w.inbox[l.cursor - 1].size != size
  }

  predicate LastFault(w: World, l0: Line, l: Line) {
    l0.cursor < l.cursor <= |w.inbox| && w.inbox[l.cursor - 1].Fault?
  }

  /** Nothing more had arrived by the time of `l`, unless that is past the context's deadline,
      when nothing is read at all. */
  predicate Lull(w: World, l: Line) {
    || (w.ctx.deadline.Some? && w.ctx.deadline.value < l.now)
    || (l.cursor < |w.inbox| ==> l.now < w.inbox[l.cursor].at)
  }

  /** What must have happened for each failure. Silence alone fails a run only once its context
      is done, or when it is not `timed`. */
  ghost predicate Harm(w: World, size: nat, timed: bool, l0: Line, l: Line, why: Failure) {
    && Written(w, l0, l)
    && match why
       case WriteFailed => Smooth(w, size, l0, l) && |l.sent| in w.writeFaults
       case WrongSize => LastMisfit(w, size, l0, l)
       case ReadFailed =>
         LastFault(w, l0, l) || (Smooth(w, size, l0, l) && Lull(w, l) && (timed ==> w.ctx.Done(l.now)))
  }

  // --- The invariant -----------------------------------------------------------------

  /** Datagram `x` was given up at its expiry, while the context was not done. */
  predicate Lapsed(w: World, e: Echo, x: Sent) {
    e.timeout > 0 && !w.ctx.Done(x.at + e.timeout)
  }

  ghost predicate Excused(w: World, e: Echo, start: int, sends: seq<Sent>, pending: map<nat, int>, hi: nat) {
    forall k :: 0 <= k < |sends| && !Outstanding(e, pending, k) ==>
      Settled(w, e, start, sends[k], hi) || Lapsed(w, e, sends[k])
  }

  /** When the last arrival was taken, or the run began. */
  function LastTaken(w: World, l0: Line, l: Line): int
    requires l.cursor <= |w.inbox|
  {
    if l.cursor <= l0.cursor then l0.now else Taken(w, l0.now, l.cursor - 1)
  }

  ghost predicate Unharmed(w: World, e: Echo, l0: Line, f: Flight) {
    && f.line.cursor <= |w.inbox|
    && Smooth(w, e.size, l0, f.line) && Written(w, l0, f.line)
    && Excused(w, e, l0.now, Mine(l0, f.line), f.pending, f.line.cursor)
    && LastTaken(w, l0, f.line) <= f.line.now && (e.timeout == 0 ==> LastTaken(w, l0, f.line) == f.line.now)
    && (if Mine(l0, f.line) == [] then f.line.now == l0.now else Mine(l0, f.line)[0].at == l0.now)
  }

  lemma ExcusedArrival(w: World, e: Echo, start: int, sends: seq<Sent>, pending: map<nat, int>, j: nat, s: nat)
    requires Excused(w, e, start, sends, pending, j) && Accounted(w, e, start, sends, pending, j)
    requires s in pending ==> e.base <= s < e.base + |sends| && Answers(w, e, start, sends[s - e.base], j)
    ensures Excused(w, e, start, sends, pending - {s}, j + 1)
  {
    forall k | 0 <= k < |sends| && !Outstanding(e, pending - {s}, k)
      ensures Settled(w, e, start, sends[k], j + 1) || Lapsed(w, e, sends[k])
    {
      if e.base + k == s && s in pending {
        assert Outstanding(e, pending, k);
        assert Settles(w, e, start, sends[k], j);
      } else if Settled(w, e, start, sends[k], j) {
        var i: nat :| i < j && Settles(w, e, start, sends[k], i);
        assert i < j + 1;
      }
    }
  }

  /** What expires at a timeout expires then, neither earlier nor later. */
  lemma ExcusedExpiry(w: World, e: Echo, start: int, sends: seq<Sent>, pending: map<nat, int>, hi: nat, now: int)
    requires Excused(w, e, start, sends, pending, hi) && e.timeout > 0 && !w.ctx.Done(now)
    requires forall s :: s in pending ==> now <= pending[s] + e.timeout
    requires forall s :: s in pending ==> e.base <= s < e.base + |sends| && pending[s] == sends[s - e.base].at
    ensures Excused(w, e, start, sends, Survivors(pending, now, e.timeout), hi)
  {
    hide Settled;
    var left := Survivors(pending, now, e.timeout);
    forall k | 0 <= k < |sends| && !Outstanding(e, left, k)
      ensures Settled(w, e, start, sends[k], hi) || Lapsed(w, e, sends[k])
    {
      if Outstanding(e, pending, k) {
        assert pending[e.base + k] == sends[k].at;
      }
    }
  }

  lemma ExcusedSend(w: World, e: Echo, start: int, sends: seq<Sent>, pending: map<nat, int>, hi: nat, x: Sent, t: int)
    requires Excused(w, e, start, sends, pending, hi)
    ensures Excused(w, e, start, sends + [x], pending[e.base + |sends| := t], hi)
  {
    hide Settled;
    var after := pending[e.base + |sends| := t];
    assert Outstanding(e, after, |sends|);
    forall k | 0 <= k < |sends| && !Outstanding(e, after, k)
      ensures !Outstanding(e, pending, k)
    {}
  }

  lemma SendUnharmed(w: World, e: Echo, l0: Line, f: Flight)
    requires Inv(w, e, l0, Mine(l0, f.line), f) && Unharmed(w, e, l0, f)
    requires SendOne(w, e, f).On?
    ensures Unharmed(w, e, l0, SendOne(w, e, f).flight)
  {
    hide Accounted, Tallied, Prompt, Ready, Excused, Entry;
    var g := SendOne(w, e, f).flight;
    var sends := Mine(l0, f.line);
    var x := Sent(PEER, f.next, e.size, f.line.now, f.line.cursor);
    assert Mine(l0, g.line) == sends + [x];
    ExcusedSend(w, e, l0.now, sends, f.pending, f.line.cursor, x, f.line.now);
  }

  lemma GotUnharmed(w: World, e: Echo, l0: Line, f: Flight, s: nat)
    requires Inv(w, e, l0, Mine(l0, f.line), f) && Unharmed(w, e, l0, f) && f.pending != map[]
    requires IsReply(Receive(w, f.line, ReadDeadline(w.ctx, f.line.now, f.pending, e.timeout)).0, s, e.size)
    ensures Unharmed(w, e, l0, ReadOne(w, e, f).flight)
  {
    hide Accounted, Tallied, Settled, Quiet, Unanswered, IsOldest, Entry, Excused, Unharmed, Outstanding;
    var d := ReadDeadline(w.ctx, f.line.now, f.pending, e.timeout);
    var l := Receive(w, f.line, d).1;
    assert ReadOne(w, e, f) == On(AfterGot(f, l, s));
    ReadBounds(w, e, f);
    TakenNow(w, l0, f.line, d);
    GotFacts(w, e, l0, Mine(l0, f.line), f, s, d);
    assert SoundAt(w, e.size, f.line.cursor);
    ArrivalUnharmed(w, e, l0, f, s);
  }

  lemma ArrivalUnharmed(w: World, e: Echo, l0: Line, f: Flight, s: nat)
    requires Unharmed(w, e, l0, f) && SoundAt(w, e.size, f.line.cursor) && l0.cursor <= f.line.cursor
    requires Accounted(w, e, l0.now, Mine(l0, f.line), f.pending, f.line.cursor)
    requires Mine(l0, f.line) != []
    requires s in f.pending ==>
               && e.base <= s < e.base + |Mine(l0, f.line)|
               && Answers(w, e, l0.now, Mine(l0, f.line)[s - e.base], f.line.cursor)
    ensures var l := Line(Taken(w, l0.now, f.line.cursor), f.line.cursor + 1, f.line.sent);
            Unharmed(w, e, l0, AfterGot(f, l, s))
  {
    hide Accounted, Excused, Answers;
    var l := Line(Taken(w, l0.now, f.line.cursor), f.line.cursor + 1, f.line.sent);
    assert Mine(l0, l) == Mine(l0, f.line);
    ExcusedArrival(w, e, l0.now, Mine(l0, f.line), f.pending, f.line.cursor, s);
    if s !in f.pending {
      assert f.pending - {s} == f.pending;
    }
  }

  lemma TimeoutUnharmed(w: World, e: Echo, l0: Line, f: Flight)
    requires Inv(w, e, l0, Mine(l0, f.line), f) && Unharmed(w, e, l0, f) && f.pending != map[]
    requires ReadOne(w, e, f).On?
    requires Receive(w, f.line, ReadDeadline(w.ctx, f.line.now, f.pending, e.timeout)).0.TimedOut?
    ensures Unharmed(w, e, l0, ReadOne(w, e, f).flight)
  {
    hide Accounted, Tallied, Prompt, Entry, Excused, Unharmed, Outstanding, IsOldest, Survivors;
    var g := ReadOne(w, e, f).flight;
    ReadBounds(w, e, f);
    var s :| s in f.pending;
    LaterUnharmed(w, e, l0, f, g);
  }

  /** Time passes, and what expires now goes. */
  lemma LaterUnharmed(w: World, e: Echo, l0: Line, f: Flight, g: Flight)
    requires Unharmed(w, e, l0, f) && Logged(e, l0, Mine(l0, f.line), f) && Mine(l0, f.line) != []
    requires g.line == f.line.(now := g.line.now) && f.line.now <= g.line.now
    requires g.pending == Survivors(f.pending, g.line.now, e.timeout)
    requires e.timeout > 0 && !w.ctx.Done(g.line.now) && forall s :: s in f.pending ==> g.line.now <= f.pending[s] + e.timeout
    ensures Unharmed(w, e, l0, g)
  {
    hide Excused, Survivors, Entry;
    assert Mine(l0, g.line) == Mine(l0, f.line);
    ExcusedExpiry(w, e, l0.now, Mine(l0, f.line), f.pending, f.line.cursor, g.line.now);
  }

  lemma AdvanceUnharmed(w: World, e: Echo, l0: Line, f: Flight)
    requires Inv(w, e, l0, Mine(l0, f.line), f) && Unharmed(w, e, l0, f)
    requires Advance(w, e, f).On?
    ensures Unharmed(w, e, l0, Advance(w, e, f).flight)
  {
    hide Inv, Unharmed;
    if MaySend(e, f) && |f.pending| < e.window {
      SendUnharmed(w, e, l0, f);
    } else {
      match Receive(w, f.line, ReadDeadline(w.ctx, f.line.now, f.pending, e.timeout)).0 {
        case TimedOut => TimeoutUnharmed(w, e, l0, f);
        case Got(_, s, n) => GotUnharmed(w, e, l0, f, s);
      }
    }
  }

  lemma {:induction false} ReachUnharmed(w: World, e: Echo, l0: Line, n: nat)
    requires w.InOrder() && e.WellFormed() && l0.cursor <= |w.inbox|
    requires Reach(w, e, Start(e, l0), n).Some?
    ensures Unharmed(w, e, l0, Reach(w, e, Start(e, l0), n).value)
  {
    hide Inv;
    if n == 0 {
      assert Mine(l0, l0) == [];
    } else {
      ReachInv(w, e, l0, n - 1);
      ReachUnharmed(w, e, l0, n - 1);
      AdvanceUnharmed(w, e, l0, Reach(w, e, Start(e, l0), n - 1).value);
    }
  }

  // --- How a run ends ----------------------------------------------------------------

  /** The socket as the run leaves it. */
  function Left(o: Outcome): Line {
    match o
    case Finished(f) => f.line
    case Failed(_, l) => l
  }

  /** The plan is not exhausted. */
  predicate Unsent(e: Echo, l0: Line, l: Line) {
    match e.plan
    case Count(limit) => |l.sent| - |l0.sent| < limit - e.base
    case Until(end) => |l.sent| == |l0.sent| || l.now < end
  }

  /** Some datagram of the run has had no reply and not yet expired. */
  ghost predicate Awaited(w: World, e: Echo, l0: Line, l: Line) {
    exists x :: x in Mine(l0, l) && Quiet(w, x, l.cursor) && (e.timeout > 0 ==> l.now <= x.at + e.timeout)
  }

  /** Without a packet timeout a read waits for the context's deadline, or 30 seconds. */
  predicate GaveUp(w: World, l0: Line, l: Line)
    requires l.cursor <= |w.inbox|
  {
    var t := LastTaken(w, l0, l);
    l.now == Max(t, if w.ctx.deadline.Some? then w.ctx.deadline.value else t + 30_000_000_000)
  }

  /** The first datagram is sent at once. */
  predicate StartsAtOnce(l0: Line, l: Line) {
    |l0.sent| < |l.sent| ==> l.sent[|l0.sent|].at == l0.now
  }

  /** What is true of every end. A run that ends without error took nothing but datagrams of its
      size, made no write that fails, and gave up every datagram it lost at its expiry, before
      the context was done. A run that fails had a reason to. */
  ghost predicate EndsAs(w: World, e: Echo, l0: Line, o: Outcome) {
    var l := Left(o);
    && l0.cursor <= l.cursor <= |w.inbox| && LastTaken(w, l0, l) <= l.now && StartsAtOnce(l0, l)
    && match o
       case Finished(f) =>
         && Smooth(w, e.size, l0, l) && Written(w, l0, l) && !Unsent(e, l0, l)
         && (forall x :: x in Mine(l0, l) ==> Settled(w, e, l0.now, x, l.cursor) || Lapsed(w, e, x))
       case Failed(why, _) =>
         && Harm(w, e.size, e.timeout > 0, l0, l, why)
         && (why == WriteFailed ==> Unsent(e, l0, l))
         && (why == ReadFailed && !LastFault(w, l0, l) ==>
               Awaited(w, e, l0, l) && (e.timeout == 0 ==> GaveUp(w, l0, l)))
  }

  lemma OffEnds(w: World, e: Echo, l0: Line, f: Flight)
    requires Inv(w, e, l0, Mine(l0, f.line), f) && Unharmed(w, e, l0, f)
    requires Advance(w, e, f).Off?
    ensures EndsAs(w, e, l0, Failed(Advance(w, e, f).why, Advance(w, e, f).line))
  {
    hide Tallied, Accounted, Prompt, Logged, Unharmed, EndsAs, ReadOne, SendOne;
    if MaySend(e, f) && |f.pending| < e.window {
      SendEnds(w, e, l0, f);
    } else if Receive(w, f.line, ReadDeadline(w.ctx, f.line.now, f.pending, e.timeout)).0.TimedOut? {
      TimeoutEnds(w, e, l0, f);
    } else {
      ArrivalEnds(w, e, l0, f);
    }
  }

  lemma SendEnds(w: World, e: Echo, l0: Line, f: Flight)
    requires Inv(w, e, l0, Mine(l0, f.line), f) && Unharmed(w, e, l0, f)
    requires MaySend(e, f) && |f.pending| < e.window && SendOne(w, e, f).Off?
    ensures EndsAs(w, e, l0, Failed(SendOne(w, e, f).why, SendOne(w, e, f).line))
  {
    hide Tallied, Accounted, Excused, Entry;
  }

  lemma TimeoutEnds(w: World, e: Echo, l0: Line, f: Flight)
    requires Inv(w, e, l0, Mine(l0, f.line), f) && Unharmed(w, e, l0, f) && f.pending != map[]
    requires ReadOne(w, e, f).Off?
    requires Receive(w, f.line, ReadDeadline(w.ctx, f.line.now, f.pending, e.timeout)).0.TimedOut?
    ensures EndsAs(w, e, l0, Failed(ReadOne(w, e, f).why, ReadOne(w, e, f).line))
  {
    hide Tallied, Accounted, Excused, Entry, Smooth, Written, Quiet, Awaited;
    var l := ReadOne(w, e, f).line;
    ReadBounds(w, e, f);
    PendingAwaited(w, e, l0, f, l);
    SameTaken(w, e.size, l0, f.line, l);
  }

  lemma PendingAwaited(w: World, e: Echo, l0: Line, f: Flight, l: Line)
    requires Logged(e, l0, Mine(l0, f.line), f) && f.pending != map[]
    requires Accounted(w, e, l0.now, Mine(l0, f.line), f.pending, f.line.cursor)
    requires l == f.line.(now := l.now)
    requires e.timeout > 0 ==> forall s :: s in f.pending ==> l.now <= f.pending[s] + e.timeout
    ensures Awaited(w, e, l0, l)
  {
    hide Quiet, Settled, Unanswered, Entry;
    var s :| s in f.pending;
    var x := Mine(l0, f.line)[s - e.base];
    assert Outstanding(e, f.pending, s - e.base);
    assert Mine(l0, l) == Mine(l0, f.line);
    assert x in Mine(l0, l) && Quiet(w, x, l.cursor);
  }

  /** Only time passed. */
  lemma SameTaken(w: World, size: nat, l0: Line, l: Line, l': Line)
    requires l' == l.(now := l'.now) && l.cursor <= |w.inbox|
    ensures Smooth(w, size, l0, l) ==> Smooth(w, size, l0, l')
    ensures Written(w, l0, l) ==> Written(w, l0, l')
    ensures LastTaken(w, l0, l') == LastTaken(w, l0, l)
  {}

  lemma ArrivalEnds(w: World, e: Echo, l0: Line, f: Flight)
    requires Inv(w, e, l0, Mine(l0, f.line), f) && Unharmed(w, e, l0, f) && f.pending != map[]
    requires ReadOne(w, e, f).Off?
    requires !Receive(w, f.line, ReadDeadline(w.ctx, f.line.now, f.pending, e.timeout)).0.TimedOut?
    ensures EndsAs(w, e, l0, Failed(ReadOne(w, e, f).why, ReadOne(w, e, f).line))
  {
    hide Tallied, Accounted, Excused, Entry, IsOldest, Prompt;
    var l := ReadOne(w, e, f).line;
    assert Mine(l0, l) == Mine(l0, f.line);
    assert l.cursor - 1 == f.line.cursor;
    assert LastFault(w, l0, l) || LastMisfit(w, e.size, l0, l);
  }

  /** Every run, under every context and with or without a packet timeout. */
  lemma RunEnds(w: World, e: Echo, l0: Line)
    requires w.InOrder() && e.WellFormed() && l0.cursor <= |w.inbox|
    ensures EndsAs(w, e, l0, WindowRun(w, e, l0))
  {
    hide Tallied, Settled, Unanswered, Quiet, Harm, Awaited, GaveUp;
    var n := RunReaches(w, e, Start(e, l0));
    ReachInv(w, e, l0, n);
    ReachUnharmed(w, e, l0, n);
    var f := Reach(w, e, Start(e, l0), n).value;
    match WindowRun(w, e, l0) {
      case Finished(_) =>
        var sends := Mine(l0, f.line);
        forall x | x in sends
          ensures Settled(w, e, l0.now, x, f.line.cursor) || Lapsed(w, e, x)
        {
          var k :| 0 <= k < |sends| && sends[k] == x;
          assert !Outstanding(e, f.pending, k);
        }
      case Failed(_, _) => OffEnds(w, e, l0, f);
    }
  }

  // --- When a run ends ---------------------------------------------------------------

  /** By when a run with a packet timeout is over, whatever happens. */
  function LastMoment(e: Echo, start: int): int
    requires e.window > 0
  {
    match e.plan
    case Count(limit) => if limit <= e.base then start else start + ((limit - e.base - 1) / e.window + 1) * e.timeout
    case Until(end) => end + e.timeout
  }

  lemma ReachOver(w: World, e: Echo, l0: Line, n: nat)
    requires w.InOrder() && e.WellFormed() && l0.cursor <= |w.inbox| && e.timeout > 0
    requires e.plan.Until? ==> l0.now < e.plan.end
    requires Reach(w, e, Start(e, l0), n).Some?
    ensures var f := Reach(w, e, Start(e, l0), n).value;
            && f.line.now <= LastMoment(e, l0.now)
            && (f.pending != map[] ==> Oldest(f.pending) + e.timeout <= LastMoment(e, l0.now))
  {
    hide Due, Reach, Paced, Unharmed, Timely;
    var f := Reach(w, e, Start(e, l0), n).value;
    ReachCounts(w, e, l0, n);
    match e.plan {
      case Count(limit) =>
        if e.base < limit {
          Schedule(w, e, l0, n);
          if f.pending != map[] {
            ExpiryBeforeDeadline(w, e, l0, n);
          }
        } else {
          ReachUnharmed(w, e, l0, n);
          NothingSent(w, e, l0, f);
        }
      case Until(end) =>
        ReachTimely(w, e, l0, n);
        TimelyExpiry(e, Mine(l0, f.line), f);
    }
  }

  lemma NothingSent(w: World, e: Echo, l0: Line, f: Flight)
    requires Unharmed(w, e, l0, f) && Mine(l0, f.line) == []
    ensures f.line.now == l0.now
  {}

  lemma TimelyExpiry(e: Echo, sends: seq<Sent>, f: Flight)
    requires e.plan.Until? && Timely(e, sends, f) && e.timeout > 0 && f.next == e.base + |sends|
    requires forall s :: s in f.pending ==> e.base <= s < f.next && f.pending[s] == sends[s - e.base].at
    ensures f.line.now <= e.plan.end + e.timeout
    ensures f.pending != map[] ==> Oldest(f.pending) + e.timeout <= e.plan.end + e.timeout
  {
    if f.pending != map[] {
      var s :| s in f.pending && f.pending[s] == Oldest(f.pending);
      assert sends[s - e.base].at < e.plan.end;
    }
  }

  lemma RunIsOver(w: World, e: Echo, l0: Line)
    requires w.InOrder() && e.WellFormed() && l0.cursor <= |w.inbox| && e.timeout > 0
    requires e.plan.Until? ==> l0.now < e.plan.end
    ensures Left(WindowRun(w, e, l0)).now <= LastMoment(e, l0.now)
  {
    hide LastMoment, IsOldest;
    var n := RunReaches(w, e, Start(e, l0));
    ReachOver(w, e, l0, n);
  }

  lemma DoneLater(ctx: Context, t: int, u: int)
    ensures ctx.Done(t) && t <= u ==> ctx.Done(u)
  {}

  /** Exactly when a run ends without error, and exactly when in each way with one, under a
      packet timeout and a context that outlives the schedule. */
  lemma RunEndsIff(w: World, e: Echo, l0: Line)
    requires w.InOrder() && e.WellFormed() && l0.cursor <= |w.inbox| && e.timeout > 0
    requires e.plan.Until? ==> l0.now < e.plan.end
    requires !w.ctx.Done(LastMoment(e, l0.now))
    ensures var o := WindowRun(w, e, l0);
            var l := Left(o);
            var stuck := |l.sent| in w.writeFaults && Unsent(e, l0, l);
            && (o.Finished? <==> Smooth(w, e.size, l0, l) && !stuck)
            && (o.Failed? && o.why == WriteFailed <==> Smooth(w, e.size, l0, l) && stuck)
            && (o.Failed? && o.why == WrongSize <==> LastMisfit(w, e.size, l0, l))
            && (o.Failed? && o.why == ReadFailed <==> LastFault(w, l0, l))
  {
    hide LastMoment, Lapsed, Settled, Awaited, GaveUp;
    RunEnds(w, e, l0);
    RunIsOver(w, e, l0);
    var l := Left(WindowRun(w, e, l0));
    DoneLater(w.ctx, l.now, LastMoment(e, l0.now));
    NotSmooth(w, e.size, l0, l);
  }

  lemma NotSmooth(w: World, size: nat, l0: Line, l: Line)
    ensures LastMisfit(w, size, l0, l) || LastFault(w, l0, l) ==> !Smooth(w, size, l0, l)
  {
    if l0.cursor < l.cursor <= |w.inbox| {
      assert SoundAt(w, size, l.cursor - 1) <==> !LastMisfit(w, size, l0, l) && !LastFault(w, l0, l);
    }
  }

  /** Every arrival from `lo` on, up to a moment, is a datagram of the right size. */
  ghost predicate SoundBy(w: World, size: nat, lo: nat, moment: int) {
    forall j: nat :: lo <= j < |w.inbox| && w.inbox[j].at <= moment ==> SoundAt(w, size, j)
  }

  lemma SmoothBy(w: World, size: nat, l0: Line, l: Line, moment: int)
    requires w.InOrder() && l0.cursor <= l.cursor <= |w.inbox|
    requires SoundBy(w, size, l0.cursor, moment) && LastTaken(w, l0, l) <= moment
    ensures Smooth(w, size, l0, l)
  {
    forall j: nat | l0.cursor <= j < l.cursor
      ensures SoundAt(w, size, j)
    {
      assert w.inbox[j].at <= w.inbox[l.cursor - 1].at;
    }
  }

  /** None of the writes of the plan is one that fails. */
  ghost predicate Writable(w: World, e: Echo, l0: Line) {
    forall k: nat :: |l0.sent| <= k && (e.plan.Count? ==> k - |l0.sent| < e.plan.limit - e.base) ==> k !in w.writeFaults
  }

  /** What can be looked at before the call: then a run of any window ends without error. */
  lemma RunFinishes(w: World, e: Echo, l0: Line)
    requires w.InOrder() && e.WellFormed() && l0.cursor <= |w.inbox| && e.timeout > 0
    requires e.plan.Until? ==> l0.now < e.plan.end
    requires !w.ctx.Done(LastMoment(e, l0.now)) && SoundBy(w, e.size, l0.cursor, LastMoment(e, l0.now))
    requires Writable(w, e, l0)
    ensures WindowRun(w, e, l0).Finished?
  {
    hide LastMoment, Lapsed, Settled, Awaited, GaveUp, SoundBy, Smooth;
    RunEnds(w, e, l0);
    RunIsOver(w, e, l0);
    RunEndsIff(w, e, l0);
    SmoothBy(w, e.size, l0, Left(WindowRun(w, e, l0)), LastMoment(e, l0.now));
  }

  /** On a network that is silent until then every datagram is lost, and nothing fails. */
  lemma RunOfSilence(w: World, e: Echo, l0: Line)
    requires w.InOrder() && e.WellFormed() && l0.cursor <= |w.inbox| && e.timeout > 0
    requires e.plan.Until? ==> l0.now < e.plan.end
    requires !w.ctx.Done(LastMoment(e, l0.now)) && Writable(w, e, l0)
    requires l0.cursor < |w.inbox| ==> LastMoment(e, l0.now) < w.inbox[l0.cursor].at
    ensures var o := WindowRun(w, e, l0);
            && o.Finished? && o.flight.rtt == [] && o.flight.lost == |o.flight.line.sent| - |l0.sent|
            && (e.plan.Count? ==> o.flight.lost == e.plan.limit - e.base)
  {
    hide LastMoment, Accounted, Losses, Prompt, Writable;
    RunFinishes(w, e, l0);
    RunEnds(w, e, l0);
    RunIsOver(w, e, l0);
    RunIsFaithful(w, e, l0);
    var n := RunReaches(w, e, Start(e, l0));
    ReachInv(w, e, l0, n);
  }

  // --- The context's deadline --------------------------------------------------------

  /** `now` is not past the context's deadline, unless `start` was. */
  predicate Within(ctx: Context, start: int, now: int) {
    ctx.deadline.Some? ==> now <= Max(start, ctx.deadline.value)
  }

  lemma AdvanceWithin(w: World, e: Echo, f: Flight)
    requires Ready(w, e, f)
    ensures match Advance(w, e, f)
            case On(g) => Within(w.ctx, f.line.now, g.line.now)
            case Off(_, l) => Within(w.ctx, f.line.now, l.now)
            case Halt => true
  {
    hide IsOldest, Survivors;
  }

  lemma {:induction false} ReachWithin(w: World, e: Echo, l0: Line, n: nat)
    requires w.InOrder() && e.WellFormed() && l0.cursor <= |w.inbox|
    requires Reach(w, e, Start(e, l0), n).Some?
    ensures Within(w.ctx, l0.now, Reach(w, e, Start(e, l0), n).value.line.now)
  {
    hide Advance;
    if n > 0 {
      ReachWithin(w, e, l0, n - 1);
      AdvanceWithin(w, e, Reach(w, e, Start(e, l0), n - 1).value);
    }
  }

  /** No run outlasts the deadline of its context, however it ends. */
  lemma RunWithin(w: World, e: Echo, l0: Line)
    requires w.InOrder() && e.WellFormed() && l0.cursor <= |w.inbox|
    ensures Within(w.ctx, l0.now, Left(WindowRun(w, e, l0)).now)
  {
    hide Advance;
    var n := RunReaches(w, e, Start(e, l0));
    ReachWithin(w, e, l0, n);
    AdvanceWithin(w, e, Reach(w, e, Start(e, l0), n).value);
  }
}
