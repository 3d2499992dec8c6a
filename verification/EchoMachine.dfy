/** The sliding-window echo run as a machine that takes one step at a time.

    Both windowed engines of main.go are this machine: a step sends one datagram when
    the plan allows another and the window has room, and otherwise waits in one read.
    The serial engines are `Serial` below. The methods of module EchoEngines are
    proved equal to these functions; the laws are proved about the functions. */
module EchoMachine {
  import opened Common
  import opened Socket

  /** Send until sequence number `limit`, or until time `end` but at least once. */
  datatype Plan = Count(limit: nat) | Until(end: int)

  datatype Echo = Echo(base: nat, plan: Plan, size: nat, window: nat, timeout: int) {
    predicate WellFormed() {
      window > 0 && timeout >= 0 && (plan.Count? ==> base <= plan.limit)
    }
  }

  /** `pending` maps the sequence number of an outstanding datagram to its send time. */
  datatype Flight = Flight(line: Line, pending: map<nat, int>, next: nat, lost: nat, rtt: seq<int>)

  datatype Failure = WriteFailed | ReadFailed | WrongSize

  datatype Turn = On(flight: Flight) | Halt | Off(why: Failure, line: Line)

  datatype Outcome = Finished(flight: Flight) | Failed(why: Failure, line: Line)

  function Start(e: Echo, l: Line): Flight {
    Flight(l, map[], e.base, 0, [])
  }

  predicate MaySend(e: Echo, f: Flight) {
    match e.plan
    case Count(limit) => f.next < limit
    case Until(end) => f.next == e.base || f.line.now < end
  }

  /** The earliest send time among the pending datagrams. */
  ghost predicate IsOldest(pending: map<nat, int>, t: int) {
    && (exists s :: s in pending && pending[s] == t)
    && (forall s :: s in pending ==> t <= pending[s])
  }

  lemma OldestExists(pending: map<nat, int>)
    requires pending != map[]
    ensures exists t :: IsOldest(pending, t)
  {
    var s :| s in pending;
    var rest := pending - {s};
    assert forall k :: k in pending ==> k == s || k in rest;
    if rest == map[] {
      assert IsOldest(pending, pending[s]);
    } else {
      OldestExists(rest);
      var t :| IsOldest(rest, t);
      assert IsOldest(pending, Min(t, pending[s]));
    }
  }

  ghost function Oldest(pending: map<nat, int>): (t: int)
    requires pending != map[]
    ensures IsOldest(pending, t)
  {
    OldestExists(pending);
    var t :| IsOldest(pending, t); t
  }

  /** The deadline of a windowed read: the earliest expiry, or the context's if sooner. */
  ghost function ReadDeadline(ctx: Context, now: int, pending: map<nat, int>, timeout: int): int
    requires pending != map[]
  {
    if timeout <= 0 then Deadline(ctx, now)
    else
      var earliest := Oldest(pending) + timeout;
      if ctx.deadline.Some? && ctx.deadline.value < earliest then ctx.deadline.value else earliest
  }

  function Survivors(pending: map<nat, int>, now: int, timeout: int): map<nat, int> {
    map s | s in pending && now < pending[s] + timeout :: pending[s]
  }

  ghost function SendOne(w: World, e: Echo, f: Flight): Turn {
    match Transmit(w, f.line, PEER, f.next, e.size)
    case None => Off(WriteFailed, f.line)
    case Some(l) => On(f.(line := l, pending := f.pending[f.next := l.now], next := f.next + 1))
  }

  ghost function ReadOne(w: World, e: Echo, f: Flight): Turn
    requires f.pending != map[] && f.line.cursor <= |w.inbox|
  {
    var (reply, l) := Receive(w, f.line, ReadDeadline(w.ctx, f.line.now, f.pending, e.timeout));
    match reply
    case TimedOut =>
      if !w.ctx.Done(l.now) && e.timeout > 0 then
        var left := Survivors(f.pending, l.now, e.timeout);
        SurvivorsFewer(f.pending, l.now, e.timeout);
        On(f.(line := l, pending := left, lost := f.lost + |f.pending| - |left|))
      else Off(ReadFailed, l)
    case Broken => Off(ReadFailed, l)
    case Got(_, s, n) =>
      if n != e.size then Off(WrongSize, l)
      else if s !in f.pending then On(f.(line := l))
      else On(f.(line := l, pending := f.pending - {s}, rtt := f.rtt + [l.now - f.pending[s]]))
  }

  lemma {:induction false} SurvivorsFewer(pending: map<nat, int>, now: int, timeout: int)
    ensures |Survivors(pending, now, timeout)| <= |pending|
    ensures (exists s :: s in pending && pending[s] + timeout <= now) ==>
              |Survivors(pending, now, timeout)| < |pending|
  {
    var left := Survivors(pending, now, timeout);
    assert left.Keys <= pending.Keys;
    SubsetCard(left.Keys, pending.Keys);
    if s :| s in pending && pending[s] + timeout <= now {
      assert s in pending.Keys && s !in left.Keys;
      SubsetCard(left.Keys, pending.Keys - {s});
    }
  }

  lemma SubsetCard<T>(a: set<T>, b: set<T>)
    requires a <= b
    ensures |a| <= |b|
  {
    if a != {} {
      var x :| x in a;
      SubsetCard(a - {x}, b - {x});
    }
  }

  ghost function Advance(w: World, e: Echo, f: Flight): Turn
    requires f.line.cursor <= |w.inbox|
  {
    if MaySend(e, f) && |f.pending| < e.window then SendOne(w, e, f)
    else if f.pending == map[] then Halt
    else ReadOne(w, e, f)
  }

  /** What every step keeps; the run is defined only from such states. */
  ghost predicate Ready(w: World, e: Echo, f: Flight) {
    && w.InOrder() && e.WellFormed()
    && f.line.cursor <= |w.inbox|
    && |f.pending| <= e.window
    && e.base <= f.next
    && (forall s :: s in f.pending ==> e.base <= s < f.next)
    && (e.plan.Count? ==> f.next <= e.plan.limit)
    && (forall s :: s in f.pending ==>
          f.pending[s] <= f.line.now && (e.timeout > 0 ==> f.line.now <= f.pending[s] + e.timeout))
  }

  lemma StartReady(w: World, e: Echo, l: Line)
    requires w.InOrder() && e.WellFormed() && l.cursor <= |w.inbox|
    ensures Ready(w, e, Start(e, l))
  {}

  lemma {:induction false} AdvanceReady(w: World, e: Echo, f: Flight)
    requires Ready(w, e, f)
    ensures Advance(w, e, f).On? ==> Ready(w, e, Advance(w, e, f).flight)
  {
    var turn := Advance(w, e, f);
    if turn.On? && !(MaySend(e, f) && |f.pending| < e.window) {
      var g := turn.flight;
      if e.timeout > 0 {
        SurvivorsFewer(f.pending, g.line.now, e.timeout);
        assert g.pending.Keys <= f.pending.Keys;
      }
    }
  }

  function Unread(w: World, f: Flight): nat
    requires f.line.cursor <= |w.inbox|
  {
    |w.inbox| - f.line.cursor
  }

  /** The measure of a fixed-count run. */
  function Work(w: World, e: Echo, f: Flight): nat
    requires f.line.cursor <= |w.inbox|
    requires e.plan.Count? && f.next <= e.plan.limit
  {
    2 * (e.plan.limit - f.next) + |f.pending| + Unread(w, f)
  }

  /** Every step of a fixed-count run, whatever it is, lowers the measure. A timeout that
      does not end the run happens at the earliest expiry, so something expires. */
  lemma {:induction false} WorkFalls(w: World, e: Echo, f: Flight)
    requires Ready(w, e, f) && e.plan.Count?
    requires Advance(w, e, f).On?
    ensures Work(w, e, Advance(w, e, f).flight) < Work(w, e, f)
  {
    var g := Advance(w, e, f).flight;
    if MaySend(e, f) && |f.pending| < e.window {
      assert |g.pending| <= |f.pending| + 1;
    } else {
      var d := ReadDeadline(w.ctx, f.line.now, f.pending, e.timeout);
      if Receive(w, f.line, d).0.TimedOut? {
        TimeoutExpires(w, e, f);
      }
    }
  }

  lemma {:induction false} TimeoutExpires(w: World, e: Echo, f: Flight)
    requires Ready(w, e, f) && f.pending != map[] && e.timeout > 0
    requires Receive(w, f.line, ReadDeadline(w.ctx, f.line.now, f.pending, e.timeout)).0.TimedOut?
    requires ReadOne(w, e, f).On?
    ensures var g := ReadOne(w, e, f).flight;
            && |g.pending| < |f.pending|
            && g.lost == f.lost + |f.pending| - |g.pending|
            && g.line.now == Oldest(f.pending) + e.timeout
  {
    var g := ReadOne(w, e, f).flight;
    var s :| s in f.pending && f.pending[s] == Oldest(f.pending);
    assert f.pending[s] + e.timeout <= g.line.now;
    SurvivorsFewer(f.pending, g.line.now, e.timeout);
  }

  /** For a run bounded by time the measure is lexicographic: arrivals, time left,
      whether something has just expired, then room to send. */
  function TimeLeft(e: Echo, f: Flight): nat {
    if e.plan.Until? && f.line.now < e.plan.end then e.plan.end - f.line.now else 0
  }

  ghost predicate Overdue(e: Echo, f: Flight) {
    e.timeout > 0 && exists s :: s in f.pending && f.pending[s] + e.timeout <= f.line.now
  }

  function Room(e: Echo, f: Flight): nat
    requires |f.pending| <= e.window
  {
    if MaySend(e, f) then 2 * e.window - |f.pending| else |f.pending|
  }

  ghost function Rank0(w: World, e: Echo, f: Flight): nat
    requires Ready(w, e, f)
  {
    if e.plan.Count? then Work(w, e, f) else Unread(w, f)
  }

  lemma {:induction false} RankFalls(w: World, e: Echo, f: Flight)
    requires Ready(w, e, f) && e.plan.Until?
    requires Advance(w, e, f).On?
    ensures var g := Advance(w, e, f).flight;
            && Ready(w, e, g)
            && Unread(w, g) <= Unread(w, f)
            && (Unread(w, g) == Unread(w, f) ==>
                  && TimeLeft(e, g) <= TimeLeft(e, f)
                  && (TimeLeft(e, g) == TimeLeft(e, f) ==>
                        || (Overdue(e, f) && !Overdue(e, g))
                        || (Overdue(e, f) == Overdue(e, g) && Room(e, g) < Room(e, f))))
  {
    AdvanceReady(w, e, f);
    var g := Advance(w, e, f).flight;
    if MaySend(e, f) && |f.pending| < e.window {
      assert |g.pending| == |f.pending| + 1;
      assert forall s :: s in g.pending <==> s == f.next || s in f.pending;
    } else {
      var d := ReadDeadline(w.ctx, f.line.now, f.pending, e.timeout);
      if Receive(w, f.line, d).0.TimedOut? {
        TimeoutExpires(w, e, f);
        assert !Overdue(e, g);
      }
    }
  }

  /** The whole windowed run from state `f`. */
  ghost function Run(w: World, e: Echo, f: Flight): Outcome
    requires Ready(w, e, f)
    decreases Rank0(w, e, f), TimeLeft(e, f), e.plan.Until? && Overdue(e, f), Room(e, f)
  {
    match Advance(w, e, f)
    case Halt => Finished(f)
    case Off(why, l) => Failed(why, l)
    case On(g) =>
      AdvanceReady(w, e, f);
      if e.plan.Count? then WorkFalls(w, e, f); Run(w, e, g)
      else RankFalls(w, e, f); Run(w, e, g)
  }

  /** How many steps the run from `f` makes. */
  ghost function Steps(w: World, e: Echo, f: Flight): nat
    requires Ready(w, e, f)
    decreases Rank0(w, e, f), TimeLeft(e, f), e.plan.Until? && Overdue(e, f), Room(e, f)
  {
    match Advance(w, e, f)
    case On(g) =>
      AdvanceReady(w, e, f);
      if e.plan.Count? then WorkFalls(w, e, f); 1 + Steps(w, e, g)
      else RankFalls(w, e, f); 1 + Steps(w, e, g)
    case _ => 0
  }

  /** The run that an engine makes when it is called with the socket in state `l`. */
  ghost function WindowRun(w: World, e: Echo, l: Line): Outcome
    requires w.InOrder() && e.WellFormed() && l.cursor <= |w.inbox|
  {
    Run(w, e, Start(e, l))
  }

  /** The state after `n` steps, if the run gets that far. */
  ghost function Reach(w: World, e: Echo, f: Flight, n: nat): (r: Option<Flight>)
    requires Ready(w, e, f)
    ensures r.Some? ==> Ready(w, e, r.value)
  {
    if n == 0 then Some(f)
    else
      match Reach(w, e, f, n - 1)
      case None => None
      case Some(g) =>
        AdvanceReady(w, e, g);
        match Advance(w, e, g)
        case On(h) => Some(h)
        case _ => None
  }

  /** Unfolding a run by one step. */
  lemma RunStep(w: World, e: Echo, f: Flight, g: Flight)
    requires Ready(w, e, f) && Advance(w, e, f) == On(g)
    ensures Ready(w, e, g) && Run(w, e, f) == Run(w, e, g) && Steps(w, e, g) < Steps(w, e, f)
  {
    hide SendOne, ReadOne, MaySend, Overdue, TimeLeft, Room;
    AdvanceReady(w, e, f);
  }

  lemma {:induction false} ReachFront(w: World, e: Echo, f: Flight, g: Flight, n: nat)
    requires Ready(w, e, f) && Ready(w, e, g) && Advance(w, e, f) == On(g)
    ensures Reach(w, e, f, n + 1) == Reach(w, e, g, n)
  {
    hide SendOne, ReadOne, MaySend, Ready;
    if n > 0 {
      ReachFront(w, e, f, g, n - 1);
    } else {
      assert Reach(w, e, f, 0) == Some(f);
    }
  }

  lemma HaltMeans(w: World, e: Echo, f: Flight)
    requires Ready(w, e, f) && Advance(w, e, f).Halt?
    ensures f.pending == map[] && !MaySend(e, f)
  {}

  /** A run ends in a state it reaches: there it has nothing left to do, or the next step fails. */
  lemma {:induction false} RunReaches(w: World, e: Echo, f: Flight) returns (n: nat)
    requires Ready(w, e, f)
    ensures Run(w, e, f).Finished? ==>
              var g := Run(w, e, f).flight;
              && Reach(w, e, f, n) == Some(g)
              && g.pending == map[] && !MaySend(e, g)
    ensures Run(w, e, f).Failed? ==>
              && Reach(w, e, f, n).Some?
              && Advance(w, e, Reach(w, e, f, n).value) == Off(Run(w, e, f).why, Run(w, e, f).line)
    decreases Rank0(w, e, f), TimeLeft(e, f), e.plan.Until? && Overdue(e, f), Room(e, f)
  {
    hide SendOne, ReadOne, MaySend;
    n := 0;
    if Advance(w, e, f).Halt? {
      HaltMeans(w, e, f);
    }
    if Advance(w, e, f).On? {
      var g := Advance(w, e, f).flight;
      RunStep(w, e, f, g);
      if e.plan.Count? { WorkFalls(w, e, f); } else { RankFalls(w, e, f); }
      var m := RunReaches(w, e, g);
      ReachFront(w, e, f, g, m);
      n := m + 1;
    }
  }

  // --- The serial form -------------------------------------------------------------

  datatype Answer = Replied(line: Line) | Silent(line: Line) | Broke(why: Failure, line: Line)

  /** Arrivals `lo..hi` are datagrams: nothing broke while they were taken. */
  predicate Intact(w: World, lo: nat, hi: nat) {
    hi <= |w.inbox| && forall j :: lo <= j < hi ==> w.inbox[j].Datagram?
  }

  /** Read until the reply to `seqno` comes, something breaks, or deadline `d` passes. */
  function Await(w: World, size: nat, l: Line, seqno: nat, d: int): (r: Answer)
    requires l.cursor <= |w.inbox|
    ensures l.now <= r.line.now && l.cursor <= r.line.cursor <= |w.inbox| && r.line.sent == l.sent
    ensures r.Silent? ==> d <= r.line.now && !w.ctx.Done(r.line.now)
    ensures r.Replied? ==> l.cursor < r.line.cursor
    ensures !r.Broke? ==> Intact(w, l.cursor, r.line.cursor)
    decreases |w.inbox| - l.cursor
  {
    var (reply, l') := Receive(w, l, d);
    match reply
    case TimedOut => if !w.ctx.Done(l'.now) then Silent(l') else Broke(ReadFailed, l')
    case Broken => Broke(ReadFailed, l')
    case Got(_, s, n) =>
      if n != size then Broke(WrongSize, l')
      else if s == seqno then Replied(l')
      else Await(w, size, l', seqno, d)
  }

  /** One request and its reply, or the loss of it. */
  function EchoOnce(w: World, size: nat, timeout: int, l: Line, seqno: nat): (r: Answer)
    requires l.cursor <= |w.inbox|
    ensures l.now <= r.line.now && l.cursor <= r.line.cursor <= |w.inbox|
    ensures r.Silent? ==> l.now < r.line.now
    ensures r.Replied? ==> l.cursor < r.line.cursor
    ensures !r.Broke? ==> Intact(w, l.cursor, r.line.cursor)
    ensures !r.Broke? ==> r.line.sent == l.sent + [Sent(PEER, seqno, size, l.now, l.cursor)]
  {
    match Transmit(w, l, PEER, seqno, size)
    case None => Broke(WriteFailed, l)
    case Some(l') => Await(w, size, l', seqno, PacketDeadline(w.ctx, l'.now, timeout))
  }

  function AfterEcho(f: Flight, a: Answer): Flight
    requires !a.Broke?
  {
    match a
    case Replied(l) => f.(line := l, next := f.next + 1, rtt := f.rtt + [l.now - f.line.now])
    case Silent(l) => f.(line := l, next := f.next + 1, lost := f.lost + 1)
  }

  /** The serial run: one datagram at a time, nothing ever pending between them. */
  function Serial(w: World, e: Echo, f: Flight): Outcome
    requires f.line.cursor <= |w.inbox| && e.base <= f.next
    requires e.plan.Count? ==> f.next <= e.plan.limit
    decreases if e.plan.Count? then e.plan.limit - f.next else Unread(w, f), TimeLeft(e, f), f.next == e.base
  {
    if !MaySend(e, f) then Finished(f)
    else
      match EchoOnce(w, e.size, e.timeout, f.line, f.next)
      case Broke(why, l) => Failed(why, l)
      case a => Serial(w, e, AfterEcho(f, a))
  }

  function SerialRun(w: World, e: Echo, l: Line): Outcome
    requires l.cursor <= |w.inbox| && (e.plan.Count? ==> e.base <= e.plan.limit)
  {
    Serial(w, e, Start(e, l))
  }
}
