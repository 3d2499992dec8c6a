/** The four echo engines of main.go, loop for loop, over a socket that they change.

    Each is proved to return exactly what the machine of EchoMachine says for its plan
    and to leave the socket in the same state, on success and on every error. */
module EchoEngines {
  import opened Common
  import opened Socket
  import opened EchoMachine

  method WindowReadDeadline(ctx: Context, now: int, pending: map<nat, int>, timeout: int) returns (d: Option<int>)
    ensures pending != map[] ==> d == Some(ReadDeadline(ctx, now, pending, timeout))
    ensures pending == map[] ==> d == if timeout <= 0 then Some(Deadline(ctx, now)) else ctx.deadline
  {
    if timeout <= 0 {
      return Some(Deadline(ctx, now));
    }
    var earliest: Option<int> := None;
    var todo := pending.Keys;
    while todo != {}
      invariant todo <= pending.Keys
      invariant earliest.None? <==> todo == pending.Keys
      invariant earliest.Some? ==>
        && (exists s :: s in pending.Keys - todo && pending[s] + timeout == earliest.value)
        && (forall s :: s in pending.Keys - todo ==> earliest.value <= pending[s] + timeout)
    {
      var s :| s in todo;
      todo := todo - {s};
      var d := pending[s] + timeout;
      if earliest.None? || d < earliest.value {
        earliest := Some(d);
        assert s in pending.Keys - todo;
      }
    }
    if earliest.Some? {
      assert IsOldest(pending, earliest.value - timeout);
    }
    if ctx.deadline.Some? && (earliest.None? || ctx.deadline.value < earliest.value) {
      return ctx.deadline;
    }
    return earliest;
  }

  method ExpirePending(pending: map<nat, int>, now: int, timeout: int) returns (left: map<nat, int>, lost: nat)
    ensures left == Survivors(pending, now, timeout)
    ensures lost == |pending| - |left|
  {
    left, lost := pending, 0;
    var todo := pending.Keys;
    while todo != {}
      invariant todo <= pending.Keys && todo <= left.Keys
      invariant forall s :: s in left <==> s in pending && (s in todo || now < pending[s] + timeout)
      invariant forall s :: s in left ==> left[s] == pending[s]
      invariant lost == |pending| - |left|
    {
      var s :| s in todo;
      todo := todo - {s};
      if !(now < pending[s] + timeout) {
        left := left - {s};
        lost := lost + 1;
      }
    }
  }

  /** What a windowed engine reports about an outcome, and the socket it leaves. */
  ghost predicate Reports(o: Outcome, r: Result<Flight, Failure>, l: Line) {
    match o
    case Finished(f) => r == Ok(f) && l == f.line
    case Failed(why, l') => r == Err(why) && l == l'
  }

  /** One windowed read and what the engine does with it; `Ok` means carry on. */
  method ReadWindow(conn: PacketConn, ghost e: Echo, size: nat, timeout: int, pending: map<nat, int>,
                    lost: nat, rtt: seq<int>, ghost next: nat)
    returns (r: Result<(map<nat, int>, nat, seq<int>), Failure>)
    requires conn.Valid() && pending != map[] && e.size == size && e.timeout == timeout
    modifies conn
    ensures conn.Valid()
    ensures match ReadOne(conn.world, e, Flight(old(conn.line), pending, next, lost, rtt))
            case On(g) => r == Ok((g.pending, g.lost, g.rtt)) && conn.line == g.line
            case Off(why, l) => r == Err(why) && conn.line == l
            case Halt => false
  {
    var d := WindowReadDeadline(conn.world.ctx, conn.line.now, pending, timeout);
    var reply := conn.ReadFrom(d.value);
    var now := conn.line.now;
    match reply {
      case TimedOut =>
        if !conn.world.ctx.Done(now) && timeout > 0 {
          var left, expired := ExpirePending(pending, now, timeout);
          return Ok((left, lost + expired, rtt));
        }
        return Err(ReadFailed);
      case Broken =>
        return Err(ReadFailed);
      case Got(_, s, n) =>
        if n != size {
          return Err(WrongSize);
        }
        if s !in pending {
          return Ok((pending, lost, rtt));
        }
        return Ok((pending - {s}, lost, rtt + [now - pending[s]]));
    }
  }

  /** The run from `f` comes to outcome `o`. */
  ghost predicate Bound(w: World, e: Echo, f: Flight, o: Outcome) {
    Ready(w, e, f) && Run(w, e, f) == o
  }

  ghost function StepsLeft(w: World, e: Echo, f: Flight): nat {
    if Ready(w, e, f) then Steps(w, e, f) else 0
  }

  lemma WindowStart(w: World, e: Echo, l: Line)
    requires w.InOrder() && e.WellFormed() && l.cursor <= |w.inbox|
    ensures Bound(w, e, Start(e, l), WindowRun(w, e, l))
  {}

  lemma SendStep(w: World, e: Echo, f: Flight, o: Outcome)
    requires Bound(w, e, f, o) && MaySend(e, f) && |f.pending| < e.window
    ensures match Transmit(w, f.line, PEER, f.next, e.size)
            case None => o == Failed(WriteFailed, f.line)
            case Some(l) =>
              var g := f.(line := l, pending := f.pending[f.next := l.now], next := f.next + 1);
              Bound(w, e, g, o) && StepsLeft(w, e, g) < StepsLeft(w, e, f)
  {
    match Transmit(w, f.line, PEER, f.next, e.size) {
      case None =>
      case Some(l) =>
        var g := f.(line := l, pending := f.pending[f.next := l.now], next := f.next + 1);
        RunStep(w, e, f, g);
    }
  }

  lemma ReadStep(w: World, e: Echo, f: Flight, o: Outcome)
    requires Bound(w, e, f, o) && f.pending != map[] && !(MaySend(e, f) && |f.pending| < e.window)
    ensures match ReadOne(w, e, f)
            case Off(why, l) => o == Failed(why, l)
            case Halt => false
            case On(g) => Bound(w, e, g, o) && StepsLeft(w, e, g) < StepsLeft(w, e, f)
  {
    match ReadOne(w, e, f) {
      case On(g) => RunStep(w, e, f, g);
      case Off(_, _) =>
    }
  }

  lemma EndStep(w: World, e: Echo, f: Flight, o: Outcome)
    requires Bound(w, e, f, o) && f.pending == map[] && !MaySend(e, f)
    ensures o == Finished(f)
  {}

  /** The inner loop of the fixed-count engine: fill the window. */
  method FillCount(conn: PacketConn, ghost e: Echo, ghost o: Outcome, limit: nat, size: nat, window: nat,
                   pending0: map<nat, int>, nextSeq0: nat, ghost lost: nat, ghost rtt: seq<int>)
    returns (r: Result<(map<nat, int>, nat), Failure>)
    requires conn.Valid() && e.plan == Count(limit) && e.size == size && e.window == window && nextSeq0 <= limit
    requires Bound(conn.world, e, Flight(conn.line, pending0, nextSeq0, lost, rtt), o)
    requires nextSeq0 < limit || pending0 != map[]
    modifies conn
    ensures conn.Valid()
    ensures match r
            case Err(why) => o == Failed(why, conn.line)
            case Ok((pending, nextSeq)) =>
              var f := Flight(conn.line, pending, nextSeq, lost, rtt);
              && nextSeq <= limit && pending != map[] && !(nextSeq < limit && |pending| < window)
              && Bound(conn.world, e, f, o)
              && StepsLeft(conn.world, e, f)
                 <= StepsLeft(conn.world, e, Flight(old(conn.line), pending0, nextSeq0, lost, rtt))
  {
    var pending: map<nat, int>, nextSeq: nat := pending0, nextSeq0;
    ghost var f := Flight(conn.line, pending, nextSeq, lost, rtt);
    ghost var f0 := f;
    WindowPositive(conn.world, e, f, o);
    hide Bound, StepsLeft;
    while nextSeq < limit && |pending| < window
      invariant conn.Valid() && f == Flight(conn.line, pending, nextSeq, lost, rtt)
      invariant nextSeq <= limit && Bound(conn.world, e, f, o)
      invariant nextSeq < limit || pending != map[]
      invariant StepsLeft(conn.world, e, f) <= StepsLeft(conn.world, e, f0)
      decreases limit - nextSeq
    {
      SendStep(conn.world, e, f, o);
      var ok := conn.WriteTo(PEER, nextSeq, size);
      if !ok {
        return Err(WriteFailed);
      }
      pending := pending[nextSeq := conn.line.now];
      nextSeq := nextSeq + 1;
      f := Flight(conn.line, pending, nextSeq, lost, rtt);
    }
    return Ok((pending, nextSeq));
  }

  lemma WindowPositive(w: World, e: Echo, f: Flight, o: Outcome)
    requires Bound(w, e, f, o)
    ensures e.window > 0 && |f.pending| <= e.window && e.base <= f.next
  {}

  method EchoWindow(conn: PacketConn, count: nat, size: nat, seqBase: nat, window: nat, timeout: int)
    returns (r: Result<Flight, Failure>)
    requires conn.Valid() && window > 0 && timeout >= 0
    modifies conn
    ensures conn.Valid()
    ensures var e := Echo(seqBase, Count(seqBase + count), size, window, timeout);
            Reports(WindowRun(conn.world, e, old(conn.line)), r, conn.line)
  {
    hide WindowRun, Bound, Ready, StepsLeft, Run;
    var pending: map<nat, int> := map[];
    var rtt: seq<int> := [];
    var lost: nat := 0;
    var nextSeq: nat := seqBase;
    var limit := seqBase + count;
    ghost var e := Echo(seqBase, Count(limit), size, window, timeout);
    ghost var f := Start(e, conn.line);
    ghost var o := WindowRun(conn.world, e, conn.line);
    WindowStart(conn.world, e, conn.line);
    while nextSeq < limit || pending != map[]
      invariant conn.Valid() && f == Flight(conn.line, pending, nextSeq, lost, rtt)
      invariant nextSeq <= limit && Bound(conn.world, e, f, o)
      decreases StepsLeft(conn.world, e, f)
    {
      var fill := FillCount(conn, e, o, limit, size, window, pending, nextSeq, lost, rtt);
      if fill.Err? {
        return Err(fill.error);
      }
      pending, nextSeq := fill.value.0, fill.value.1;
      f := Flight(conn.line, pending, nextSeq, lost, rtt);
      ReadStep(conn.world, e, f, o);
      var turn := ReadWindow(conn, e, size, timeout, pending, lost, rtt, nextSeq);
      if turn.Err? {
        return Err(turn.error);
      }
      pending, lost, rtt := turn.value.0, turn.value.1, turn.value.2;
      f := Flight(conn.line, pending, nextSeq, lost, rtt);
    }
    EndStep(conn.world, e, f, o);
    return Ok(Flight(conn.line, pending, nextSeq, lost, rtt));
  }

  /** The inner loop of the duration engine. `Ok` carries pending, next number and count. */
  method FillUntil(conn: PacketConn, ghost e: Echo, ghost o: Outcome, end: int, size: nat, window: nat,
                   pending0: map<nat, int>, nextSeq0: nat, count0: nat, ghost lost: nat, ghost rtt: seq<int>)
    returns (r: Result<(map<nat, int>, nat, nat), Failure>)
    requires conn.Valid() && e.plan == Until(end) && e.size == size && e.window == window
    requires nextSeq0 == e.base + count0
    requires Bound(conn.world, e, Flight(conn.line, pending0, nextSeq0, lost, rtt), o)
    requires count0 == 0 || conn.line.now < end || pending0 != map[]
    modifies conn
    ensures conn.Valid()
    ensures match r
            case Err(why) => o == Failed(why, conn.line)
            case Ok((pending, nextSeq, count)) =>
              var f := Flight(conn.line, pending, nextSeq, lost, rtt);
              && nextSeq == e.base + count && pending != map[] && !(MaySend(e, f) && |pending| < window)
              && Bound(conn.world, e, f, o)
              && StepsLeft(conn.world, e, f)
                 <= StepsLeft(conn.world, e, Flight(old(conn.line), pending0, nextSeq0, lost, rtt))
  {
    var pending: map<nat, int>, nextSeq: nat, count: nat := pending0, nextSeq0, count0;
    ghost var f := Flight(conn.line, pending, nextSeq, lost, rtt);
    ghost var f0 := f;
    WindowPositive(conn.world, e, f, o);
    hide Bound, StepsLeft;
    while (count == 0 || conn.line.now < end) && |pending| < window
      invariant conn.Valid() && f == Flight(conn.line, pending, nextSeq, lost, rtt)
      invariant nextSeq == e.base + count && Bound(conn.world, e, f, o)
      invariant count == 0 || conn.line.now < end || pending != map[]
      invariant StepsLeft(conn.world, e, f) <= StepsLeft(conn.world, e, f0)
      decreases StepsLeft(conn.world, e, f)
    {
      SendStep(conn.world, e, f, o);
      var ok := conn.WriteTo(PEER, nextSeq, size);
      if !ok {
        return Err(WriteFailed);
      }
      pending := pending[nextSeq := conn.line.now];
      nextSeq := nextSeq + 1;
      count := count + 1;
      f := Flight(conn.line, pending, nextSeq, lost, rtt);
    }
    return Ok((pending, nextSeq, count));
  }

  method EchoWindowDuration(conn: PacketConn, size: nat, seqBase: nat, window: nat, timeout: int, duration: int)
    returns (r: Result<Flight, Failure>)
    requires conn.Valid() && window > 0 && timeout >= 0
    modifies conn
    ensures conn.Valid()
    ensures var e := Echo(seqBase, Until(old(conn.line).now + duration), size, window, timeout);
            Reports(WindowRun(conn.world, e, old(conn.line)), r, conn.line)
  {
    hide WindowRun, Bound, Ready, StepsLeft, Run;
    var pending: map<nat, int> := map[];
    var rtt: seq<int> := [];
    var lost: nat := 0;
    var nextSeq: nat := seqBase;
    var count: nat := 0;
    var end := conn.line.now + duration;
    ghost var e := Echo(seqBase, Until(end), size, window, timeout);
    ghost var f := Start(e, conn.line);
    ghost var o := WindowRun(conn.world, e, conn.line);
    WindowStart(conn.world, e, conn.line);
    while count == 0 || conn.line.now < end || pending != map[]
      invariant conn.Valid() && f == Flight(conn.line, pending, nextSeq, lost, rtt)
      invariant nextSeq == seqBase + count && Bound(conn.world, e, f, o)
      decreases StepsLeft(conn.world, e, f)
    {
      var fill := FillUntil(conn, e, o, end, size, window, pending, nextSeq, count, lost, rtt);
      if fill.Err? {
        return Err(fill.error);
      }
      pending, nextSeq, count := fill.value.0, fill.value.1, fill.value.2;
      f := Flight(conn.line, pending, nextSeq, lost, rtt);
      ReadStep(conn.world, e, f, o);
      var turn := ReadWindow(conn, e, size, timeout, pending, lost, rtt, nextSeq);
      if turn.Err? {
        return Err(turn.error);
      }
      pending, lost, rtt := turn.value.0, turn.value.1, turn.value.2;
      f := Flight(conn.line, pending, nextSeq, lost, rtt);
    }
    EndStep(conn.world, e, f, o);
    return Ok(Flight(conn.line, pending, nextSeq, lost, rtt));
  }

  /** `Ok(true)`: the reply came; `Ok(false)`: it did not come in time. */
  ghost predicate Told(a: Answer, r: Result<bool, Failure>, l: Line) {
    && l == a.line
    && match a
       case Replied(_) => r == Ok(true)
       case Silent(_) => r == Ok(false)
       case Broke(why, _) => r == Err(why)
  }

  method UdpEchoOnce(conn: PacketConn, size: nat, seqno: nat, timeout: int) returns (r: Result<bool, Failure>)
    requires conn.Valid()
    modifies conn
    ensures conn.Valid()
    ensures Told(EchoOnce(conn.world, size, timeout, old(conn.line), seqno), r, conn.line)
  {
    var ok := conn.WriteTo(PEER, seqno, size);
    if !ok {
      return Err(WriteFailed);
    }
    var readDeadline := PacketDeadline(conn.world.ctx, conn.line.now, timeout);
    while true
      invariant conn.Valid()
      invariant EchoOnce(conn.world, size, timeout, old(conn.line), seqno)
             == Await(conn.world, size, conn.line, seqno, readDeadline)
      decreases |conn.world.inbox| - conn.line.cursor
    {
      var reply := conn.ReadFrom(readDeadline);
      match reply {
        case TimedOut =>
          if !conn.world.ctx.Done(conn.line.now) {
            return Ok(false);
          }
          return Err(ReadFailed);
        case Broken =>
          return Err(ReadFailed);
        case Got(_, s, n) =>
          if n != size {
            return Err(WrongSize);
          }
          if s == seqno {
            return Ok(true);
          }
      }
    }
  }

  /** The serial run from `f` comes to outcome `o`. */
  ghost predicate SerialBound(w: World, e: Echo, f: Flight, o: Outcome) {
    && f.line.cursor <= |w.inbox| && e.base <= f.next && (e.plan.Count? ==> f.next <= e.plan.limit)
    && Serial(w, e, f) == o
  }

  lemma SerialStart(w: World, e: Echo, l: Line)
    requires l.cursor <= |w.inbox| && (e.plan.Count? ==> e.base <= e.plan.limit)
    ensures SerialBound(w, e, Start(e, l), SerialRun(w, e, l))
  {}

  /** What one echo, as it was told, makes of the run. */
  lemma SerialStep(w: World, e: Echo, f: Flight, o: Outcome, r: Result<bool, Failure>, l: Line)
    requires SerialBound(w, e, f, o) && MaySend(e, f)
    requires f.line.cursor <= |w.inbox| && Told(EchoOnce(w, e.size, e.timeout, f.line, f.next), r, l)
    ensures match r
            case Err(why) => o == Failed(why, l)
            case Ok(replied) =>
              var g := Flight(l, f.pending, f.next + 1, if replied then f.lost else f.lost + 1,
                              if replied then f.rtt + [l.now - f.line.now] else f.rtt);
              SerialBound(w, e, g, o) && Nearer(w, f, g)
  {}

  /** Less to read, or as much at a later time. */
  predicate Nearer(w: World, f: Flight, g: Flight) {
    && f.line.cursor <= g.line.cursor <= |w.inbox|
    && f.line.now <= g.line.now
    && (f.line.cursor == g.line.cursor ==> f.line.now < g.line.now)
  }

  lemma SerialEnd(w: World, e: Echo, f: Flight, o: Outcome)
    requires SerialBound(w, e, f, o) && !MaySend(e, f)
    ensures o == Finished(f)
  {}

  method EchoSerialCount(conn: PacketConn, count: nat, size: nat, seqBase: nat, timeout: int)
    returns (r: Result<Flight, Failure>)
    requires conn.Valid()
    modifies conn
    ensures conn.Valid()
    ensures var e := Echo(seqBase, Count(seqBase + count), size, 1, timeout);
            Reports(SerialRun(conn.world, e, old(conn.line)), r, conn.line)
  {
    hide SerialRun, SerialBound, EchoOnce, Transmit, Serial, Await, Told, Receive;
    var rtt: seq<int> := [];
    var lost: nat := 0;
    ghost var e := Echo(seqBase, Count(seqBase + count), size, 1, timeout);
    ghost var f := Start(e, conn.line);
    ghost var o := SerialRun(conn.world, e, conn.line);
    SerialStart(conn.world, e, conn.line);
    for i := 0 to count
      invariant conn.Valid() && f == Flight(conn.line, map[], seqBase + i, lost, rtt)
      invariant SerialBound(conn.world, e, f, o)
    {
      var before := conn.line.now;
      var echo := UdpEchoOnce(conn, size, seqBase + i, timeout);
      SerialStep(conn.world, e, f, o, echo, conn.line);
      if echo.Err? {
        return Err(echo.error);
      }
      if !echo.value {
        lost := lost + 1;
      } else {
        rtt := rtt + [conn.line.now - before];
      }
      f := Flight(conn.line, map[], seqBase + i + 1, lost, rtt);
    }
    SerialEnd(conn.world, e, f, o);
    return Ok(Flight(conn.line, map[], seqBase + count, lost, rtt));
  }

  method EchoSerialDuration(conn: PacketConn, size: nat, seqBase: nat, timeout: int, duration: int)
    returns (r: Result<Flight, Failure>)
    requires conn.Valid()
    modifies conn
    ensures conn.Valid()
    ensures var e := Echo(seqBase, Until(old(conn.line).now + duration), size, 1, timeout);
            Reports(SerialRun(conn.world, e, old(conn.line)), r, conn.line)
  {
    hide SerialRun, SerialBound, EchoOnce, Transmit, Serial, Await, Told, Receive;
    var end := conn.line.now + duration;
    var rtt: seq<int> := [];
    var count := 0;
    var lost: nat := 0;
    ghost var e := Echo(seqBase, Until(end), size, 1, timeout);
    ghost var f := Start(e, conn.line);
    ghost var o := SerialRun(conn.world, e, conn.line);
    SerialStart(conn.world, e, conn.line);
    while count == 0 || conn.line.now < end
      invariant conn.Valid() && f == Flight(conn.line, map[], seqBase + count, lost, rtt)
      invariant SerialBound(conn.world, e, f, o)
      decreases Unread(conn.world, f), TimeLeft(e, f), count == 0
    {
      var before := conn.line.now;
      var echo := UdpEchoOnce(conn, size, seqBase + count, timeout);
      SerialStep(conn.world, e, f, o, echo, conn.line);
      if echo.Err? {
        return Err(echo.error);
      }
      count := count + 1;
      if !echo.value {
        lost := lost + 1;
      } else {
        rtt := rtt + [conn.line.now - before];
      }
      f := Flight(conn.line, map[], seqBase + count, lost, rtt);
    }
    SerialEnd(conn.world, e, f, o);
    return Ok(Flight(conn.line, map[], seqBase + count, lost, rtt));
  }
}
