/** The echo peer: the built-in echo server and the listen mode. */
module Listener {
  import opened Common
  import opened Socket

  const POLL: int := 250_000_000

  datatype ServeError = ReadError | WriteError

  /** How a server run ends, with the socket it leaves. */
  datatype Served = Clean(line: Line) | Failed(why: ServeError, line: Line)

  /** Some moment after which the context is certainly done; 0 when it may never be. */
  function EndOf(ctx: Context): int {
    if ctx.deadline.Some? then ctx.deadline.value else if ctx.cancelledAt.Some? then ctx.cancelledAt.value else 0
  }

  predicate Ends(ctx: Context) {
    ctx.deadline.Some? || ctx.cancelledAt.Some?
  }

  function ServeDeadline(ctx: Context, now: int, count: int): int {
    if count <= 0 then PacketDeadline(ctx, now, POLL) else Deadline(ctx, now)
  }

  /** `echoUDPPackets` from the moment it has counted `packets`. A server without a count
      serves until its context ends. */
  function Serve(w: World, l: Line, count: int, packets: nat): (r: Served)
    requires l.cursor <= |w.inbox| && (count <= 0 ==> Ends(w.ctx))
    ensures l.cursor <= r.line.cursor <= |w.inbox|
    decreases |w.inbox| - l.cursor, Max(0, EndOf(w.ctx) - l.now)
  {
    if count > 0 && packets >= count then Clean(l)
    else
      var (reply, l') := Receive(w, l, ServeDeadline(w.ctx, l.now, count));
      match reply
      case Got(from, s, n) =>
        (match Transmit(w, l', from, s, n)
         case None => Failed(WriteError, l')
         case Some(l'') => Serve(w, l'', count, packets + 1))
      case TimedOut =>
        if w.ctx.Done(l'.now) then Clean(l')
        else if count <= 0 then Serve(w, l', count, packets)
        else Failed(ReadError, l')
      case Broken =>
        if w.ctx.Done(l'.now) then Clean(l') else Failed(ReadError, l')
  }

  method EchoUdpPackets(conn: PacketConn, count: int) returns (err: Option<ServeError>)
    requires conn.Valid() && (count <= 0 ==> Ends(conn.world.ctx))
    modifies conn
    ensures conn.Valid()
    ensures match Serve(conn.world, old(conn.line), count, 0)
            case Clean(l) => err == None && conn.line == l
            case Failed(why, l) => err == Some(why) && conn.line == l
  {
    var packets := 0;
    while count <= 0 || packets < count
      invariant conn.Valid() && packets >= 0
      invariant Serve(conn.world, conn.line, count, packets) == Serve(conn.world, old(conn.line), count, 0)
      decreases |conn.world.inbox| - conn.line.cursor, Max(0, EndOf(conn.world.ctx) - conn.line.now)
    {
      var ctx := conn.world.ctx;
      var reply := conn.ReadFrom(ServeDeadline(ctx, conn.line.now, count));
      if !reply.Got? {
        if ctx.Done(conn.line.now) {
          return None;
        }
        if count <= 0 && reply.TimedOut? {
          continue;
        }
        return Some(ReadError);
      }
      packets := packets + 1;
      var ok := conn.WriteTo(reply.from, reply.seqno, reply.size);
      if !ok {
        return Some(WriteError);
      }
    }
    return None;
  }

  // --- What a server run has done --------------------------------------------------

  /** Entry `x` of the write log returns arrival `a` to where it came from. */
  predicate Returns(x: Sent, a: Arrival) {
    a.Datagram? && x.to == a.from && x.seqno == a.seqno && x.size == a.size
  }

  predicate ReturnsAt(w: World, l: Line, m: nat, c: nat, k: nat) {
    m + k < |l.sent| && c + k < |w.inbox| && Returns(l.sent[m + k], w.inbox[c + k])
  }

  /** From write `m` and arrival `c` on, the server has echoed one for one and in order. */
  ghost predicate Echoes(w: World, l: Line, m: nat, c: nat) {
    && c <= l.cursor <= |w.inbox| && |l.sent| == m + (l.cursor - c)
    && (forall k: nat :: k < l.cursor - c ==> ReturnsAt(w, l, m, c, k))
  }

  lemma EchoOne(w: World, l: Line, d: int, m: nat, c: nat)
    requires Echoes(w, l, m, c)
    ensures var (reply, l') := Receive(w, l, d);
            match reply
            case Got(from, s, n) =>
              var t := Transmit(w, l', from, s, n);
              t.Some? ==> Echoes(w, t.value, m, c)
            case TimedOut => Echoes(w, l', m, c)
            case Broken => w.inbox[l'.cursor - 1].Fault? && Echoes(w, l'.(cursor := l'.cursor - 1), m, c)
  {
    var (reply, l') := Receive(w, l, d);
    forall k: nat | k < l.cursor - c
      ensures ReturnsAt(w, l', m, c, k) && ReturnsAt(w, l'.(cursor := l.cursor), m, c, k)
      ensures reply.Got? && Transmit(w, l', reply.from, reply.seqno, reply.size).Some? ==>
                ReturnsAt(w, Transmit(w, l', reply.from, reply.seqno, reply.size).value, m, c, k)
    {
      assert ReturnsAt(w, l, m, c, k);
    }
  }

  /** The same at the end of a run, where the last thing taken may be a socket error that
      came with the end of the context. */
  ghost predicate Echoed(w: World, l: Line, m: nat, c: nat) {
    || Echoes(w, l, m, c)
    || (c < l.cursor <= |w.inbox| && w.inbox[l.cursor - 1].Fault? && w.ctx.Done(l.now)
        && Echoes(w, l.(cursor := l.cursor - 1), m, c))
  }

  /** A server that stops cleanly has echoed exactly what it read, in order; with a count it
      has echoed exactly that many unless its context ended first. */
  lemma {:induction false} ServeEchoes(w: World, l: Line, count: int, packets: nat, m: nat, c: nat)
    requires l.cursor <= |w.inbox| && (count <= 0 ==> Ends(w.ctx))
    requires Echoes(w, l, m, c) && packets == l.cursor - c && (count > 0 ==> packets <= count)
    ensures match Serve(w, l, count, packets)
            case Failed(_, _) => true
            case Clean(l') =>
              && Echoed(w, l', m, c)
              && (count > 0 ==> |l'.sent| - m <= count && (|l'.sent| - m == count || w.ctx.Done(l'.now)))
              && (count <= 0 ==> w.ctx.Done(l'.now))
    decreases |w.inbox| - l.cursor, Max(0, EndOf(w.ctx) - l.now)
  {
    hide Echoes;
    EchoesLength(w, l, m, c);
    if !(count > 0 && packets >= count) {
      var d := ServeDeadline(w.ctx, l.now, count);
      var (reply, l') := Receive(w, l, d);
      EchoOne(w, l, d, m, c);
      match reply {
        case Got(from, s, n) =>
          if Transmit(w, l', from, s, n).Some? {
            ServeEchoes(w, Transmit(w, l', from, s, n).value, count, packets + 1, m, c);
          }
        case TimedOut =>
          if !w.ctx.Done(l'.now) && count <= 0 {
            ServeEchoes(w, l', count, packets, m, c);
          }
        case Broken =>
      }
    }
  }

  lemma EchoesLength(w: World, l: Line, m: nat, c: nat)
    requires Echoes(w, l, m, c)
    ensures |l.sent| == m + (l.cursor - c)
  {}

  /** When the last datagram was echoed, or the service began. */
  function LastEcho(start: Line, l: Line): int {
    if |l.sent| <= |start.sent| then start.now else l.sent[|l.sent| - 1].at
  }

  lemma LastEchoLater(l: Line, l1: Line, l': Line)
    requires l.sent <= l1.sent <= l'.sent && |l.sent| < |l1.sent| && l1.sent[|l1.sent| - 1].at == l1.now
    ensures LastEcho(l, l') == LastEcho(l1, l')
  {}

  /** Why a server fails: a write that fails, a socket error before the end of its context, or,
      if it has a count, 30 seconds of silence after its last echo. So without a count silence
      is never an error; and such a server has left 250 milliseconds after its context is done
      and its last echo sent. */
  lemma {:induction false} ServeLeaves(w: World, l: Line, count: int, packets: nat)
    requires l.cursor <= |w.inbox| && (count <= 0 ==> Ends(w.ctx))
    ensures var r := Serve(w, l, count, packets);
            var l' := r.line;
            && l.sent <= l'.sent && l.now <= l'.now
            && match r
               case Failed(WriteError, _) => |l'.sent| in w.writeFaults
               case Failed(ReadError, _) =>
                 && !w.ctx.Done(l'.now)
                 && ((l.cursor < l'.cursor && w.inbox[l'.cursor - 1].Fault?)
                     || (count > 0 && l'.now == LastEcho(l, l') + 30_000_000_000
                         && (l'.cursor < |w.inbox| ==> l'.now < w.inbox[l'.cursor].at)))
               case Clean(_) =>
                 count <= 0 && w.ctx.Done(l'.now - 250_000_000) ==> l'.now <= LastEcho(l, l') + 250_000_000
    decreases |w.inbox| - l.cursor, Max(0, EndOf(w.ctx) - l.now)
  {
    if !(count > 0 && packets >= count) {
      var d := ServeDeadline(w.ctx, l.now, count);
      var (reply, l') := Receive(w, l, d);
      match reply {
        case Got(from, s, n) =>
          var t := Transmit(w, l', from, s, n);
          if t.Some? {
            ServeLeaves(w, t.value, count, packets + 1);
            LastEchoLater(l, t.value, Serve(w, t.value, count, packets + 1).line);
          }
        case TimedOut =>
          if !w.ctx.Done(l'.now) && count <= 0 {
            ServeLeaves(w, l', count, packets);
          }
        case Broken =>
      }
    }
  }

  /** Enough arrivals before every deadline make a counting server exit cleanly, having
      read exactly its count. */
  lemma {:induction false} ServeExitsClean(w: World, l: Line, count: int, packets: nat)
    requires w.InOrder() && count > 0 && packets <= count && w.writeFaults == {}
    requires l.cursor + (count - packets) <= |w.inbox|
    requires forall j :: l.cursor <= j < l.cursor + (count - packets) ==>
               w.inbox[j].Datagram? && w.inbox[j].at <= Deadline(w.ctx, l.now)
    requires l.now <= Deadline(w.ctx, l.now)
    ensures var r := Serve(w, l, count, packets);
            r.Clean? && r.line.cursor == l.cursor + (count - packets)
    decreases count - packets
  {
    if packets < count {
      var (reply, l') := Receive(w, l, Deadline(w.ctx, l.now));
      assert reply.Got?;
      var l'' := Transmit(w, l', reply.from, reply.seqno, reply.size).value;
      ServeExitsClean(w, l'', count, packets + 1);
    }
  }

  // --- Listen mode -----------------------------------------------------------------

  datatype ListenResult = ListenResult(packets: nat, bytes: nat, elapsed: int)

  datatype ListenError = BadIdleTimeout | ListenRead | ListenWrite

  function BytesIn(inbox: seq<Arrival>): nat {
    if inbox == [] then 0
    else BytesIn(inbox[..|inbox| - 1]) + (match inbox[|inbox| - 1] case Datagram(_, _, _, n, _) => n case Fault(_) => 0)
  }

  lemma BytesStep(w: World, lo: nat, mid: nat, hi: nat)
    requires lo <= mid <= hi <= mid + 1 && hi <= |w.inbox|
    ensures BytesIn(w.inbox[lo..hi]) == BytesIn(w.inbox[lo..mid])
              + (if hi > mid && w.inbox[mid].Datagram? then w.inbox[mid].size else 0)
  {
    if hi > mid {
      assert w.inbox[lo..hi][..hi - lo - 1] == w.inbox[lo..mid];
    }
  }

  /** How long a listener waits for the next packet, counted from `t`. Only a listener that
      expects no number and has heard something waits for the idle timeout; otherwise the
      context's deadline decides, or 30 seconds without one. */
  function Patience(ctx: Context, t: int, expected: int, packets: int, idle: int): int {
    if expected <= 0 && packets > 0 && idle > 0 then
      (if ctx.deadline.Some? then Min(ctx.deadline.value, t + idle) else t + idle)
    else if ctx.deadline.Some? then ctx.deadline.value
    else t + 30_000_000_000
  }

  /** Why a listener may leave with what it has: the count is full, a socket error came after
      the end of the context, or it waited for the next packet as long as it should. */
  ghost predicate MayLeave(w: World, start: Line, l: Line, expected: int, idle: int) {
    var packets := |l.sent| - |start.sent|;
    var t := LastEcho(start, l);
    || (expected > 0 && packets == expected)
    || (l.cursor - start.cursor == packets + 1 && w.ctx.Done(l.now))
    || (l.cursor - start.cursor == packets
        && l.now == Max(t, Patience(w.ctx, t, expected, packets, idle))
        && (w.ctx.Done(l.now) || (l.cursor < |w.inbox| ==> l.now < w.inbox[l.cursor].at)))
  }

  /** Listen mode has echoed what it read, one for one and in order, and counted packets and
      bytes accordingly. It never reads more than it expects. It leaves with its count, at
      the end of its context, or exactly when it has waited long enough with the next packet
      still to come. */
  ghost predicate Listened(w: World, l0: Line, l: Line, expected: int, idle: int, r: ListenResult) {
    && Echoed(w, l, |l0.sent|, l0.cursor) && |l0.sent| <= |l.sent| && l.sent[..|l0.sent|] == l0.sent
    && l0.cursor <= l.cursor <= |w.inbox|
    && r.packets == |l.sent| - |l0.sent|
    && r.bytes == BytesIn(w.inbox[l0.cursor..l.cursor])
    && r.elapsed == l.now - l0.now
    && (expected > 0 ==> r.packets <= expected)
    && MayLeave(w, l0, l, expected, idle)
  }

  ghost predicate Listening(w: World, l0: Line, l: Line, expected: int, packets: nat, bytes: nat) {
    && Echoes(w, l, |l0.sent|, l0.cursor) && l.sent[..|l0.sent|] == l0.sent
    && packets == l.cursor - l0.cursor && (expected > 0 ==> packets < expected)
    && bytes == BytesIn(w.inbox[l0.cursor..l.cursor])
    && LastEcho(l0, l) == l.now
  }

  lemma ListenStart(w: World, l0: Line, expected: int)
    requires l0.cursor <= |w.inbox|
    ensures Listening(w, l0, l0, expected, 0, 0)
  {
    assert w.inbox[l0.cursor..l0.cursor] == [];
  }

  function ListenDeadline(ctx: Context, now: int, expected: int, packets: nat, idle: int): int {
    if expected <= 0 && packets > 0 && idle > 0 then PacketDeadline(ctx, now, idle) else Deadline(ctx, now)
  }

  lemma ListenGot(w: World, l0: Line, l: Line, expected: int, packets: nat, bytes: nat, idle: int)
    requires Listening(w, l0, l, expected, packets, bytes) && l.cursor <= |w.inbox|
    ensures var (reply, l') := Receive(w, l, ListenDeadline(w.ctx, l.now, expected, packets, idle));
            reply.Got? ==>
              var t := Transmit(w, l', reply.from, reply.seqno, reply.size);
              t.Some? ==>
                if expected > 0 && packets + 1 >= expected
                then Listened(w, l0, t.value, expected, idle, ListenResult(packets + 1, bytes + reply.size, t.value.now - l0.now))
                else Listening(w, l0, t.value, expected, packets + 1, bytes + reply.size)
  {
    hide ReturnsAt, BytesIn;
    var d := ListenDeadline(w.ctx, l.now, expected, packets, idle);
    EchoOne(w, l, d, |l0.sent|, l0.cursor);
    BytesStep(w, l0.cursor, l.cursor, Receive(w, l, d).1.cursor);
  }

  lemma ListenLeave(w: World, l0: Line, l: Line, expected: int, packets: nat, bytes: nat, idle: int)
    requires Listening(w, l0, l, expected, packets, bytes) && l.cursor <= |w.inbox| && idle >= 0
    ensures var (reply, l') := Receive(w, l, ListenDeadline(w.ctx, l.now, expected, packets, idle));
            !reply.Got? && (w.ctx.Done(l'.now) || reply.TimedOut?) ==>
              Listened(w, l0, l', expected, idle, ListenResult(packets, bytes, l'.now - l0.now))
  {
    hide ReturnsAt, BytesIn;
    var d := ListenDeadline(w.ctx, l.now, expected, packets, idle);
    EchoOne(w, l, d, |l0.sent|, l0.cursor);
    BytesStep(w, l0.cursor, l.cursor, Receive(w, l, d).1.cursor);
  }

  /** A listener that leaves short of its count, while its context is not done, has echoed every
      packet due by then and has waited since its last echo, or the start, for exactly the
      idle timeout or 30 seconds. */
  lemma ListenerWaits(w: World, l0: Line, l: Line, expected: int, idle: int, r: ListenResult)
    requires w.InOrder() && Listened(w, l0, l, expected, idle, r) && !w.ctx.Done(l.now) && idle >= 0
    requires expected <= 0 || r.packets < expected
    ensures l.cursor - l0.cursor == r.packets
    ensures forall j :: l0.cursor <= j < |w.inbox| && w.inbox[j].at <= l.now ==> j < l0.cursor + r.packets
    ensures l.now == LastEcho(l0, l) + (if expected <= 0 && r.packets > 0 && idle > 0 then idle else 30_000_000_000)
  {
    hide Echoes;
    EndedInEcho(w, l, |l0.sent|, l0.cursor);
    forall j | l.cursor <= j < |w.inbox|
      ensures w.inbox[j].at > l.now
    {
      assert w.inbox[l.cursor].at <= w.inbox[j].at;
    }
  }

  lemma EndedInEcho(w: World, l: Line, m: nat, c: nat)
    requires Echoed(w, l, m, c) && !w.ctx.Done(l.now)
    ensures l.cursor - c == |l.sent| - m && c <= l.cursor <= |w.inbox|
  {}

  /** A listener that hears nothing. */
  lemma HeardNothing(w: World, l0: Line, l: Line, expected: int, idle: int, r: ListenResult)
    requires w.InOrder() && Listened(w, l0, l, expected, idle, r) && idle >= 0
    ensures r.packets == 0 && !w.ctx.Done(l.now) ==>
              && l.now == l0.now + 30_000_000_000 && l.cursor == l0.cursor
              && (l.cursor < |w.inbox| ==> l.now < w.inbox[l.cursor].at)
    ensures r.packets == 0 && w.ctx.deadline.Some? && l.cursor == l0.cursor ==> l.now == Max(l0.now, w.ctx.deadline.value)
  {
    hide Echoes;
    if r.packets == 0 && !w.ctx.Done(l.now) {
      ListenerWaits(w, l0, l, expected, idle, r);
    }
  }

  method RunUdpPerfListen(conn: PacketConn, expected: int, idle: int) returns (r: Result<ListenResult, ListenError>)
    requires conn.Valid()
    modifies conn
    ensures conn.Valid()
    ensures idle < 0 <==> r == Err(BadIdleTimeout)
    ensures r.Ok? ==> Listened(conn.world, old(conn.line), conn.line, expected, idle, r.value)
    ensures r.Ok? && r.value.packets == 0 && !conn.world.ctx.Done(conn.line.now) ==>
              && conn.line.now == old(conn.line).now + 30_000_000_000 && conn.line.cursor == old(conn.line).cursor
              && (conn.line.cursor < |conn.world.inbox| ==> conn.line.now < conn.world.inbox[conn.line.cursor].at)
    ensures r.Ok? && r.value.packets == 0 && conn.world.ctx.deadline.Some? && conn.line.cursor == old(conn.line).cursor ==>
              conn.line.now == Max(old(conn.line).now, conn.world.ctx.deadline.value)
    ensures r == Err(ListenWrite) ==> |conn.line.sent| in conn.world.writeFaults
    ensures r == Err(ListenRead) ==>
              && !conn.world.ctx.Done(conn.line.now)
              && 0 < conn.line.cursor <= |conn.world.inbox| && conn.world.inbox[conn.line.cursor - 1].Fault?
  {
    hide Listening, Listened;
    if idle < 0 {
      return Err(BadIdleTimeout);
    }
    var packets: nat, bytes: nat := 0, 0;
    var start := conn.line.now;
    ghost var l0 := conn.line;
    ListenStart(conn.world, l0, expected);
    while true
      invariant conn.Valid() && Listening(conn.world, l0, conn.line, expected, packets, bytes)
      decreases |conn.world.inbox| - conn.line.cursor
    {
      var ctx := conn.world.ctx;
      var readDeadline := Deadline(ctx, conn.line.now);
      if expected <= 0 && packets > 0 && idle > 0 {
        readDeadline := PacketDeadline(ctx, conn.line.now, idle);
      }
      ListenGot(conn.world, l0, conn.line, expected, packets, bytes, idle);
      ListenLeave(conn.world, l0, conn.line, expected, packets, bytes, idle);
      var reply := conn.ReadFrom(readDeadline);
      if !reply.Got? {
        if ctx.Done(conn.line.now) || reply.TimedOut? {
          HeardNothing(conn.world, l0, conn.line, expected, idle, ListenResult(packets, bytes, conn.line.now - start));
          return Ok(ListenResult(packets, bytes, conn.line.now - start));
        }
        return Err(ListenRead);
      }
      packets := packets + 1;
      bytes := bytes + reply.size;
      var ok := conn.WriteTo(reply.from, reply.seqno, reply.size);
      if !ok {
        return Err(ListenWrite);
      }
      if expected > 0 && packets >= expected {
        return Ok(ListenResult(packets, bytes, conn.line.now - start));
      }
    }
  }
}
