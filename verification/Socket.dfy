/** The environment of the echo engines: one packet socket, one clock, one context.

    Times are integers (nanoseconds). The clock is idealised: it advances only while
    a read is waiting. What the network delivers to the socket is an arbitrary finite
    trace in order of arrival; it may drop, delay, reorder, duplicate or invent replies. */
module Socket {
  import opened Common

  /** What `context.Context` shows its users: an optional deadline, and the moment
      (if any) at which somebody cancels it. */
  datatype Context = Context(deadline: Option<int>, cancelledAt: Option<int>) {
    /** `ctx.Err() != nil` at time `now`. */
    predicate Done(now: int) {
      || (deadline.Some? && deadline.value <= now)
      || (cancelledAt.Some? && cancelledAt.value <= now)
    }
  }

  /** `context.WithTimeout`: the parent's cancellation, and its deadline unless this is sooner. */
  function WithTimeout(parent: Context, now: int, timeout: int): Context {
    parent.(deadline := Some(if parent.deadline.Some? then Min(parent.deadline.value, now + timeout) else now + timeout))
  }

  /** One event of the incoming trace: a datagram from a peer, with the sequence number
      in its first eight bytes, or a socket error that is not a timeout. `cause` is what no
      reader can see: which write, by its place in this socket's own log, a reply answers. */
  datatype Arrival =
    | Datagram(at: int, from: nat, seqno: nat, size: nat, cause: nat)
    | Fault(at: int)

  /** The fixed part of the environment. Write number `i` fails when `i in writeFaults`. */
  datatype World = World(inbox: seq<Arrival>, writeFaults: set<nat>, ctx: Context) {
    ghost predicate InOrder() {
      forall i, j :: 0 <= i <= j < |inbox| ==> inbox[i].at <= inbox[j].at
    }
  }

  /** One datagram written; `cursor` is how much of the inbox had been read by then. */
  datatype Sent = Sent(to: nat, seqno: nat, size: nat, at: int, cursor: nat)

  /** The changing part: the clock, the number of arrivals consumed, the write log. */
  datatype Line = Line(now: int, cursor: nat, sent: seq<Sent>)

  datatype Reply = Got(from: nat, seqno: nat, size: nat) | TimedOut | Broken

  /** The one address an echo engine writes to. */
  const PEER: nat := 0

  const FALLBACK: int := 30_000_000_000

  function Deadline(ctx: Context, now: int): int {
    if ctx.deadline.Some? then ctx.deadline.value else now + FALLBACK
  }

  function PacketDeadline(ctx: Context, now: int, timeout: int): int {
    if timeout <= 0 then Deadline(ctx, now)
    else if ctx.deadline.Some? && ctx.deadline.value < now + timeout then ctx.deadline.value
    else now + timeout
  }

  /** A read with deadline `d`: the next arrival if it comes no later than `d`,
      otherwise a timeout at `d` (at once when `d` has passed). */
  function Receive(w: World, l: Line, d: int): (r: (Reply, Line))
    requires l.cursor <= |w.inbox|
    ensures r.1.sent == l.sent && l.now <= r.1.now
    ensures r.1.cursor == l.cursor + (if r.0.TimedOut? then 0 else 1) <= |w.inbox|
    ensures l.now <= d ==> r.1.now <= d
    ensures r.0.TimedOut? ==> r.1.now == Max(l.now, d)
  {
    if l.now <= d && l.cursor < |w.inbox| && w.inbox[l.cursor].at <= d then
      var a := w.inbox[l.cursor];
      var l' := l.(now := Max(l.now, a.at), cursor := l.cursor + 1);
      (match a
       case Datagram(_, from, s, n, _) => Got(from, s, n)
       case Fault(_) => Broken, l')
    else
      (TimedOut, l.(now := Max(l.now, d)))
  }

  /** A write is logged with its time; it takes no time. `None` is a write error. */
  function Transmit(w: World, l: Line, to: nat, seqno: nat, size: nat): Option<Line> {
    if |l.sent| in w.writeFaults then None
    else Some(l.(sent := l.sent + [Sent(to, seqno, size, l.now, l.cursor)]))
  }

  class PacketConn {
    const world: World
    var line: Line

    ghost predicate Valid()
      reads this
    {
      world.InOrder() && line.cursor <= |world.inbox|
    }

    constructor (world: World, now: int)
      requires world.InOrder()
      ensures Valid() && this.world == world && line == Line(now, 0, [])
    {
      this.world := world;
      line := Line(now, 0, []);
    }

    method ReadFrom(deadline: int) returns (reply: Reply)
      requires Valid()
      modifies this
      ensures Valid() && (reply, line) == Receive(world, old(line), deadline)
    {
      if line.now <= deadline && line.cursor < |world.inbox| && world.inbox[line.cursor].at <= deadline {
        var arrival := world.inbox[line.cursor];
        line := line.(now := Max(line.now, arrival.at), cursor := line.cursor + 1);
        match arrival {
          case Datagram(_, from, seqno, size, _) => reply := Got(from, seqno, size);
          case Fault(_) => reply := Broken;
        }
      } else {
        line := line.(now := Max(line.now, deadline));
        reply := TimedOut;
      }
    }

    method WriteTo(to: nat, seqno: nat, size: nat) returns (ok: bool)
      requires Valid()
      modifies this
      ensures Valid()
      ensures var t := Transmit(world, old(line), to, seqno, size);
              ok == t.Some? && line == (if ok then t.value else old(line))
    {
      ok := |line.sent| !in world.writeFaults;
      if ok {
        line := line.(sent := line.sent + [Sent(to, seqno, size, line.now, line.cursor)]);
      }
    }
  }
}
