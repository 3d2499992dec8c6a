/** Window 1: the serial engine and the windowed engine are the same program. */
module EchoSerial {
  import opened Common
  import opened Socket
  import opened EchoMachine

  /** What the windowed run makes of the answer to its only pending datagram. */
  ghost function Resume(w: World, e: Echo, f: Flight, a: Answer): Outcome
    requires !a.Broke? ==> Ready(w, e, AfterEcho(f, a))
  {
    match a
    case Broke(why, l) => Failed(why, l)
    case _ => Run(w, e, AfterEcho(f, a))
  }

  ghost predicate Alike(w: World, e: Echo) {
    e.timeout > 0 || w.ctx.deadline.Some?
  }

  lemma OnlyPending(pending: map<nat, int>, s: nat, t: int)
    requires pending == map[s := t]
    ensures pending != map[] && Oldest(pending) == t && |pending| == 1 && pending - {s} == map[]
  {
    assert s in pending;
  }

  /** Waiting for one reply: the inner read loop of the serial engine and the outer loop
      of the windowed engine consume the same arrivals and come to the same end. */
  lemma {:induction false} AwaitIsRun(w: World, e: Echo, f: Flight, l: Line, d: int)
    requires Ready(w, e, f) && f.pending == map[] && MaySend(e, f) && e.window == 1 && Alike(w, e)
    requires Ready(w, e, f.(line := l, pending := map[f.next := f.line.now], next := f.next + 1))
    requires d == PacketDeadline(w.ctx, f.line.now, e.timeout)
    requires l.sent == f.line.sent + [Sent(PEER, f.next, e.size, f.line.now, f.line.cursor)]
    ensures var a := Await(w, e.size, l, f.next, d);
            && (!a.Broke? ==> Ready(w, e, AfterEcho(f, a)))
            && Run(w, e, f.(line := l, pending := map[f.next := f.line.now], next := f.next + 1))
               == Resume(w, e, f, a)
    decreases |w.inbox| - l.cursor
  {
    var g := f.(line := l, pending := map[f.next := f.line.now], next := f.next + 1);
    OnlyPending(g.pending, f.next, f.line.now);
    assert ReadDeadline(w.ctx, l.now, g.pending, e.timeout) == d;
    var (reply, l') := Receive(w, l, d);
    match reply {
      case TimedOut =>
        if !w.ctx.Done(l'.now) {
          assert Survivors(g.pending, l'.now, e.timeout) == map[];
          RunStep(w, e, g, AfterEcho(f, Silent(l')));
        }
      case Broken =>
      case Got(_, s, n) =>
        if n == e.size {
          if s == f.next {
            RunStep(w, e, g, AfterEcho(f, Replied(l')));
          } else {
            RunStep(w, e, g, g.(line := l'));
            AwaitIsRun(w, e, f, l', d);
          }
        }
    }
  }

  /** The dispatch on window 1 preserves meaning: the two engines return the same round
      trips, losses, errors and final socket state on every trace. */
  lemma {:induction false} SerialIsWindowOne(w: World, e: Echo, f: Flight)
    requires Ready(w, e, f) && f.pending == map[] && e.window == 1 && Alike(w, e)
    ensures Serial(w, e, f) == Run(w, e, f)
    decreases if e.plan.Count? then e.plan.limit - f.next else Unread(w, f), TimeLeft(e, f), f.next == e.base
  {
    if MaySend(e, f) {
      match Transmit(w, f.line, PEER, f.next, e.size) {
        case None =>
        case Some(l) =>
          var g := f.(line := l, pending := map[f.next := f.line.now], next := f.next + 1);
          RunStep(w, e, f, g);
          AwaitIsRun(w, e, f, l, PacketDeadline(w.ctx, l.now, e.timeout));
          var a := EchoOnce(w, e.size, e.timeout, f.line, f.next);
          if !a.Broke? {
            SerialIsWindowOne(w, e, AfterEcho(f, a));
          }
      }
    }
  }

  /** The two engines agree on every trace for this packet timeout and context deadline. */
  ghost predicate AlwaysAgree(timeout: nat, deadline: Option<int>) {
    forall w: World, plan: Plan, base: nat, size: nat, l: Line |
      && w.ctx.deadline == deadline && w.InOrder() && l.cursor <= |w.inbox|
      && (plan.Count? ==> base <= plan.limit) ::
      Serial(w, Echo(base, plan, size, 1, timeout), Start(Echo(base, plan, size, 1, timeout), l))
      == Run(w, Echo(base, plan, size, 1, timeout), Start(Echo(base, plan, size, 1, timeout), l))
  }

  /** Without a packet timeout and without a context deadline a read falls back to 30 s;
      a silent network is then a loss for the serial engine and an error for the other. */
  lemma SilenceTellsThemApart(size: nat)
    ensures var w := World([], {}, Context(None, None));
            var e := Echo(0, Count(1), size, 1, 0);
            var f := Start(e, Line(0, 0, []));
            && w.InOrder() && Ready(w, e, f)
            && Serial(w, e, f).Finished? && Serial(w, e, f).flight.lost == 1
            && Run(w, e, f).Failed? && Run(w, e, f).why == ReadFailed
  {
    var w := World([], {}, Context(None, None));
    var e := Echo(0, Count(1), size, 1, 0);
    var f := Start(e, Line(0, 0, []));
    var l := Line(0, 0, [Sent(PEER, 0, size, 0, 0)]);
    assert f.line.sent + [Sent(PEER, 0, size, 0, 0)] == l.sent;
    var a := Await(w, e.size, l, 0, FALLBACK);
    assert a == Silent(l.(now := FALLBACK));
    assert EchoOnce(w, e.size, e.timeout, f.line, 0) == a;
    assert Serial(w, e, AfterEcho(f, a)) == Finished(AfterEcho(f, a));
    var g := Flight(l, map[0 := 0], 1, 0, []);
    assert Advance(w, e, f) == On(g);
    OnlyPending(g.pending, 0, 0);
    AdvanceReady(w, e, f);
    assert Receive(w, l, FALLBACK).0 == TimedOut;
    assert Advance(w, e, g).Off?;
  }

  /** Exactly when the dispatch is harmless. */
  lemma AgreementCondition(timeout: nat, deadline: Option<int>)
    ensures AlwaysAgree(timeout, deadline) <==> timeout > 0 || deadline.Some?
  {
    if timeout > 0 || deadline.Some? {
      forall w: World, plan: Plan, base: nat, size: nat, l: Line |
        && w.ctx.deadline == deadline && w.InOrder() && l.cursor <= |w.inbox|
        && (plan.Count? ==> base <= plan.limit)
        ensures Serial(w, Echo(base, plan, size, 1, timeout), Start(Echo(base, plan, size, 1, timeout), l))
             == Run(w, Echo(base, plan, size, 1, timeout), Start(Echo(base, plan, size, 1, timeout), l))
      {
        var e := Echo(base, plan, size, 1, timeout);
        StartReady(w, e, l);
        SerialIsWindowOne(w, e, Start(e, l));
      }
    } else {
      SilenceTellsThemApart(8);
      var w := World([], {}, Context(None, None));
      assert w.ctx.deadline == deadline && w.InOrder();
      assert Serial(w, Echo(0, Count(1), 8, 1, timeout), Start(Echo(0, Count(1), 8, 1, timeout), Line(0, 0, [])))
          != Run(w, Echo(0, Count(1), 8, 1, timeout), Start(Echo(0, Count(1), 8, 1, timeout), Line(0, 0, [])));
      assert !AlwaysAgree(timeout, deadline);
    }
  }
}
