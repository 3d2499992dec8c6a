/** Whose reply is it? Numbers restart with every trial and the socket does not, so a reply to
    one datagram can settle another. Here is exactly when it does not. */
module OwnReplies {
  import opened Common
  import opened Socket
  import opened EchoMachine
  import opened EchoLaws
  import opened OnTime
  import opened Perf
  import opened Conservation

  /** The peer only echoes: what has been taken in answers something written, and an answer
      bears the number of what it answers and comes after it. */
  ghost predicate OnlyEchoes(w: World, l: Line) {
    forall j: nat :: j < |w.inbox| && w.inbox[j].Datagram? ==> IsEcho(w, l, j)
  }

  ghost predicate IsEcho(w: World, l: Line, j: nat)
    requires j < |w.inbox| && w.inbox[j].Datagram?
  {
    var c := w.inbox[j].cause;
    && (j < l.cursor ==> c < |l.sent|)
    && (c < |l.sent| ==> w.inbox[j].seqno == l.sent[c].seqno && l.sent[c].cursor <= j)
  }

  /** Arrival `j` is the first to bear the number of `x` since its send, and is in time. */
  ghost predicate Decides(w: World, x: Sent, timeout: int, j: nat) {
    && x.cursor <= j && Bears(w, j, x.seqno) && Quiet(w, x, j)
    && (timeout > 0 ==> w.inbox[j].at <= x.at + timeout)
  }

  /** What a run decides is what it settles. */
  lemma DecidesIsSettles(w: World, e: Echo, start: int, x: Sent, j: nat)
    requires start <= x.at
    ensures Decides(w, x, e.timeout, j) <==> Settles(w, e, start, x, j)
  {}

  /** Every datagram written from `from` on that is settled is settled by its own reply. */
  ghost predicate Own(w: World, l: Line, from: nat, timeout: int) {
    forall p: nat, j: nat :: from <= p < |l.sent| && Decides(w, l.sent[p], timeout, j) ==> w.inbox[j].cause == p
  }

  /** None of them is settled by a reply to something written before. */
  ghost predicate NoneLeftOver(w: World, l: Line, from: nat, timeout: int) {
    forall p: nat, j: nat :: from <= p < |l.sent| && Decides(w, l.sent[p], timeout, j) ==> from <= w.inbox[j].cause
  }

  /** No reply to anything already written, with one of the numbers `lo..hi`, is still to come. */
  ghost predicate Clear(w: World, l: Line, lo: nat, hi: nat) {
    forall j: nat :: l.cursor <= j < |w.inbox| && w.inbox[j].Datagram? && w.inbox[j].cause < |l.sent| ==>
      !(lo <= w.inbox[j].seqno < hi)
  }

  // --- A stretch of writes -----------------------------------------------------------

  ghost predicate Extends(w: World, l0: Line, l: Line) {
    && |l0.sent| <= |l.sent| && l.sent[..|l0.sent|] == l0.sent
    && l0.cursor <= l.cursor <= |w.inbox|
    && forall p :: |l0.sent| <= p < |l.sent| ==> l0.cursor <= l.sent[p].cursor
  }

  /** The writes between `l0` and `l` are numbered from `base`, and decided by `l`. */
  ghost predicate Stretch(w: World, l0: Line, l: Line, base: nat, timeout: int) {
    && Extends(w, l0, l)
    && (forall p :: |l0.sent| <= p < |l.sent| ==> l.sent[p].seqno == base + (p - |l0.sent|))
    && (forall p: nat, j: nat :: |l0.sent| <= p < |l.sent| && Decides(w, l.sent[p], timeout, j) ==> j < l.cursor)
  }

  /** For every stretch of writes: all replies are their own if and only if none is left over
      from before it. */
  lemma {:induction false} StretchOwn(w: World, l0: Line, l: Line, base: nat, timeout: int)
    requires Stretch(w, l0, l, base, timeout) && OnlyEchoes(w, l)
    ensures Own(w, l, |l0.sent|, timeout) <==> NoneLeftOver(w, l, |l0.sent|, timeout)
  {
    hide Quiet;
    forall p: nat, j: nat | |l0.sent| <= p < |l.sent| && Decides(w, l.sent[p], timeout, j) && |l0.sent| <= w.inbox[j].cause
      ensures w.inbox[j].cause == p
    {
      assert IsEcho(w, l, j);
    }
  }

  lemma ClearIsFree(w: World, l0: Line, l: Line, base: nat, hi: nat, timeout: int)
    requires Stretch(w, l0, l, base, timeout) && Clear(w, l0, base, hi) && base + (|l.sent| - |l0.sent|) <= hi
    ensures NoneLeftOver(w, l, |l0.sent|, timeout)
  {
    hide Quiet;
  }

  lemma StretchJoin(w: World, l0: Line, l1: Line, l2: Line, base: nat, timeout: int)
    requires Stretch(w, l0, l1, base, timeout)
    requires Stretch(w, l1, l2, base + (|l1.sent| - |l0.sent|), timeout)
    ensures Stretch(w, l0, l2, base, timeout)
  {
    hide Decides;
    assert l2.sent[..|l0.sent|] == l1.sent[..|l0.sent|];
    forall p | |l0.sent| <= p < |l1.sent|
      ensures l2.sent[p] == l1.sent[p]
    {
      assert l2.sent[..|l1.sent|][p] == l1.sent[p];
    }
  }

  // --- One run -----------------------------------------------------------------------

  lemma RunStretch(w: World, e: Echo, l0: Line)
    requires w.InOrder() && e.WellFormed() && l0.cursor <= |w.inbox|
    requires WindowRun(w, e, l0).Finished?
    ensures Stretch(w, l0, WindowRun(w, e, l0).flight.line, e.base, e.timeout)
  {
    hide WindowRun, Unanswered, Settled, Settles, Decides;
    FinalState(w, e, l0);
    var l := WindowRun(w, e, l0).flight.line;
    var sends := Mine(l0, l);
    assert l.sent[..|l0.sent|] == l0.sent;
    forall p: nat | |l0.sent| <= p < |l.sent|
      ensures Entry(e, l0, l, l.sent[p], p - |l0.sent|)
      ensures forall j: nat :: Decides(w, l.sent[p], e.timeout, j) ==> j < l.cursor
    {
      var x := sends[p - |l0.sent|];
      assert l.sent[p] == x && Concluded(w, e, l0, l, x, p - |l0.sent|);
      forall j: nat | Decides(w, x, e.timeout, j)
        ensures j < l.cursor
      {
        DecidesIsSettles(w, e, l0.now, x, j);
        SettledBefore(w, e, l0.now, x, j, l.cursor);
      }
    }
  }

  lemma SettledBefore(w: World, e: Echo, start: int, x: Sent, j: nat, hi: nat)
    requires Settles(w, e, start, x, j) && (Settled(w, e, start, x, hi) || Unanswered(w, e, start, x))
    ensures j < hi
  {
    ResolvedOnce(w, e, start, x, j, j);
    var i: nat :| i < hi && Settles(w, e, start, x, i);
    ResolvedOnce(w, e, start, x, j, i);
  }

  /** In every run that ends without error, from any state of the socket: each datagram that is
      settled is settled by its own reply if and only if no reply left over from before the
      run settles one. */
  lemma RunOwn(w: World, e: Echo, l0: Line)
    requires w.InOrder() && e.WellFormed() && l0.cursor <= |w.inbox|
    requires WindowRun(w, e, l0).Finished? && OnlyEchoes(w, WindowRun(w, e, l0).flight.line)
    ensures var l := WindowRun(w, e, l0).flight.line;
            Own(w, l, |l0.sent|, e.timeout) <==> NoneLeftOver(w, l, |l0.sent|, e.timeout)
  {
    hide Stretch, Own, NoneLeftOver, OnlyEchoes;
    RunStretch(w, e, l0);
    StretchOwn(w, l0, WindowRun(w, e, l0).flight.line, e.base, e.timeout);
  }

  /** What can be looked at before the call: no reply to come, from before the run, bears a
      number of its plan. (A plan by time uses the numbers below `hi`, for some `hi`.) */
  lemma RunOwnWhenClear(w: World, e: Echo, l0: Line, hi: nat)
    requires w.InOrder() && e.WellFormed() && l0.cursor <= |w.inbox|
    requires WindowRun(w, e, l0).Finished? && OnlyEchoes(w, WindowRun(w, e, l0).flight.line)
    requires Clear(w, l0, e.base, hi)
    requires if e.plan.Count? then e.plan.limit <= hi else WindowRun(w, e, l0).flight.next <= hi
    ensures Own(w, WindowRun(w, e, l0).flight.line, |l0.sent|, e.timeout)
  {
    hide Stretch, Own, NoneLeftOver, OnlyEchoes, Clear, Unanswered;
    RunStretch(w, e, l0);
    WindowTally(w, e, l0);
    RunOwn(w, e, l0);
    ClearIsFree(w, l0, WindowRun(w, e, l0).flight.line, e.base, hi, e.timeout);
  }

  // --- A whole measurement -----------------------------------------------------------

  lemma {:induction false} AwaitDecides(w: World, size: nat, l: Line, seqno: nat, d: int)
    requires l.cursor <= |w.inbox|
    ensures var a := Await(w, size, l, seqno, d);
            a.Replied? ==>
              && a.line.cursor > l.cursor && Bears(w, a.line.cursor - 1, seqno)
    decreases |w.inbox| - l.cursor
  {
    var (reply, l') := Receive(w, l, d);
    if reply.Got? && reply.size == size && reply.seqno != seqno {
      AwaitDecides(w, size, l', seqno, d);
    }
  }

  lemma EchoStretch(w: World, size: nat, timeout: int, l: Line, seqno: nat)
    requires w.InOrder() && l.cursor <= |w.inbox| && timeout > 0
    ensures var a := EchoOnce(w, size, timeout, l, seqno);
            !a.Broke? ==> Stretch(w, l, a.line, seqno, timeout)
  {
    var a := EchoOnce(w, size, timeout, l, seqno);
    if !a.Broke? {
      var x := Sent(PEER, seqno, size, l.now, l.cursor);
      EchoInTime(w, size, timeout, l, seqno);
      var l' := Transmit(w, l, PEER, seqno, size).value;
      AwaitDecides(w, size, l', seqno, PacketDeadline(w.ctx, l.now, timeout));
      forall j: nat | Decides(w, x, timeout, j)
        ensures j < a.line.cursor
      {
        assert RepliedInTime(w, x, timeout);
        assert Bears(w, a.line.cursor - 1, seqno);
      }
    }
  }

  lemma {:induction false} WarmUpStretch(w: World, q: Request, l: Line, i: nat, answered: nat)
    requires w.InOrder() && l.cursor <= |w.inbox| && q.size >= 0 && i <= q.warmup && q.timeout > 0
    ensures var r := WarmUp(w, q, l, i, answered);
            r.Warm? ==> Stretch(w, l, r.line, i, q.timeout)
    decreases q.warmup - i
  {
    hide EchoOnce, Decides;
    if i < q.warmup {
      EchoStretch(w, q.size, q.timeout, l, i);
      var a := EchoOnce(w, q.size, q.timeout, l, i);
      if !a.Broke? {
        var more := answered + if a.Replied? then 1 else 0;
        WarmUpStretch(w, q, a.line, i + 1, more);
        var r := WarmUp(w, q, a.line, i + 1, more);
        if r.Warm? {
          StretchJoin(w, l, a.line, r.line, i, q.timeout);
        }
      }
    }
  }

  lemma MeasureStretch(w: World, q: Request, l: Line)
    requires w.InOrder() && l.cursor <= |w.inbox| && q.timeout > 0
    ensures Measure(w, q, l).Done? ==> Stretch(w, l, Measure(w, q, l).line, 0, q.timeout)
  {
    hide WarmUp, Engine, WindowRun, Stretch;
    if Rejected(q).None? && WarmUp(w, q, l, 0, 0).Warm? {
      var l1 := WarmUp(w, q, l, 0, 0).line;
      WarmUpStretch(w, q, l, 0, 0);
      if Engine(w, q, l1).Finished? {
        DispatchPreservesMeaning(w, q, l1);
        RunStretch(w, EchoOf(q, l1.now), l1);
        StretchJoin(w, l, l1, Engine(w, q, l1).flight.line, 0, q.timeout);
      }
    }
  }

  /** The same for a measurement by any engine, warm-ups included; and beforehand: no reply
      still to come bears a number that it will use. */
  lemma MeasureOwn(w: World, q: Request, l: Line)
    requires w.InOrder() && l.cursor <= |w.inbox| && q.timeout > 0
    requires Measure(w, q, l).Done? && OnlyEchoes(w, Measure(w, q, l).line)
    ensures var l' := Measure(w, q, l).line;
            && (Own(w, l', |l.sent|, q.timeout) <==> NoneLeftOver(w, l', |l.sent|, q.timeout))
            && (forall hi: nat :: q.warmup + Measure(w, q, l).result.count <= hi && Clear(w, l, 0, hi) ==>
                  Own(w, l', |l.sent|, q.timeout))
  {
    hide Stretch, Own, NoneLeftOver, OnlyEchoes, Clear, Measure, Numbered, Intact;
    MeasureStretch(w, q, l);
    MeasureCounts(w, q, l);
    var l' := Measure(w, q, l).line;
    StretchOwn(w, l, l', 0, q.timeout);
    forall hi: nat | q.warmup + Measure(w, q, l).result.count <= hi && Clear(w, l, 0, hi)
      ensures NoneLeftOver(w, l', |l.sent|, q.timeout)
    {
      ClearIsFree(w, l, l', 0, hi, q.timeout);
    }
  }

  // --- Trials ------------------------------------------------------------------------

  /** The last of the trials: from where it starts to where it ends. */
  ghost function LastTrial(w: World, q: Request, l: Line, starts: seq<int>): Option<(Line, Line)>
    requires w.InOrder() && l.cursor <= |w.inbox| && starts != []
  {
    match Trials(w, q, l, starts[..|starts| - 1])
    case Aborted => None
    case Progress(l1, _) =>
      if l1.cursor > |w.inbox| then None
      else
        var l2 := l1.(now := Max(l1.now, starts[|starts| - 1]));
        match Measure(w, q, l2)
        case Not(_, _) => None
        case Done(_, l3, _) => Some((l2, l3))
  }

  /** In every trial every reply matched is the trial's own, and its own datagram's. */
  ghost predicate EachOwn(w: World, q: Request, l: Line, starts: seq<int>)
    requires w.InOrder() && l.cursor <= |w.inbox|
  {
    starts != [] ==>
      && EachOwn(w, q, l, starts[..|starts| - 1])
      && var t := LastTrial(w, q, l, starts);
         t.Some? ==> Own(w, t.value.1, |t.value.0.sent|, q.timeout)
  }

  ghost predicate EachFree(w: World, q: Request, l: Line, starts: seq<int>)
    requires w.InOrder() && l.cursor <= |w.inbox|
  {
    starts != [] ==>
      && EachFree(w, q, l, starts[..|starts| - 1])
      && var t := LastTrial(w, q, l, starts);
         t.Some? ==> NoneLeftOver(w, t.value.1, |t.value.0.sent|, q.timeout)
  }

  /** Whenever a trial starts, no reply to an earlier one is still to come under a number that
      it will use: those below `warmup + count`, as many as it writes. */
  ghost predicate EachClear(w: World, q: Request, l: Line, starts: seq<int>)
    requires w.InOrder() && l.cursor <= |w.inbox|
  {
    starts != [] ==>
      && EachClear(w, q, l, starts[..|starts| - 1])
      && var t := LastTrial(w, q, l, starts);
         t.Some? && |t.value.0.sent| <= |t.value.1.sent| ==>
           Clear(w, t.value.0, 0, |t.value.1.sent| - |t.value.0.sent|)
  }

  /** What was true of all that is written was true of the part written earlier. */
  lemma EchoesBefore(w: World, l1: Line, l2: Line)
    requires Extends(w, l1, l2) && OnlyEchoes(w, l2)
    ensures OnlyEchoes(w, l1)
  {
    forall j: nat | j < |w.inbox| && w.inbox[j].Datagram?
      ensures IsEcho(w, l1, j)
    {
      assert IsEcho(w, l2, j);
      var c := w.inbox[j].cause;
      assert c < |l1.sent| ==> l2.sent[..|l1.sent|][c] == l1.sent[c];
    }
  }

  /** Over any number of trials on one socket: every reply counts for the datagram it answers
      if and only if no trial is given one left over from before it; and that is so if none is
      still to come when it starts. */
  lemma {:induction false} TrialsOwn(w: World, q: Request, l: Line, starts: seq<int>)
    requires w.InOrder() && l.cursor <= |w.inbox| && q.timeout > 0
    requires Trials(w, q, l, starts).Progress? && OnlyEchoes(w, Trials(w, q, l, starts).line)
    ensures EachOwn(w, q, l, starts) <==> EachFree(w, q, l, starts)
    ensures EachClear(w, q, l, starts) ==> EachOwn(w, q, l, starts)
  {
    hide Own, NoneLeftOver, OnlyEchoes, Clear, Measure;
    if starts != [] {
      var n := |starts| - 1;
      var l1 := Trials(w, q, l, starts[..n]).line;
      var l2 := l1.(now := Max(l1.now, starts[n]));
      MeasureStretch(w, q, l2);
      MeasureCounts(w, q, l2);
      EchoesBefore(w, l2, Measure(w, q, l2).line);
      SameEchoes(w, l1, l2);
      TrialsOwn(w, q, l, starts[..n]);
      MeasureOwn(w, q, l2);
    }
  }

  lemma SameEchoes(w: World, l1: Line, l2: Line)
    requires OnlyEchoes(w, l2) && l1.sent == l2.sent && l1.cursor == l2.cursor
    ensures OnlyEchoes(w, l1)
  {
    forall j: nat | j < |w.inbox| && w.inbox[j].Datagram?
      ensures IsEcho(w, l1, j)
    {
      assert IsEcho(w, l2, j);
    }
  }

  /** A trial can match a reply to the trial before it: numbers restart, the socket does not.
      Here the reply to a datagram given up for lost at 5 arrives at 10, and counts for its
      namesake sent at 5, though the peer did nothing but echo. */
  lemma LateReplyCrossesTrials()
    ensures var w := World([Datagram(10, PEER, 0, 8, 0)], {}, Context(None, None));
            var q := Request(1, 8, 0, 1, 5, 0);
            && w.InOrder()
            && Trials(w, q, Line(0, 0, []), [0]) == Progress(Line(5, 0, [Sent(PEER, 0, 8, 0, 0)]), 0)
            && Trials(w, q, Line(0, 0, []), [0, 0]).Progress?
            && Trials(w, q, Line(0, 0, []), [0, 0]).matched == 1
            && OnlyEchoes(w, Trials(w, q, Line(0, 0, []), [0, 0]).line)
            && !EachOwn(w, q, Line(0, 0, []), [0, 0])
  {
    var w := World([Datagram(10, PEER, 0, 8, 0)], {}, Context(None, None));
    var q := Request(1, 8, 0, 1, 5, 0);
    var x, y := Sent(PEER, 0, 8, 0, 0), Sent(PEER, 0, 8, 5, 0);
    OneEcho(w, Line(0, 0, []), [x], Silent(Line(5, 0, [x])));
    OneEcho(w, Line(5, 0, [x]), [x, y], Replied(Line(10, 1, [x, y])));
    assert [0][..0] == [] && [0, 0][..1] == [0];
    assert Trials(w, q, Line(0, 0, []), []) == Progress(Line(0, 0, []), 0);
    var l := Line(10, 1, [x, y]);
    assert IsEcho(w, l, 0);
    assert LastTrial(w, q, Line(0, 0, []), [0, 0]) == Some((Line(5, 0, [x]), l));
    assert Decides(w, l.sent[1], 5, 0) && w.inbox[0].cause != 1;
  }
}
