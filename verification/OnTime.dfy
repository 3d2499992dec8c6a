/** Which datagrams are answered: a measurement matches as many replies as datagrams have one
    in time, and loses nothing exactly when all of them do. */
module OnTime {
  import opened Socket
  import opened EchoMachine
  import opened EchoLaws
  import opened Perf

  /** Some arrival after the send bears the number, within the packet timeout. */
  ghost predicate RepliedInTime(w: World, x: Sent, timeout: int) {
    exists j: nat :: x.cursor <= j && Bears(w, j, x.seqno) && w.inbox[j].at <= x.at + timeout
  }

  ghost predicate AllInTime(w: World, sent: seq<Sent>, from: nat, timeout: int) {
    forall k :: from <= k < |sent| ==> RepliedInTime(w, sent[k], timeout)
  }

  /** How many of the writes `from..n` have a reply in time. */
  ghost function InTime(w: World, sent: seq<Sent>, from: nat, n: nat, timeout: int): nat
    requires from <= n <= |sent|
  {
    if n == from then 0
    else InTime(w, sent, from, n - 1, timeout) + (if RepliedInTime(w, sent[n - 1], timeout) then 1 else 0)
  }

  lemma {:induction false} InTimeAll(w: World, sent: seq<Sent>, from: nat, n: nat, timeout: int)
    requires from <= n <= |sent|
    ensures InTime(w, sent, from, n, timeout) <= n - from
    ensures InTime(w, sent, from, n, timeout) == n - from
       <==> forall k :: from <= k < n ==> RepliedInTime(w, sent[k], timeout)
  {
    hide RepliedInTime;
    if from < n {
      InTimeAll(w, sent, from, n - 1, timeout);
    }
  }

  lemma {:induction false} InTimeJoin(w: World, first: seq<Sent>, all: seq<Sent>, from: nat, n: nat, timeout: int)
    requires from <= |first| <= n <= |all| && all[..|first|] == first
    ensures InTime(w, all, from, n, timeout)
         == InTime(w, first, from, |first|, timeout) + InTime(w, all, |first|, n, timeout)
  {
    hide RepliedInTime;
    if n == |first| {
      InTimePrefix(w, first, all, from, n, timeout);
    } else {
      InTimeJoin(w, first, all, from, n - 1, timeout);
    }
  }

  lemma {:induction false} InTimePrefix(w: World, first: seq<Sent>, all: seq<Sent>, from: nat, n: nat, timeout: int)
    requires from <= n <= |first| <= |all| && all[..|first|] == first
    ensures InTime(w, all, from, n, timeout) == InTime(w, first, from, n, timeout)
  {
    hide RepliedInTime;
    if from < n {
      InTimePrefix(w, first, all, from, n - 1, timeout);
      assert all[..|first|][n - 1] == first[n - 1];
    }
  }

  // --- The windowed engine -----------------------------------------------------------

  lemma InTimeIsAnswered(w: World, e: Echo, start: int, x: Sent)
    requires start <= x.at && e.timeout > 0
    ensures RepliedInTime(w, x, e.timeout) <==> !Unanswered(w, e, start, x)
  {
    if j: nat :| x.cursor <= j && Bears(w, j, x.seqno) && w.inbox[j].at <= x.at + e.timeout {
      assert Answers(w, e, start, x, j);
    }
    if j: nat :| Answers(w, e, start, x, j) {
      assert Bears(w, j, x.seqno);
    }
  }

  ghost function Lost(w: World, e: Echo, start: int, sends: seq<Sent>, n: nat): set<nat>
    requires n <= |sends|
  {
    set k: nat | k < n && Unanswered(w, e, start, sends[k])
  }

  /** Every one of the first `n` datagrams is lost or has its reply in time. */
  lemma {:induction false} LostOrInTime(w: World, e: Echo, start: int, sends: seq<Sent>, n: nat)
    requires n <= |sends| && e.timeout > 0 && forall k :: 0 <= k < |sends| ==> start <= sends[k].at
    ensures |Lost(w, e, start, sends, n)| + InTime(w, sends, 0, n, e.timeout) == n
  {
    hide Unanswered, RepliedInTime;
    if n > 0 {
      var before := Lost(w, e, start, sends, n - 1);
      LostOrInTime(w, e, start, sends, n - 1);
      InTimeIsAnswered(w, e, start, sends[n - 1]);
      if Unanswered(w, e, start, sends[n - 1]) {
        assert Lost(w, e, start, sends, n) == before + {n - 1};
      } else {
        assert Lost(w, e, start, sends, n) == before;
      }
    } else {
      assert Lost(w, e, start, sends, n) == {};
    }
  }

  lemma {:induction false} InTimeShift(w: World, all: seq<Sent>, m: nat, sends: seq<Sent>, n: nat, timeout: int)
    requires m + n <= |all| && n <= |sends| && all[m..] == sends
    ensures InTime(w, all, m, m + n, timeout) == InTime(w, sends, 0, n, timeout)
  {
    hide RepliedInTime;
    if n > 0 {
      InTimeShift(w, all, m, sends, n - 1, timeout);
      assert all[m..][n - 1] == sends[n - 1];
    }
  }

  /** A windowed run records as many round trips as datagrams have a reply in time. */
  lemma WindowInTime(w: World, e: Echo, l0: Line)
    requires w.InOrder() && e.WellFormed() && l0.cursor <= |w.inbox| && e.timeout > 0
    requires WindowRun(w, e, l0).Finished?
    ensures var f := WindowRun(w, e, l0).flight;
            |l0.sent| <= |f.line.sent| && |f.rtt| == InTime(w, f.line.sent, |l0.sent|, |f.line.sent|, e.timeout)
  {
    hide Unanswered, RepliedInTime, Run, Settled;
    FinalState(w, e, l0);
    RunIsFaithful(w, e, l0);
    var f := WindowRun(w, e, l0).flight;
    var sends := Mine(l0, f.line);
    forall k | 0 <= k < |sends|
      ensures l0.now <= sends[k].at
    {
      assert Concluded(w, e, l0, f.line, sends[k], k);
    }
    LostOrInTime(w, e, l0.now, sends, |sends|);
    InTimeShift(w, f.line.sent, |l0.sent|, sends, |sends|, e.timeout);
  }

  // --- One echo ----------------------------------------------------------------------

  /** Waiting ends with a reply exactly when one is there to be read by the deadline. */
  lemma {:induction false} AwaitInTime(w: World, size: nat, l: Line, seqno: nat, d: int)
    requires w.InOrder() && l.cursor <= |w.inbox| && l.now <= d
    ensures var a := Await(w, size, l, seqno, d);
            && (a.Replied? ==> exists j: nat :: l.cursor <= j && Bears(w, j, seqno) && w.inbox[j].at <= d)
            && (a.Silent? ==> forall j: nat :: l.cursor <= j && Bears(w, j, seqno) ==> w.inbox[j].at > d)
    decreases |w.inbox| - l.cursor
  {
    var (reply, l') := Receive(w, l, d);
    match reply {
      case TimedOut =>
      case Broken =>
      case Got(_, s, n) =>
        if n == size && s == seqno {
          assert Bears(w, l.cursor, seqno);
        } else if n == size {
          AwaitInTime(w, size, l', seqno, d);
        }
    }
  }

  lemma EchoInTime(w: World, size: nat, timeout: int, l: Line, seqno: nat)
    requires w.InOrder() && l.cursor <= |w.inbox| && timeout > 0
    ensures var a := EchoOnce(w, size, timeout, l, seqno);
            !a.Broke? ==> (a.Replied? <==> RepliedInTime(w, Sent(PEER, seqno, size, l.now, l.cursor), timeout))
  {
    var d := PacketDeadline(w.ctx, l.now, timeout);
    var a := EchoOnce(w, size, timeout, l, seqno);
    if Transmit(w, l, PEER, seqno, size).Some? && d >= l.now {
      var l' := Transmit(w, l, PEER, seqno, size).value;
      AwaitInTime(w, size, l', seqno, d);
    }
  }

  // --- A whole measurement -----------------------------------------------------------

  lemma {:induction false} WarmUpInTime(w: World, q: Request, l: Line, i: nat, answered: nat)
    requires w.InOrder() && l.cursor <= |w.inbox| && q.size >= 0 && i <= q.warmup && q.timeout > 0
    ensures var r := WarmUp(w, q, l, i, answered);
            r.Warm? ==>
              r.answered == answered + InTime(w, r.line.sent, |l.sent|, |r.line.sent|, q.timeout)
    decreases q.warmup - i
  {
    hide EchoOnce, RepliedInTime;
    if i < q.warmup {
      EchoInTime(w, q.size, q.timeout, l, i);
      var a := EchoOnce(w, q.size, q.timeout, l, i);
      if !a.Broke? {
        var more := if a.Replied? then 1 else 0;
        WarmUpInTime(w, q, a.line, i + 1, answered + more);
        var r := WarmUp(w, q, a.line, i + 1, answered + more);
        if r.Warm? {
          InTimeJoin(w, a.line.sent, r.line.sent, |l.sent|, |r.line.sent|, q.timeout);
          assert InTime(w, a.line.sent, |l.sent|, |l.sent|, q.timeout) == 0;
        }
      }
    }
  }

  /** A measurement matches, warm-ups included, exactly as many replies as its datagrams have
      in time; so all of them exactly when every datagram has one. */
  lemma {:induction false} MeasureInTime(w: World, q: Request, l: Line)
    requires w.InOrder() && l.cursor <= |w.inbox| && q.timeout > 0
    ensures match Measure(w, q, l)
            case Not(_, _) => true
            case Done(r, l', answered) =>
              && |l.sent| <= |l'.sent|
              && answered + |r.rtt| == InTime(w, l'.sent, |l.sent|, |l'.sent|, q.timeout)
              && (answered + |r.rtt| == q.warmup + r.count <==> AllInTime(w, l'.sent, |l.sent|, q.timeout))
  {
    hide WarmUp, Engine, RepliedInTime, WindowRun, InTime;
    MeasureCounts(w, q, l);
    if Rejected(q).None? && WarmUp(w, q, l, 0, 0).Warm? {
      var l1 := WarmUp(w, q, l, 0, 0).line;
      WarmUpInTime(w, q, l, 0, 0);
      if Engine(w, q, l1).Finished? {
        DispatchPreservesMeaning(w, q, l1);
        EngineTally(w, q, l1);
        WindowInTime(w, EchoOf(q, l1.now), l1);
        var sent := Engine(w, q, l1).flight.line.sent;
        InTimeJoin(w, l1.sent, sent, |l.sent|, |sent|, q.timeout);
        InTimeAll(w, sent, |l.sent|, |sent|, q.timeout);
      }
    }
  }
}
