/** What a windowed run computes, said without the machine.

    A run that starts at socket state `l0` and ends without error has sent one datagram
    for every sequence number of its plan. Each of them is settled by the first reply
    with its number that arrives between its send and its expiry, or is lost when there
    is none in the whole trace; nothing else that arrives has any effect. */
module EchoLaws {
  import opened Common
  import opened Socket
  import opened EchoMachine

  /** When arrival `j` is taken off the socket in a run that started at `start`. */
  function Taken(w: World, start: int, j: nat): int
    requires j < |w.inbox|
  {
    Max(start, w.inbox[j].at)
  }

  predicate Bears(w: World, j: nat, seqno: nat) {
    j < |w.inbox| && w.inbox[j].Datagram? && w.inbox[j].seqno == seqno
  }

  /** Arrival `j` bears the number of datagram `x`, after its send and before its expiry. */
  predicate Answers(w: World, e: Echo, start: int, x: Sent, j: nat) {
    && x.cursor <= j && Bears(w, j, x.seqno)
    && (e.timeout > 0 ==> Taken(w, start, j) <= x.at + e.timeout)
  }

  ghost predicate Unanswered(w: World, e: Echo, start: int, x: Sent) {
    forall j: nat :: !Answers(w, e, start, x, j)
  }

  /** No arrival before `hi` bears the number of `x` since its send. */
  ghost predicate Quiet(w: World, x: Sent, hi: nat) {
    forall i: nat :: x.cursor <= i < hi ==> !Bears(w, i, x.seqno)
  }

  ghost predicate Settles(w: World, e: Echo, start: int, x: Sent, j: nat) {
    Answers(w, e, start, x, j) && Quiet(w, x, j)
  }

  /** The round trip that arrival `j` contributes, given the datagrams sent. */
  ghost function Gain(w: World, e: Echo, start: int, sends: seq<Sent>, j: nat): seq<int>
    requires j < |w.inbox|
  {
    var k := if w.inbox[j].Datagram? then w.inbox[j].seqno - e.base else -1;
    if 0 <= k < |sends| && Settles(w, e, start, sends[k], j)
    then [Taken(w, start, j) - sends[k].at] else []
  }

  /** The round trips that arrivals `lo..hi` contribute, in order of arrival. */
  ghost function RoundTrips(w: World, e: Echo, start: int, sends: seq<Sent>, lo: nat, hi: nat): seq<int>
    requires hi <= |w.inbox|
  {
    if hi <= lo then [] else RoundTrips(w, e, start, sends, lo, hi - 1) + Gain(w, e, start, sends, hi - 1)
  }

  // --- The invariant: `sends` is what the run has added to the write log so far -----

  ghost predicate Logged(e: Echo, l0: Line, sends: seq<Sent>, f: Flight) {
    && l0.now <= f.line.now && l0.cursor <= f.line.cursor
    && f.line.sent == l0.sent + sends && f.next == e.base + |sends|
    && (forall k :: 0 <= k < |sends| ==> Entry(e, l0, f.line, sends[k], k))
    && (forall s :: s in f.pending ==> e.base <= s < e.base + |sends| && f.pending[s] == sends[s - e.base].at)
  }

  /** The `k`-th datagram of a run, as the write log has it. */
  ghost predicate Entry(e: Echo, l0: Line, l: Line, x: Sent, k: nat) {
    && x.seqno == e.base + k && x.size == e.size
    && l0.cursor <= x.cursor <= l.cursor && l0.now <= x.at <= l.now
  }

  /** The run never lags behind the network. */
  ghost predicate Prompt(w: World, l0: Line, l: Line) {
    l.cursor < |w.inbox| ==> l.now <= Taken(w, l0.now, l.cursor)
  }

  /** The `k`-th datagram of the run is pending. */
  predicate Outstanding(e: Echo, pending: map<nat, int>, k: int) {
    e.base + k in pending
  }

  ghost predicate Settled(w: World, e: Echo, start: int, x: Sent, hi: nat) {
    exists j: nat :: j < hi && Settles(w, e, start, x, j)
  }

  /** Pending datagrams have had no reply; the others had one or never get one. */
  ghost predicate Accounted(w: World, e: Echo, start: int, sends: seq<Sent>, pending: map<nat, int>, hi: nat) {
    forall k :: 0 <= k < |sends| ==>
      if Outstanding(e, pending, k) then Quiet(w, sends[k], hi)
      else Settled(w, e, start, sends[k], hi) || Unanswered(w, e, start, sends[k])
  }

  /** The datagrams, by position, that are no longer pending and have no reply. */
  ghost function Losses(w: World, e: Echo, start: int, sends: seq<Sent>, pending: map<nat, int>): set<int> {
    set k: int | 0 <= k < |sends| && !Outstanding(e, pending, k) && Unanswered(w, e, start, sends[k])
  }

  ghost predicate Tallied(w: World, e: Echo, l0: Line, sends: seq<Sent>, f: Flight) {
    && f.line.cursor <= |w.inbox|
    && f.rtt == RoundTrips(w, e, l0.now, sends, l0.cursor, f.line.cursor)
    && f.lost == |Losses(w, e, l0.now, sends, f.pending)|
    && |f.rtt| + f.lost + |f.pending| == |sends|
  }

  ghost predicate Inv(w: World, e: Echo, l0: Line, sends: seq<Sent>, f: Flight) {
    && Ready(w, e, f)
    && Logged(e, l0, sends, f)
    && Prompt(w, l0, f.line)
    && Accounted(w, e, l0.now, sends, f.pending, f.line.cursor)
    && Tallied(w, e, l0, sends, f)
  }

  lemma {:induction false} StartInv(w: World, e: Echo, l0: Line)
    requires w.InOrder() && e.WellFormed() && l0.cursor <= |w.inbox|
    ensures Inv(w, e, l0, [], Start(e, l0))
  {
    assert Losses(w, e, l0.now, [], map[]) == {};
  }

  // --- Sending ---------------------------------------------------------------------

  /** A datagram not yet sent gains nothing from what has already arrived. */
  lemma {:induction false} SendingIsNoGain(w: World, e: Echo, start: int, sends: seq<Sent>, x: Sent, lo: nat, hi: nat)
    requires hi <= x.cursor && hi <= |w.inbox|
    ensures RoundTrips(w, e, start, sends + [x], lo, hi) == RoundTrips(w, e, start, sends, lo, hi)
  {
    if lo < hi {
      SendingIsNoGain(w, e, start, sends, x, lo, hi - 1);
    }
  }

  lemma {:induction false} SendLogged(w: World, e: Echo, l0: Line, sends: seq<Sent>, f: Flight)
    requires Ready(w, e, f) && Logged(e, l0, sends, f) && SendOne(w, e, f).On?
    ensures Logged(e, l0, sends + [Sent(PEER, f.next, e.size, f.line.now, f.line.cursor)], SendOne(w, e, f).flight)
  {
    var g := SendOne(w, e, f).flight;
    var x := Sent(PEER, f.next, e.size, f.line.now, f.line.cursor);
    assert (l0.sent + sends) + [x] == l0.sent + (sends + [x]);
    forall k | 0 <= k < |sends + [x]|
      ensures Entry(e, l0, g.line, (sends + [x])[k], k)
    {
      if k < |sends| {
        assert Entry(e, l0, f.line, sends[k], k);
      }
    }
  }

  lemma {:induction false} SendAccounted(w: World, e: Echo, start: int, sends: seq<Sent>, pending: map<nat, int>, hi: nat, x: Sent, t: int)
    requires Accounted(w, e, start, sends, pending, hi)
    requires x.cursor == hi && e.base + |sends| !in pending
    ensures Accounted(w, e, start, sends + [x], pending[e.base + |sends| := t], hi)
    ensures Losses(w, e, start, sends + [x], pending[e.base + |sends| := t]) == Losses(w, e, start, sends, pending)
  {
    var after := pending[e.base + |sends| := t];
    assert Outstanding(e, after, |sends|);
    assert Quiet(w, x, hi);
  }

  lemma {:induction false} SendInv(w: World, e: Echo, l0: Line, sends: seq<Sent>, f: Flight)
    requires Inv(w, e, l0, sends, f) && MaySend(e, f) && |f.pending| < e.window
    requires SendOne(w, e, f).On?
    ensures Inv(w, e, l0, sends + [Sent(PEER, f.next, e.size, f.line.now, f.line.cursor)], SendOne(w, e, f).flight)
  {
    hide Accounted, Losses, RoundTrips;
    AdvanceReady(w, e, f);
    SendLogged(w, e, l0, sends, f);
    var x := Sent(PEER, f.next, e.size, f.line.now, f.line.cursor);
    SendAccounted(w, e, l0.now, sends, f.pending, f.line.cursor, x, f.line.now);
    SendingIsNoGain(w, e, l0.now, sends, x, l0.cursor, f.line.cursor);
  }

  // --- Reading ---------------------------------------------------------------------

  predicate IsReply(r: Reply, s: nat, size: nat) {
    r.Got? && r.seqno == s && r.size == size
  }

  /** A windowed read never outlasts a pending datagram, and never starts late unless
      the context is done. */
  lemma ReadBounds(w: World, e: Echo, f: Flight)
    requires Ready(w, e, f) && f.pending != map[]
    ensures var d := ReadDeadline(w.ctx, f.line.now, f.pending, e.timeout);
            && (e.timeout > 0 ==> forall s :: s in f.pending ==> d <= f.pending[s] + e.timeout)
            && (e.timeout > 0 && d < f.line.now ==> w.ctx.Done(f.line.now))
  {}

  lemma TakenNow(w: World, l0: Line, l: Line, d: int)
    requires l.cursor <= |w.inbox| && w.InOrder() && Prompt(w, l0, l) && l0.now <= l.now
    requires !Receive(w, l, d).0.TimedOut?
    ensures Receive(w, l, d).1.now == Taken(w, l0.now, l.cursor)
    ensures Prompt(w, l0, Receive(w, l, d).1)
  {}

  /** What one more arrival does to the account of the datagrams. */
  lemma {:induction false} ArrivalAccounted(w: World, e: Echo, start: int, sends: seq<Sent>, pending: map<nat, int>, j: nat, s: nat)
    requires Accounted(w, e, start, sends, pending, j) && j < |w.inbox| && Bears(w, j, s)
    requires forall k :: 0 <= k < |sends| ==> sends[k].seqno == e.base + k
    requires s in pending ==> e.base <= s < e.base + |sends| && Answers(w, e, start, sends[s - e.base], j)
    ensures Accounted(w, e, start, sends, pending - {s}, j + 1)
  {
    forall k | 0 <= k < |sends|
      ensures if Outstanding(e, pending - {s}, k) then Quiet(w, sends[k], j + 1)
              else Settled(w, e, start, sends[k], j + 1) || Unanswered(w, e, start, sends[k])
    {
      if e.base + k == s && s in pending {
        assert Settles(w, e, start, sends[k], j);
      } else if !Outstanding(e, pending, k) && Settled(w, e, start, sends[k], j) {
        var i: nat :| i < j && Settles(w, e, start, sends[k], i);
        assert i < j + 1 && Settles(w, e, start, sends[k], i);
      }
    }
  }

  lemma MatchLosses(w: World, e: Echo, start: int, sends: seq<Sent>, pending: map<nat, int>, j: nat, s: nat)
    requires s in pending ==> e.base <= s < e.base + |sends| && Answers(w, e, start, sends[s - e.base], j)
    ensures Losses(w, e, start, sends, pending - {s}) == Losses(w, e, start, sends, pending)
  {}

  lemma {:induction false} MatchGain(w: World, e: Echo, start: int, sends: seq<Sent>, pending: map<nat, int>, j: nat, s: nat)
    requires Accounted(w, e, start, sends, pending, j) && j < |w.inbox| && Bears(w, j, s)
    requires s in pending && e.base <= s < e.base + |sends| && Answers(w, e, start, sends[s - e.base], j)
    requires sends[s - e.base].seqno == s
    ensures Gain(w, e, start, sends, j) == [Taken(w, start, j) - sends[s - e.base].at]
  {
    assert Outstanding(e, pending, s - e.base);
  }

  lemma {:induction false} StrayGain(w: World, e: Echo, start: int, sends: seq<Sent>, pending: map<nat, int>, j: nat, s: nat)
    requires Accounted(w, e, start, sends, pending, j) && j < |w.inbox| && Bears(w, j, s)
    requires s !in pending
    requires forall k :: 0 <= k < |sends| ==> sends[k].seqno == e.base + k
    ensures Gain(w, e, start, sends, j) == []
  {
    var k := s - e.base;
    if 0 <= k < |sends| {
      assert !Outstanding(e, pending, k);
      if Settled(w, e, start, sends[k], j) {
        var i: nat :| i < j && Settles(w, e, start, sends[k], i);
        assert Bears(w, i, s);
      } else {
        assert !Answers(w, e, start, sends[k], j);
      }
    }
  }

  lemma {:induction false} ReadLogged(e: Echo, l0: Line, sends: seq<Sent>, f: Flight, g: Flight)
    requires Logged(e, l0, sends, f)
    requires g.line.sent == f.line.sent && g.next == f.next
    requires f.line.now <= g.line.now && f.line.cursor <= g.line.cursor
    requires forall s :: s in g.pending ==> s in f.pending && g.pending[s] == f.pending[s]
    ensures Logged(e, l0, sends, g)
  {
    forall k | 0 <= k < |sends|
      ensures Entry(e, l0, g.line, sends[k], k)
    {
      assert Entry(e, l0, f.line, sends[k], k);
    }
  }

  /** The state after a reply of the right size. */
  function AfterGot(f: Flight, l: Line, s: nat): Flight {
    if s in f.pending then f.(line := l, pending := f.pending - {s}, rtt := f.rtt + [l.now - f.pending[s]])
    else f.(line := l)
  }

  lemma {:induction false} GotInv(w: World, e: Echo, l0: Line, sends: seq<Sent>, f: Flight, s: nat)
    requires Inv(w, e, l0, sends, f) && f.pending != map[]
    requires IsReply(Receive(w, f.line, ReadDeadline(w.ctx, f.line.now, f.pending, e.timeout)).0, s, e.size)
    ensures Inv(w, e, l0, sends, ReadOne(w, e, f).flight)
  {
    hide Accounted, Losses, Quiet, Unanswered, Settles, Gain, Tallied, RoundTrips, Entry, IsOldest;
    var d := ReadDeadline(w.ctx, f.line.now, f.pending, e.timeout);
    var l := Receive(w, f.line, d).1;
    var j := f.line.cursor;
    var g := AfterGot(f, l, s);
    assert ReadOne(w, e, f) == On(g);
    ReadBounds(w, e, f);
    TakenNow(w, l0, f.line, d);
    ReadReady(w, e, f);
    ReadLogged(e, l0, sends, f, g);
    GotFacts(w, e, l0, sends, f, s, d);
    ArrivalAccounted(w, e, l0.now, sends, f.pending, j, s);
    if s !in f.pending {
      assert f.pending - {s} == f.pending;
    }
    GotTallied(w, e, l0, sends, f, s);
  }

  lemma {:induction false} GotFacts(w: World, e: Echo, l0: Line, sends: seq<Sent>, f: Flight, s: nat, d: int)
    requires Logged(e, l0, sends, f) && f.line.cursor <= |w.inbox|
    requires IsReply(Receive(w, f.line, d).0, s, e.size)
    requires Receive(w, f.line, d).1.now == Taken(w, l0.now, f.line.cursor)
    requires e.timeout > 0 ==> forall s :: s in f.pending ==> d <= f.pending[s] + e.timeout
    requires e.timeout > 0 ==> forall s :: s in f.pending ==> f.line.now <= f.pending[s] + e.timeout
    ensures l0.cursor <= f.line.cursor && Bears(w, f.line.cursor, s)
    ensures forall k :: 0 <= k < |sends| ==> sends[k].seqno == e.base + k
    ensures s in f.pending ==>
      && e.base <= s < e.base + |sends| && Answers(w, e, l0.now, sends[s - e.base], f.line.cursor)
      && sends[s - e.base].at == f.pending[s]
  {
    forall k | 0 <= k < |sends|
      ensures sends[k].seqno == e.base + k
    {
      assert Entry(e, l0, f.line, sends[k], k);
    }
    if s in f.pending {
      assert Entry(e, l0, f.line, sends[s - e.base], s - e.base);
    }
  }

  lemma {:induction false} GotTallied(w: World, e: Echo, l0: Line, sends: seq<Sent>, f: Flight, s: nat)
    requires f.line.cursor < |w.inbox| && Tallied(w, e, l0, sends, f) && Bears(w, f.line.cursor, s)
    requires l0.cursor <= f.line.cursor
    requires Accounted(w, e, l0.now, sends, f.pending, f.line.cursor)
    requires forall k :: 0 <= k < |sends| ==> sends[k].seqno == e.base + k
    requires s in f.pending ==>
      && e.base <= s < e.base + |sends| && Answers(w, e, l0.now, sends[s - e.base], f.line.cursor)
      && sends[s - e.base].at == f.pending[s]
    ensures var l := Line(Taken(w, l0.now, f.line.cursor), f.line.cursor + 1, f.line.sent);
            Tallied(w, e, l0, sends, AfterGot(f, l, s))
  {
    hide Accounted, Losses, Settles, Gain;
    MatchLosses(w, e, l0.now, sends, f.pending, f.line.cursor, s);
    if s in f.pending {
      MatchGain(w, e, l0.now, sends, f.pending, f.line.cursor, s);
    } else {
      StrayGain(w, e, l0.now, sends, f.pending, f.line.cursor, s);
      assert f.pending - {s} == f.pending;
    }
  }

  lemma ReadReady(w: World, e: Echo, f: Flight)
    requires Ready(w, e, f) && f.pending != map[] && ReadOne(w, e, f).On?
    ensures Ready(w, e, ReadOne(w, e, f).flight)
  {
    var g := ReadOne(w, e, f).flight;
    if e.timeout > 0 {
      SurvivorsFewer(f.pending, g.line.now, e.timeout);
    }
  }

  // --- Expiry ----------------------------------------------------------------------

  /** A pending datagram that has expired, with the next arrival still to come, has no reply. */
  lemma {:induction false} ExpiredUnanswered(w: World, e: Echo, start: int, x: Sent, hi: nat, now: int)
    requires w.InOrder() && e.timeout > 0 && Quiet(w, x, hi)
    requires x.at + e.timeout <= now
    requires hi < |w.inbox| ==> now < w.inbox[hi].at
    ensures Unanswered(w, e, start, x)
  {
    forall j: nat
      ensures !Answers(w, e, start, x, j)
    {
      if hi <= j < |w.inbox| {
        assert w.inbox[hi].at <= w.inbox[j].at;
      }
    }
  }

  lemma {:induction false} ExpiryAccounted(w: World, e: Echo, start: int, sends: seq<Sent>, pending: map<nat, int>, hi: nat, now: int)
    requires Accounted(w, e, start, sends, pending, hi)
    requires w.InOrder() && e.timeout > 0
    requires hi < |w.inbox| ==> now < w.inbox[hi].at
    requires forall s :: s in pending ==> e.base <= s < e.base + |sends| && pending[s] == sends[s - e.base].at
    ensures Accounted(w, e, start, sends, Survivors(pending, now, e.timeout), hi)
    ensures |Losses(w, e, start, sends, Survivors(pending, now, e.timeout))|
            == |Losses(w, e, start, sends, pending)| + |pending| - |Survivors(pending, now, e.timeout)|
  {
    hide Accounted, Quiet, Unanswered, Settled, Losses;
    var left := Survivors(pending, now, e.timeout);
    ExpiredGone(w, e, start, sends, pending, hi, now);
    var gone := set k: int | 0 <= k < |sends| && Outstanding(e, pending, k) && !Outstanding(e, left, k);
    LossesGrow(w, e, start, sends, pending, left, gone);
    GoneCount(e, |sends|, pending, left, gone);
  }

  lemma {:induction false} ExpiredGone(w: World, e: Echo, start: int, sends: seq<Sent>, pending: map<nat, int>, hi: nat, now: int)
    requires Accounted(w, e, start, sends, pending, hi)
    requires w.InOrder() && e.timeout > 0
    requires hi < |w.inbox| ==> now < w.inbox[hi].at
    requires forall s :: s in pending ==> e.base <= s < e.base + |sends| && pending[s] == sends[s - e.base].at
    ensures var left := Survivors(pending, now, e.timeout);
            && (forall k :: Outstanding(e, left, k) ==> Outstanding(e, pending, k))
            && (forall k :: 0 <= k < |sends| && Outstanding(e, pending, k) && !Outstanding(e, left, k) ==>
                  Unanswered(w, e, start, sends[k]))
            && Accounted(w, e, start, sends, left, hi)
  {
    hide Quiet, Unanswered, Settled;
    var left := Survivors(pending, now, e.timeout);
    forall k | 0 <= k < |sends| && Outstanding(e, pending, k) && !Outstanding(e, left, k)
      ensures Unanswered(w, e, start, sends[k])
    {
      assert pending[e.base + k] == sends[k].at;
      ExpiredUnanswered(w, e, start, sends[k], hi, now);
    }
    forall k | Outstanding(e, left, k)
      ensures Outstanding(e, pending, k)
    {}
  }

  lemma LossesGrow(w: World, e: Echo, start: int, sends: seq<Sent>, pending: map<nat, int>, left: map<nat, int>, gone: set<int>)
    requires forall k :: k in gone <==> 0 <= k < |sends| && Outstanding(e, pending, k) && !Outstanding(e, left, k)
    requires forall k :: Outstanding(e, left, k) ==> Outstanding(e, pending, k)
    requires forall k :: k in gone ==> Unanswered(w, e, start, sends[k])
    ensures |Losses(w, e, start, sends, left)| == |Losses(w, e, start, sends, pending)| + |gone|
  {
    hide Outstanding, Unanswered;
    assert Losses(w, e, start, sends, left) == Losses(w, e, start, sends, pending) + gone;
    assert Losses(w, e, start, sends, pending) !! gone;
  }

  lemma GoneCount(e: Echo, n: nat, before: map<nat, int>, after: map<nat, int>, gone: set<int>)
    requires forall s :: s in after ==> s in before
    requires forall s :: s in before ==> e.base <= s < e.base + n
    requires forall k :: k in gone <==> 0 <= k < n && Outstanding(e, before, k) && !Outstanding(e, after, k)
    ensures |gone| == |before| - |after|
  {
    if k: int :| k in gone {
      var fewer := before - {e.base + k};
      assert |fewer| == |before| - 1;
      forall i | 0 <= i < n
        ensures Outstanding(e, fewer, i) <==> Outstanding(e, before, i) && i != k
      {}
      GoneCount(e, n, fewer, after, gone - {k});
    } else {
      forall s | s in before
        ensures s in after
      {
        assert Outstanding(e, before, s - e.base);
        assert s - e.base !in gone;
      }
      assert before.Keys == after.Keys;
      assert forall k: int :: k !in gone;
      assert gone == {};
    }
  }

  lemma TimeoutInv(w: World, e: Echo, l0: Line, sends: seq<Sent>, f: Flight)
    requires Inv(w, e, l0, sends, f) && f.pending != map[]
    requires ReadOne(w, e, f).On?
    requires Receive(w, f.line, ReadDeadline(w.ctx, f.line.now, f.pending, e.timeout)).0.TimedOut?
    ensures Inv(w, e, l0, sends, ReadOne(w, e, f).flight)
  {
    hide Accounted, Losses, Quiet, Unanswered, Settles, RoundTrips, IsOldest, Entry;
    ReadReady(w, e, f);
    ReadBounds(w, e, f);
    TimeoutExpires(w, e, f);
    var g := ReadOne(w, e, f).flight;
    ReadLogged(e, l0, sends, f, g);
    ExpiryAccounted(w, e, l0.now, sends, f.pending, f.line.cursor, g.line.now);
  }

  // --- The run ---------------------------------------------------------------------

  /** The datagrams of this run: what the write log gained since `l0`. */
  function Mine(l0: Line, l: Line): seq<Sent> {
    if |l0.sent| <= |l.sent| then l.sent[|l0.sent|..] else []
  }

  lemma {:induction false} AdvanceInv(w: World, e: Echo, l0: Line, f: Flight)
    requires Inv(w, e, l0, Mine(l0, f.line), f)
    requires Advance(w, e, f).On?
    ensures var g := Advance(w, e, f).flight;
            Inv(w, e, l0, Mine(l0, g.line), g)
  {
    hide Accounted, Tallied, Prompt, IsOldest;
    var g := Advance(w, e, f).flight;
    var sends := Mine(l0, f.line);
    if MaySend(e, f) && |f.pending| < e.window {
      SendInv(w, e, l0, sends, f);
      assert Mine(l0, g.line) == sends + [Sent(PEER, f.next, e.size, f.line.now, f.line.cursor)];
    } else {
      match Receive(w, f.line, ReadDeadline(w.ctx, f.line.now, f.pending, e.timeout)).0 {
        case TimedOut => TimeoutInv(w, e, l0, sends, f);
        case Got(_, s, n) => GotInv(w, e, l0, sends, f, s);
      }
    }
  }

  lemma {:induction false} ReachInv(w: World, e: Echo, l0: Line, n: nat)
    requires w.InOrder() && e.WellFormed() && l0.cursor <= |w.inbox|
    requires Reach(w, e, Start(e, l0), n).Some?
    ensures var f := Reach(w, e, Start(e, l0), n).value;
            Inv(w, e, l0, Mine(l0, f.line), f)
  {
    hide Inv;
    if n == 0 {
      StartInv(w, e, l0);
      assert Mine(l0, l0) == [];
    } else {
      ReachInv(w, e, l0, n - 1);
      AdvanceInv(w, e, l0, Reach(w, e, Start(e, l0), n - 1).value);
    }
  }

  // --- The main results ------------------------------------------------------------

  /** The window is never exceeded, and at every step of every run the datagrams sent so
      far are exactly divided between round trips, losses and pending ones. */
  lemma {:induction false} NoStepLosesCount(w: World, e: Echo, l0: Line, n: nat)
    requires w.InOrder() && e.WellFormed() && l0.cursor <= |w.inbox|
    ensures var r := Reach(w, e, Start(e, l0), n);
            r.Some? ==>
              && |r.value.pending| <= e.window
              && |r.value.line.sent| - |l0.sent| == |r.value.rtt| + r.value.lost + |r.value.pending|
  {
    if Reach(w, e, Start(e, l0), n).Some? {
      ReachInv(w, e, l0, n);
    }
  }

  /** A run that ends without error has done what the trace says: see the head of the module. */
  ghost predicate Faithful(w: World, e: Echo, l0: Line, sends: seq<Sent>, f: Flight) {
    && f.line.sent == l0.sent + sends
    && (e.plan.Count? ==> |sends| == e.plan.limit - e.base)
    && (forall k :: 0 <= k < |sends| ==> sends[k].seqno == e.base + k && sends[k].size == e.size)
    && f.rtt == RoundTrips(w, e, l0.now, sends, l0.cursor, |w.inbox|)
    && f.lost == |set k: nat | k < |sends| && Unanswered(w, e, l0.now, sends[k])|
    && |f.rtt| + f.lost == |sends|
  }

  lemma {:induction false} RunIsFaithful(w: World, e: Echo, l0: Line)
    requires w.InOrder() && e.WellFormed() && l0.cursor <= |w.inbox|
    requires Run(w, e, Start(e, l0)).Finished?
    ensures var f := Run(w, e, Start(e, l0)).flight;
            Faithful(w, e, l0, Mine(l0, f.line), f)
  {
    var n := RunReaches(w, e, Start(e, l0));
    ReachInv(w, e, l0, n);
    var f := Run(w, e, Start(e, l0)).flight;
    FinalFaithful(w, e, l0, Mine(l0, f.line), f);
  }

  /** The end of a run, datagram by datagram. */
  lemma {:induction false} FinalState(w: World, e: Echo, l0: Line)
    requires w.InOrder() && e.WellFormed() && l0.cursor <= |w.inbox|
    requires WindowRun(w, e, l0).Finished?
    ensures var f := WindowRun(w, e, l0).flight;
            var sends := Mine(l0, f.line);
            && f.line.sent == l0.sent + sends && l0.cursor <= f.line.cursor <= |w.inbox|
            && forall k :: 0 <= k < |sends| ==> Concluded(w, e, l0, f.line, sends[k], k)
  {
    hide Tallied, Prompt, Ready, Unanswered, Settled, Quiet, Entry;
    StartReady(w, e, l0);
    var n := RunReaches(w, e, Start(e, l0));
    ReachInv(w, e, l0, n);
  }

  /** Datagram `k` of a finished run: as logged, and settled by then or never answered. */
  ghost predicate Concluded(w: World, e: Echo, l0: Line, l: Line, x: Sent, k: nat) {
    Entry(e, l0, l, x, k) && (Settled(w, e, l0.now, x, l.cursor) || Unanswered(w, e, l0.now, x))
  }

  lemma FinalFaithful(w: World, e: Echo, l0: Line, sends: seq<Sent>, f: Flight)
    requires Inv(w, e, l0, sends, f) && f.pending == map[] && !MaySend(e, f)
    ensures Faithful(w, e, l0, sends, f)
  {
    hide Unanswered, Quiet, RoundTrips;
    forall k | 0 <= k < |sends|
      ensures sends[k].seqno == e.base + k && sends[k].size == e.size
      ensures !Outstanding(e, f.pending, k)
    {
      assert Entry(e, l0, f.line, sends[k], k);
    }
    NothingLeftToGain(w, e, l0.now, sends, l0.cursor, f.line.cursor, |w.inbox|);
    LossesByPosition(w, e, l0.now, sends, f.pending, |sends|);
  }

  /** Once everything is resolved, no later arrival counts. */
  lemma {:induction false} NothingLeftToGain(w: World, e: Echo, start: int, sends: seq<Sent>, lo: nat, mid: nat, hi: nat)
    requires Accounted(w, e, start, sends, map[], mid) && lo <= mid <= hi <= |w.inbox|
    requires forall k :: 0 <= k < |sends| ==> sends[k].seqno == e.base + k
    ensures RoundTrips(w, e, start, sends, lo, hi) == RoundTrips(w, e, start, sends, lo, mid)
  {
    if mid < hi {
      NothingLeftToGain(w, e, start, sends, lo, mid, hi - 1);
      if w.inbox[hi - 1].Datagram? {
        StillAccounted(w, e, start, sends, mid, hi - 1);
        StrayGain(w, e, start, sends, map[], hi - 1, w.inbox[hi - 1].seqno);
      }
    }
  }

  lemma {:induction false} StillAccounted(w: World, e: Echo, start: int, sends: seq<Sent>, mid: nat, hi: nat)
    requires Accounted(w, e, start, sends, map[], mid) && mid <= hi
    ensures Accounted(w, e, start, sends, map[], hi)
  {
    hide Unanswered, Settles;
    forall k | 0 <= k < |sends|
      ensures Settled(w, e, start, sends[k], hi) || Unanswered(w, e, start, sends[k])
    {
      assert !Outstanding(e, map[], k);
      if Settled(w, e, start, sends[k], mid) {
        var i: nat :| i < mid && Settles(w, e, start, sends[k], i);
        assert i < hi && Settles(w, e, start, sends[k], i);
      }
    }
  }

  lemma LossesByPosition(w: World, e: Echo, start: int, sends: seq<Sent>, pending: map<nat, int>, n: nat)
    requires n <= |sends| && forall k :: 0 <= k < |sends| ==> !Outstanding(e, pending, k)
    ensures |Losses(w, e, start, sends, pending)| == |set k: nat | k < |sends| && Unanswered(w, e, start, sends[k])|
  {
    hide Unanswered, Outstanding;
    var a := Losses(w, e, start, sends, pending);
    var b := set k: nat | k < |sends| && Unanswered(w, e, start, sends[k]);
    SameCard(b, a);
  }

  lemma SameCard(a: set<nat>, b: set<int>)
    requires forall k: int :: k in b <==> k >= 0 && k in a
    ensures |a| == |b|
  {
    if k: nat :| k in a {
      SameCard(a - {k}, b - {k});
    } else {
      assert forall k: int :: k !in b;
      assert b == {};
      assert a == {};
    }
  }

  /** No datagram is resolved twice: one arrival settles it, or none answers it. */
  lemma {:induction false} ResolvedOnce(w: World, e: Echo, start: int, x: Sent, i: nat, j: nat)
    requires Settles(w, e, start, x, i)
    ensures Settles(w, e, start, x, j) ==> i == j
    ensures !Unanswered(w, e, start, x)
  {
    if Settles(w, e, start, x, j) {
      assert Bears(w, i, x.seqno) && Bears(w, j, x.seqno);
    }
  }
}
