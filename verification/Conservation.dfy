/** Both ends of a measurement: what the senders write and match, what the peer counts. */
module Conservation {
  import opened Common
  import opened Socket
  import opened EchoMachine
  import opened Perf
  import opened Listener
  import opened EchoLaws
  import opened OnTime

  // --- The number the peer is told to expect ---------------------------------------

  const TWO63: int := 0x8000_0000_0000_0000

  /** The value of an integer computation in the 64 bits that hold it. */
  function Int64(x: int): int {
    (x + TWO63) % (2 * TWO63) - TWO63
  }

  datatype ExpectedError = CountNotPositive | WarmupNegative | TrialsNotPositive | StreamsNotPositive

  function UdpPerfExpected(count: int, warmup: int, trials: int, streams: int, duration: int): Result<int, ExpectedError> {
    if duration > 0 then Ok(0)
    else if count <= 0 then Err(CountNotPositive)
    else if warmup < 0 then Err(WarmupNegative)
    else if trials <= 0 then Err(TrialsNotPositive)
    else if streams <= 0 then Err(StreamsNotPositive)
    else Ok(Int64(Int64(Int64(count + warmup) * trials) * streams))
  }

  lemma Int64Small(x: int)
    requires 0 <= x < TWO63
    ensures Int64(x) == x
  {}

  lemma ProductGrows(a: int, b: int)
    requires a >= 0 && b > 0
    ensures a <= a * b
  {}

  lemma Int64Wraps(x: int) returns (k: int)
    ensures Int64(x) == x - k * (2 * TWO63) && -TWO63 <= Int64(x) < TWO63
  {
    k := (x + TWO63) / (2 * TWO63);
  }

  lemma Distribute(a: int, k: int, m: int, b: int)
    ensures (a - k * m) * b == a * b - (k * b) * m
  {
    assert (a - k * m) * b == a * b - (k * m) * b;
    assert (k * m) * b == (k * b) * m;
  }

  /** A run by duration expects no number. Otherwise it is an error, and which, to have nothing
      to send; and the number is the product, less some multiple of 2^64, as 64 bits hold it. */
  lemma ExpectedCases(count: int, warmup: int, trials: int, streams: int, duration: int)
    ensures var r := UdpPerfExpected(count, warmup, trials, streams, duration);
            && (duration > 0 ==> r == Ok(0))
            && (r == Err(CountNotPositive) <==> duration <= 0 && count <= 0)
            && (r == Err(WarmupNegative) <==> duration <= 0 && count > 0 && warmup < 0)
            && (r == Err(TrialsNotPositive) <==> duration <= 0 && count > 0 && warmup >= 0 && trials <= 0)
            && (r == Err(StreamsNotPositive) <==> duration <= 0 && count > 0 && warmup >= 0 && trials > 0 && streams <= 0)
            && (r.Ok? && duration <= 0 ==>
                  && -0x8000_0000_0000_0000 <= r.value < 0x8000_0000_0000_0000
                  && exists k :: r.value == (count + warmup) * trials * streams - k * 0x1_0000_0000_0000_0000)
  {
    hide Int64;
    if UdpPerfExpected(count, warmup, trials, streams, duration).Ok? && duration <= 0 {
      ExpectedWraps(count + warmup, trials, streams);
    }
  }

  lemma ExpectedWraps(a: int, trials: int, streams: int)
    ensures var n := Int64(Int64(Int64(a) * trials) * streams);
            && -TWO63 <= n < TWO63
            && exists k :: n == a * trials * streams - k * (2 * TWO63)
  {
    hide Int64;
    var m := 2 * TWO63;
    var k1 := Int64Wraps(a);
    var b := Int64(a) * trials;
    Distribute(a, k1, m, trials);
    var k2 := Int64Wraps(b);
    var c := Int64(b) * streams;
    Distribute(b, k2, m, streams);
    Distribute(a * trials, k1 * trials, m, streams);
    var k3 := Int64Wraps(c);
    var k := k1 * trials * streams + k2 * streams + k3;
    assert k * m == (k1 * trials * streams) * m + (k2 * streams) * m + k3 * m;
    assert Int64(c) == a * trials * streams - k * m;
  }

  /** The expected number is the true product exactly when that fits in 63 bits. */
  lemma ExpectedExact(count: int, warmup: int, trials: int, streams: int)
    requires count > 0 && warmup >= 0 && trials > 0 && streams > 0
    ensures UdpPerfExpected(count, warmup, trials, streams, 0) == Ok((count + warmup) * trials * streams)
       <==> (count + warmup) * trials * streams < TWO63
  {
    var a := count + warmup;
    var b := a * trials;
    ProductGrows(a, trials);
    ProductGrows(b, streams);
    if b * streams < TWO63 {
      Int64Small(a);
      Int64Small(b);
      Int64Small(b * streams);
    }
  }

  // --- Trials on one socket --------------------------------------------------------

  datatype Progress = Progress(line: Line, matched: nat) | Aborted

  /** The trials of one stream, one after the other on the same socket. Trial `i` starts at
      `starts[i]`, or later if the one before it is not over. */
  ghost function Trials(w: World, q: Request, l: Line, starts: seq<int>): Progress
    requires w.InOrder() && l.cursor <= |w.inbox|
  {
    if starts == [] then Progress(l, 0)
    else
      var n := |starts| - 1;
      match Trials(w, q, l, starts[..n])
      case Aborted => Aborted
      case Progress(l1, matched) =>
        if l1.cursor > |w.inbox| then Aborted
        else
          match Measure(w, q, l1.(now := Max(l1.now, starts[n])))
          case Not(_, _) => Aborted
          case Done(r, l2, answered) => Progress(l2, matched + answered + |r.rtt|)
  }

  /** A stream that completes its trials has written exactly `count + warmup` datagrams for
      each, and matched no more replies than it took in, whichever trial they belong to. */
  lemma {:induction false} TrialsCount(w: World, q: Request, l: Line, starts: seq<int>)
    requires w.InOrder() && l.cursor <= |w.inbox| && q.duration <= 0
    ensures match Trials(w, q, l, starts)
            case Aborted => true
            case Progress(l', matched) =>
              && |l'.sent| == |l.sent| + |starts| * (q.count + q.warmup)
              && l'.cursor <= |w.inbox| && matched <= l'.cursor - l.cursor && Intact(w, l.cursor, l'.cursor)
              && matched <= |starts| * (q.count + q.warmup)
  {
    if starts != [] {
      var n := |starts| - 1;
      TrialsCount(w, q, l, starts[..n]);
      assert |starts| * (q.count + q.warmup) == n * (q.count + q.warmup) + (q.count + q.warmup);
      match Trials(w, q, l, starts[..n]) {
        case Aborted =>
        case Progress(l1, _) => MeasureCounts(w, q, l1.(now := Max(l1.now, starts[n])));
      }
    }
  }

  /** Over all trials as many replies are matched as datagrams have one in time. */
  lemma {:induction false} TrialsInTime(w: World, q: Request, l: Line, starts: seq<int>)
    requires w.InOrder() && l.cursor <= |w.inbox| && q.duration <= 0 && q.timeout > 0
    ensures match Trials(w, q, l, starts)
            case Aborted => true
            case Progress(l', matched) =>
              && |l.sent| <= |l'.sent| && l'.sent[..|l.sent|] == l.sent
              && matched == InTime(w, l'.sent, |l.sent|, |l'.sent|, q.timeout)
              && (matched == |starts| * (q.count + q.warmup) <==> AllInTime(w, l'.sent, |l.sent|, q.timeout))
  {
    hide RepliedInTime, Measure, InTime;
    TrialsCount(w, q, l, starts);
    if starts == [] {
      NoneInTime(w, l.sent, q.timeout);
    } else {
      var n := |starts| - 1;
      TrialsInTime(w, q, l, starts[..n]);
      TrialsCount(w, q, l, starts[..n]);
      match Trials(w, q, l, starts[..n]) {
        case Aborted =>
        case Progress(l1, _) =>
          var l2 := l1.(now := Max(l1.now, starts[n]));
          MeasureCounts(w, q, l2);
          MeasureInTime(w, q, l2);
          if Measure(w, q, l2).Done? {
            var sent := Measure(w, q, l2).line.sent;
            InTimeJoin(w, l1.sent, sent, |l.sent|, |sent|, q.timeout);
            InTimeAll(w, sent, |l.sent|, |sent|, q.timeout);
            assert sent[..|l.sent|] == l1.sent[..|l.sent|];
          }
      }
    }
  }

  lemma NoneInTime(w: World, sent: seq<Sent>, timeout: int)
    ensures InTime(w, sent, |sent|, |sent|, timeout) == 0
  {}

  /** One serial echo of eight bytes under a timeout of 5, as a whole measurement. */
  lemma OneEcho(w: World, l: Line, sent: seq<Sent>, a: Answer)
    requires w.InOrder() && l.cursor <= |w.inbox| && w.ctx == Context(None, None)
    requires |l.sent| !in w.writeFaults && sent == l.sent + [Sent(PEER, 0, 8, l.now, l.cursor)]
    requires a == Await(w, 8, l.(sent := sent), 0, l.now + 5) && !a.Broke?
    ensures Measure(w, Request(1, 8, 0, 1, 5, 0), l)
         == Done(PerfResult(1, 0, 8, 0, 1, 1, if a.Silent? then 1 else 0, a.line.now - l.now,
                            if a.Silent? then [] else [a.line.now - l.now]), a.line, 0)
  {
    var e := Echo(0, Count(1), 8, 1, 5);
    assert EchoOnce(w, 8, 5, l, 0) == a;
    var f := AfterEcho(Start(e, l), a);
    assert Serial(w, e, f) == Finished(f);
  }

  // --- The network between the two ends --------------------------------------------

  /** One stream of a run: its socket, and when its trials start. */
  datatype Stream = Stream(world: World, begin: int, starts: seq<int>)

  ghost predicate Completes(s: Stream, q: Request, trials: nat) {
    && s.world.InOrder() && |s.starts| == trials
    && Trials(s.world, q, Line(s.begin, 0, []), s.starts).Progress?
  }

  ghost function Final(s: Stream, q: Request): (p: Progress)
    requires s.world.InOrder()
  {
    Trials(s.world, q, Line(s.begin, 0, []), s.starts)
  }

  /** What travels: which stream it belongs to, its number and its size. */
  datatype Frame = Frame(stream: nat, seqno: nat, size: nat)

  function Requests(i: nat, sent: seq<Sent>): seq<Frame> {
    seq(|sent|, k requires 0 <= k < |sent| => Frame(i, sent[k].seqno, sent[k].size))
  }

  function FrameOf(i: nat, a: Arrival): Frame {
    match a
    case Datagram(_, _, s, n, _) => Frame(i, s, n)
    case Fault(_) => Frame(i, 0, 0)
  }

  /** The replies that stream `i` takes in. */
  function Replies(i: nat, w: World, cursor: nat): seq<Frame>
    requires cursor <= |w.inbox|
  {
    seq(cursor, k requires 0 <= k < cursor => FrameOf(i, w.inbox[k]))
  }

  function Heard(w: World, packets: nat): seq<Frame>
    requires packets <= |w.inbox|
  {
    seq(packets, k requires 0 <= k < packets =>
      FrameOf(match w.inbox[k] case Datagram(_, from, _, _, _) => from case Fault(_) => 0, w.inbox[k]))
  }

  /** The echoes that the peer writes to stream `i`. */
  function EchoesTo(i: nat, sent: seq<Sent>): seq<Frame> {
    if sent == [] then []
    else
      var x := sent[|sent| - 1];
      EchoesTo(i, sent[..|sent| - 1]) + (if x.to == i then [Frame(i, x.seqno, x.size)] else [])
  }

  ghost predicate AllComplete(streams: seq<Stream>, q: Request, trials: nat) {
    q.duration <= 0 && forall i :: 0 <= i < |streams| ==> Completes(streams[i], q, trials)
  }

  ghost function AllRequests(streams: seq<Stream>, q: Request, trials: nat): seq<Frame>
    requires AllComplete(streams, q, trials)
  {
    if streams == [] then []
    else
      var n := |streams| - 1;
      AllRequests(streams[..n], q, trials) + Requests(n, Final(streams[n], q).line.sent)
  }

  ghost function Matched(streams: seq<Stream>, q: Request, trials: nat): nat
    requires AllComplete(streams, q, trials)
  {
    if streams == [] then 0
    else
      var n := |streams| - 1;
      Matched(streams[..n], q, trials) + Final(streams[n], q).matched
  }

  /** The network may lose, delay and reorder; it does not duplicate. What the peer (with
      socket `w`, now in state `l`) has read was sent by a stream, as often; what a stream
      has taken in was echoed to it, as often. */
  ghost predicate NoDuplication(streams: seq<Stream>, q: Request, trials: nat, w: World, l: Line) {
    && AllComplete(streams, q, trials)
    && |l.sent| <= |w.inbox|
    && multiset(Heard(w, |l.sent|)) <= multiset(AllRequests(streams, q, trials))
    && (forall i :: 0 <= i < |streams| ==> TakesEchoes(streams[i], i, q, l.sent))
  }

  /** What stream `i` has taken in was echoed to it, as often. */
  ghost predicate TakesEchoes(s: Stream, i: nat, q: Request, sent: seq<Sent>) {
    && s.world.InOrder()
    && var p := Final(s, q);
       && p.Progress? && p.line.cursor <= |s.world.inbox|
       && multiset(Replies(i, s.world, p.line.cursor)) <= multiset(EchoesTo(i, sent))
  }

  lemma SubBag<T>(a: seq<T>, b: seq<T>)
    requires multiset(a) <= multiset(b)
    ensures |a| <= |b|
  {
    assert |multiset(a)| == |a| && |multiset(b)| == |b|;
    assert multiset(b) == multiset(a) + (multiset(b) - multiset(a));
  }

  lemma StreamCount(s: Stream, q: Request, trials: nat)
    requires Completes(s, q, trials) && q.duration <= 0
    ensures var p := Final(s, q);
            && p.Progress? && p.line.cursor <= |s.world.inbox| && p.matched <= p.line.cursor
            && |p.line.sent| == (q.count + q.warmup) * trials
            && p.matched <= (q.count + q.warmup) * trials
  {
    TrialsCount(s.world, q, Line(s.begin, 0, []), s.starts);
    assert trials * (q.count + q.warmup) == (q.count + q.warmup) * trials;
  }

  lemma {:induction false} RequestsCount(streams: seq<Stream>, q: Request, trials: nat)
    requires AllComplete(streams, q, trials)
    ensures |AllRequests(streams, q, trials)| == (q.count + q.warmup) * trials * |streams|
    ensures Matched(streams, q, trials) <= (q.count + q.warmup) * trials * |streams|
  {
    hide Final, Completes;
    if streams != [] {
      var n := |streams| - 1;
      RequestsCount(streams[..n], q, trials);
      StreamCount(streams[n], q, trials);
      var each := (q.count + q.warmup) * trials;
      assert each * |streams| == each * n + each;
    }
  }

  /** The echoes to the first `n` streams, taken together. */
  function EchoCount(sent: seq<Sent>, n: nat): nat {
    if n == 0 then 0 else EchoCount(sent, n - 1) + |EchoesTo(n - 1, sent)|
  }

  lemma {:induction false} EchoCountStep(sent: seq<Sent>, x: Sent, n: nat)
    ensures EchoCount(sent + [x], n) == EchoCount(sent, n) + (if x.to < n then 1 else 0)
  {
    if n > 0 {
      EchoCountStep(sent, x, n - 1);
      assert (sent + [x])[..|sent|] == sent;
    }
  }

  lemma {:induction false} EchoCountBound(sent: seq<Sent>, n: nat)
    ensures EchoCount(sent, n) <= |sent|
  {
    if sent == [] {
      EchoCountNone(n);
    } else {
      EchoCountBound(sent[..|sent| - 1], n);
      EchoCountStep(sent[..|sent| - 1], sent[|sent| - 1], n);
      assert sent == sent[..|sent| - 1] + [sent[|sent| - 1]];
    }
  }

  lemma {:induction false} EchoCountNone(n: nat)
    ensures EchoCount([], n) == 0
  {
    if n > 0 {
      EchoCountNone(n - 1);
    }
  }

  lemma StreamBound(s: Stream, i: nat, q: Request, trials: nat, sent: seq<Sent>)
    requires Completes(s, q, trials) && q.duration <= 0 && TakesEchoes(s, i, q, sent)
    ensures Final(s, q).matched <= |EchoesTo(i, sent)|
  {
    StreamCount(s, q, trials);
    SubBag(Replies(i, s.world, Final(s, q).line.cursor), EchoesTo(i, sent));
  }

  lemma {:induction false} MatchedBound(streams: seq<Stream>, q: Request, trials: nat, sent: seq<Sent>)
    requires AllComplete(streams, q, trials)
    requires forall i :: 0 <= i < |streams| ==> TakesEchoes(streams[i], i, q, sent)
    ensures Matched(streams, q, trials) <= EchoCount(sent, |streams|)
  {
    hide Final, Completes, EchoesTo, TakesEchoes;
    if streams != [] {
      var n := |streams| - 1;
      MatchedBound(streams[..n], q, trials, sent);
      StreamBound(streams[n], n, q, trials, sent);
    }
  }

  /** Two-ended conservation, for any number of streams and trials: the replies matched by
      the senders, warm-ups included, are at most the packets counted by the peer, which are
      at most the number it was told to expect. */
  lemma TwoEndedConservation(streams: seq<Stream>, q: Request, trials: nat, w: World, l: Line)
    requires NoDuplication(streams, q, trials, w, l)
    ensures Matched(streams, q, trials) <= |l.sent| <= (q.count + q.warmup) * trials * |streams|
  {
    MatchedBound(streams, q, trials, l.sent);
    EchoCountBound(l.sent, |streams|);
    SubBag(Heard(w, |l.sent|), AllRequests(streams, q, trials));
    RequestsCount(streams, q, trials);
  }

  /** Every datagram of every stream has a reply in time, if not always to its own trial. */
  ghost predicate NothingLate(streams: seq<Stream>, q: Request, trials: nat)
    requires AllComplete(streams, q, trials)
  {
    forall i :: 0 <= i < |streams| ==> StreamInTime(streams[i], q)
  }

  ghost predicate StreamInTime(s: Stream, q: Request) {
    s.world.InOrder() && Final(s, q).Progress? && AllInTime(s.world, Final(s, q).line.sent, 0, q.timeout)
  }

  lemma StreamMatched(s: Stream, q: Request, trials: nat)
    requires Completes(s, q, trials) && q.duration <= 0 && q.timeout > 0
    ensures Final(s, q).Progress?
    ensures Final(s, q).matched <= (q.count + q.warmup) * trials
    ensures Final(s, q).matched == (q.count + q.warmup) * trials <==> StreamInTime(s, q)
  {
    hide AllInTime, Trials;
    StreamCount(s, q, trials);
    TrialsInTime(s.world, q, Line(s.begin, 0, []), s.starts);
    assert trials * (q.count + q.warmup) == (q.count + q.warmup) * trials;
  }

  /** All replies are matched exactly when nothing is lost or late. */
  lemma {:induction false} MatchedAllIff(streams: seq<Stream>, q: Request, trials: nat)
    requires AllComplete(streams, q, trials) && q.timeout > 0
    ensures Matched(streams, q, trials) <= (q.count + q.warmup) * trials * |streams|
    ensures Matched(streams, q, trials) == (q.count + q.warmup) * trials * |streams| <==> NothingLate(streams, q, trials)
  {
    hide Final, Completes, StreamInTime;
    if streams != [] {
      var n := |streams| - 1;
      MatchedAllIff(streams[..n], q, trials);
      StreamMatched(streams[n], q, trials);
      var each := (q.count + q.warmup) * trials;
      assert each * |streams| == each * n + each;
      assert forall i :: 0 <= i < n ==> streams[..n][i] == streams[i];
    }
  }

  /** When nothing is lost or late all three numbers are equal, whichever trial a reply
      counted for, and a peer that was told to expect that number has stopped cleanly. */
  lemma NothingLost(streams: seq<Stream>, q: Request, trials: nat, w: World, begin: int, l: Line, expected: int)
    requires NoDuplication(streams, q, trials, w, l) && q.timeout > 0 && NothingLate(streams, q, trials)
    requires expected == (q.count + q.warmup) * trials * |streams|
    requires expected > 0 && Serve(w, Line(begin, 0, []), expected, 0).line == l
    ensures Matched(streams, q, trials) == |l.sent| == expected
    ensures Serve(w, Line(begin, 0, []), expected, 0).Clean?
  {
    MatchedAllIff(streams, q, trials);
    TwoEndedConservation(streams, q, trials, w, l);
    FullServeIsClean(w, Line(begin, 0, []), expected, 0);
  }

  /** A counting server that has echoed its whole count cannot have failed. */
  lemma {:induction false} FullServeIsClean(w: World, l: Line, count: int, packets: nat)
    requires l.cursor <= |w.inbox| && count > 0 && packets <= count
    requires |Serve(w, l, count, packets).line.sent| == |l.sent| + (count - packets)
    ensures Serve(w, l, count, packets).Clean?
    decreases count - packets
  {
    if packets < count {
      var (reply, l') := Receive(w, l, ServeDeadline(w.ctx, l.now, count));
      if reply.Got? {
        var t := Transmit(w, l', reply.from, reply.seqno, reply.size);
        if t.Some? {
          FullServeIsClean(w, t.value, count, packets + 1);
        }
      }
    }
  }

  /** The same with the listener's own count in the middle: a listen that began with an empty
      log, whatever made it leave. */
  lemma ListenerConservation(streams: seq<Stream>, q: Request, trials: nat, w: World, begin: int,
                                                l: Line, expected: int, idle: int, r: ListenResult)
    requires NoDuplication(streams, q, trials, w, l) && Listened(w, Line(begin, 0, []), l, expected, idle, r)
    ensures Matched(streams, q, trials) <= r.packets <= (q.count + q.warmup) * trials * |streams|
    ensures q.timeout > 0 && NothingLate(streams, q, trials) ==>
              Matched(streams, q, trials) == r.packets == (q.count + q.warmup) * trials * |streams|
  {
    hide NothingLate;
    TwoEndedConservation(streams, q, trials, w, l);
    if q.timeout > 0 && NothingLate(streams, q, trials) {
      MatchedAllIff(streams, q, trials);
    }
  }

  /** Such networks exist: one datagram, heard at 1 and answered by 2. */
  lemma NetworkExists()
    ensures var streams := [Stream(World([Datagram(2, PEER, 0, 8, 0)], {}, Context(None, None)), 0, [0])];
            var q := Request(1, 8, 0, 1, 5, 0);
            && NoDuplication(streams, q, 1, World([Datagram(1, 0, 0, 8, 0)], {}, Context(None, None)),
                             Line(1, 1, [Sent(0, 0, 8, 1, 1)]))
            && NothingLate(streams, q, 1)
  {
    hide Measure;
    var w := World([Datagram(2, PEER, 0, 8, 0)], {}, Context(None, None));
    var streams := [Stream(w, 0, [0])];
    var q := Request(1, 8, 0, 1, 5, 0);
    var x := Sent(PEER, 0, 8, 0, 0);
    OneEcho(w, Line(0, 0, []), [x], Replied(Line(2, 1, [x])));
    assert [0][..0] == [] && streams[..0] == [];
    var final := Progress(Line(2, 1, [x]), 1);
    assert Trials(w, q, Line(0, 0, []), []) == Progress(Line(0, 0, []), 0);
    assert Final(streams[0], q) == final;
    var heard := World([Datagram(1, 0, 0, 8, 0)], {}, Context(None, None));
    var frames := [Frame(0, 0, 8)];
    assert Requests(0, [x]) == frames && Replies(0, w, 1) == frames && Heard(heard, 1) == frames;
    assert AllRequests(streams[..0], q, 1) == [];
    assert AllRequests(streams, q, 1) == [] + frames;
    assert [Sent(0, 0, 8, 1, 1)][..0] == [];
    assert EchoesTo(0, [Sent(0, 0, 8, 1, 1)]) == [] + frames;
    assert Bears(w, 0, 0);
    assert RepliedInTime(w, x, 5);
  }
}
