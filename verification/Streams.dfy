/** Concurrent streams and the collector of their results.

    Every stream is a goroutine that delivers one item into a buffered channel; the
    collector takes as many items as there are streams and cancels the shared context at
    the first error. A schedule is any interleaving of deliveries and receptions. */
module Streams {
  import opened Common
  import opened Perf

  datatype Item = Item(index: nat, outcome: Result<PerfResult, PerfError>)

  datatype FanIn = FanIn(running: set<nat>, queue: seq<Item>, received: seq<Item>, cancelled: bool)

  /** What stream `i` returns as long as nobody cancels it. */
  type Own = seq<Result<PerfResult, PerfError>>

  function Indices(n: nat): (s: set<nat>)
    ensures forall i: nat :: i in s <==> i < n
    ensures |s| == n
  {
    if n == 0 then {} else Indices(n - 1) + {n - 1}
  }

  function Initial(own: Own): FanIn {
    FanIn(Indices(|own|), [], [], false)
  }

  /** Stream `item.index` finishes. A cancelled stream may return anything. The channel
      has one place for every stream; a full one would block the sender. */
  predicate Delivers(own: Own, s: FanIn, t: FanIn, item: Item) {
    && item.index in s.running && item.index < |own| && |s.queue| < |own|
    && (!s.cancelled ==> item.outcome == own[item.index])
    && t == s.(running := s.running - {item.index}, queue := s.queue + [item])
  }

  predicate Collects(own: Own, s: FanIn, t: FanIn) {
    && |s.received| < |own| && s.queue != []
    && t == FanIn(s.running, s.queue[1..], s.received + [s.queue[0]], s.cancelled || s.queue[0].outcome.Err?)
  }

  ghost predicate SomeDelivers(own: Own, s: FanIn, t: FanIn) {
    exists item :: Delivers(own, s, t, item)
  }

  ghost predicate Next(own: Own, s: FanIn, t: FanIn) {
    SomeDelivers(own, s, t) || Collects(own, s, t)
  }

  ghost predicate Schedule(own: Own, states: seq<FanIn>) {
    && states != [] && states[0] == Initial(own)
    && (forall k :: 0 <= k < |states| - 1 ==> Next(own, states[k], states[k + 1]))
  }

  // --- Bags of results -------------------------------------------------------------

  function Delivered(s: FanIn): seq<Item> {
    s.received + s.queue
  }

  function Outcomes(items: seq<Item>): seq<Result<PerfResult, PerfError>> {
    if items == [] then [] else Outcomes(items[..|items| - 1]) + [items[|items| - 1].outcome]
  }

  /** What the streams in `running` below `n` have still to return. */
  function Owed(own: Own, running: set<nat>, n: nat): multiset<Result<PerfResult, PerfError>>
    requires n <= |own|
  {
    if n == 0 then multiset{}
    else Owed(own, running, n - 1) + OwedBy(own, running, n - 1)
  }

  lemma Reorder<T>(a: multiset<T>, b: multiset<T>, c: multiset<T>)
    ensures (a + b) + c == (a + c) + b
  {}

  lemma Cancel<T>(a: multiset<T>, b: multiset<T>, x: T)
    requires a + multiset{x} == b + multiset{x}
    ensures a == b
  {
    assert a == (a + multiset{x}) - multiset{x} && b == (b + multiset{x}) - multiset{x};
  }

  function OwedBy(own: Own, running: set<nat>, i: nat): multiset<Result<PerfResult, PerfError>>
    requires i < |own|
  {
    if i in running then multiset{own[i]} else multiset{}
  }

  lemma OwedByOthers(own: Own, running: set<nat>, i: nat, k: nat)
    requires k < |own|
    ensures OwedBy(own, running - {i}, k) == if k == i then multiset{} else OwedBy(own, running, k)
  {}

  lemma {:induction false} OwedLess(own: Own, running: set<nat>, n: nat, i: nat)
    requires n <= |own| && i < |own|
    ensures Owed(own, running, n)
         == Owed(own, running - {i}, n) + (if i < n then OwedBy(own, running, i) else multiset{})
  {
    hide OwedBy;
    if n > 0 {
      OwedLess(own, running, n - 1, i);
      OwedByOthers(own, running, i, n - 1);
      if i < n - 1 {
        Reorder(Owed(own, running - {i}, n - 1), OwedBy(own, running, i), OwedBy(own, running, n - 1));
      }
    }
  }

  lemma {:induction false} OwedAll(own: Own, running: set<nat>, n: nat)
    requires n <= |own| && forall i: nat :: i < n ==> i in running
    ensures Owed(own, running, n) == multiset(own[..n])
  {
    if n > 0 {
      OwedAll(own, running, n - 1);
      assert OwedBy(own, running, n - 1) == multiset{own[n - 1]};
      assert own[..n] == own[..n - 1] + [own[n - 1]];
    }
  }

  lemma {:induction false} OwedNone(own: Own, n: nat)
    requires n <= |own|
    ensures Owed(own, {}, n) == multiset{}
  {
    if n > 0 {
      OwedNone(own, n - 1);
    }
  }

  /** Which streams the items are from. */
  function Senders(items: seq<Item>): multiset<nat> {
    if items == [] then multiset{} else Senders(items[..|items| - 1]) + multiset{items[|items| - 1].index}
  }

  lemma OneMoreSender(items: seq<Item>, item: Item)
    ensures Senders(items + [item]) == Senders(items) + multiset{item.index}
  {
    assert (items + [item])[..|items|] == items;
  }

  // --- The invariant ---------------------------------------------------------------

  ghost predicate Inv(own: Own, s: FanIn) {
    && |s.running| + |s.queue| + |s.received| == |own|
    && (forall i :: i in s.running ==> i < |own|)
    && Senders(Delivered(s)) + multiset(s.running) == multiset(Indices(|own|))
    && (s.cancelled <==> exists k :: 0 <= k < |s.received| && s.received[k].outcome.Err?)
    && (s.cancelled ==> exists i :: 0 <= i < |own| && own[i].Err?)
    && (!s.cancelled ==> multiset(Outcomes(Delivered(s))) + Owed(own, s.running, |own|) == multiset(own))
  }

  lemma InitialInv(own: Own)
    ensures Inv(own, Initial(own))
  {
    OwedAll(own, Indices(|own|), |own|);
    assert own[..|own|] == own;
  }

  lemma DeliverInv(own: Own, s: FanIn, t: FanIn, item: Item)
    requires Inv(own, s) && Delivers(own, s, t, item)
    ensures Inv(own, t)
  {
    hide Owed, Outcomes, Senders, Indices;
    assert Delivered(t) == Delivered(s) + [item];
    OneMoreOutcome(Delivered(s), item);
    OneMoreSender(Delivered(s), item);
    assert multiset(s.running) == multiset(t.running) + multiset{item.index};
    OwedLess(own, s.running, |own|, item.index);
  }

  lemma OneMoreOutcome(items: seq<Item>, item: Item)
    ensures Outcomes(items + [item]) == Outcomes(items) + [item.outcome]
    ensures multiset(Outcomes(items + [item])) == multiset(Outcomes(items)) + multiset{item.outcome}
  {
    assert (items + [item])[..|items|] == items;
  }

  lemma CollectInv(own: Own, s: FanIn, t: FanIn)
    requires Inv(own, s) && Collects(own, s, t)
    ensures Inv(own, t)
  {
    hide Owed, Senders, Indices, Outcomes;
    assert Delivered(t) == Delivered(s);
    var head := s.queue[0];
    assert t.received[|s.received|] == head;
    forall k | 0 <= k < |s.received|
      ensures t.received[k] == s.received[k]
    {}
    if !s.cancelled && head.outcome.Err? {
      assert Delivered(s)[|s.received|] == head;
      OutcomesAt(Delivered(s), |s.received|);
      assert head.outcome in multiset(own);
      var i :| 0 <= i < |own| && own[i] == head.outcome;
    }
  }

  lemma {:induction false} OutcomesAt(items: seq<Item>, k: nat)
    requires k < |items|
    ensures |Outcomes(items)| == |items| && items[k].outcome in multiset(Outcomes(items))
  {
    if k < |items| - 1 {
      OutcomesAt(items[..|items| - 1], k);
    } else {
      OutcomesLength(items);
    }
  }

  lemma {:induction false} OutcomesLength(items: seq<Item>)
    ensures |Outcomes(items)| == |items|
  {
    if items != [] {
      OutcomesLength(items[..|items| - 1]);
    }
  }

  lemma {:induction false} ScheduleInv(own: Own, states: seq<FanIn>, k: nat)
    requires Schedule(own, states) && k < |states|
    ensures Inv(own, states[k])
  {
    if k == 0 {
      InitialInv(own);
    } else {
      ScheduleInv(own, states, k - 1);
      NextInv(own, states[k - 1], states[k]);
    }
  }

  lemma NextInv(own: Own, s: FanIn, t: FanIn)
    requires Inv(own, s) && Next(own, s, t)
    ensures Inv(own, t)
  {
    if SomeDelivers(own, s, t) {
      var item :| Delivers(own, s, t, item);
      DeliverInv(own, s, t, item);
    } else {
      CollectInv(own, s, t);
    }
  }

  // --- Delivery --------------------------------------------------------------------

  /** In every schedule: no sender ever finds the channel full, the collector never waits
      for an item that will not come, and every step leaves less to do. No stream delivers
      twice; when all is received every stream has delivered once. */
  lemma {:induction false} NobodyBlocks(own: Own, states: seq<FanIn>, k: nat)
    requires Schedule(own, states) && k < |states|
    ensures var s := states[k];
            && (s.running != {} ==> |s.queue| < |own|)
            && (|s.received| < |own| ==> s.running != {} || s.queue != [])
            && (|s.received| == |own| ==> s.running == {} && s.queue == [])
            && Senders(Delivered(s)) <= multiset(Indices(|own|))
            && (|s.received| == |own| ==> Senders(s.received) == multiset(Indices(|own|)))
            && (k + 1 < |states| ==> var t := states[k + 1]; 2 * |t.running| + |t.queue| < 2 * |s.running| + |s.queue|)
  {
    hide Next, Senders, Outcomes, Owed, Indices;
    ScheduleInv(own, states, k);
    if states[k].running != {} {
      var i :| i in states[k].running;
      assert |states[k].running - {i}| >= 0;
    }
    if |states[k].received| == |own| {
      assert Delivered(states[k]) == states[k].received;
    }
    if k + 1 < |states| {
      assert Next(own, states[k], states[k + 1]);
      LessToDo(own, states[k], states[k + 1]);
    }
  }

  lemma LessToDo(own: Own, s: FanIn, t: FanIn)
    requires Next(own, s, t)
    ensures 2 * |t.running| + |t.queue| < 2 * |s.running| + |s.queue|
  {
    if item :| Delivers(own, s, t, item) {
      assert |t.running| == |s.running| - 1;
    }
  }

  // --- The collector ---------------------------------------------------------------

  datatype StreamError = NoStreams | Alone(error: PerfError) | StreamFailed(number: nat, error: PerfError)

  datatype Totals = Totals(count: int, warmup: int, lost: int, rtt: seq<int>)

  function Add(t: Totals, r: PerfResult): Totals {
    Totals(t.count + r.count, t.warmup + r.warmup, t.lost + r.lost, t.rtt + r.rtt)
  }

  function Fold(outs: Own): Totals {
    if outs == [] then Totals(0, 0, 0, [])
    else
      var t := Fold(outs[..|outs| - 1]);
      match outs[|outs| - 1]
      case Ok(r) => Add(t, r)
      case Err(_) => t
  }

  /** The first error among the items, numbered as it is reported. */
  function FirstError(items: seq<Item>): Option<StreamError> {
    if items == [] then None
    else
      var before := FirstError(items[..|items| - 1]);
      var last := items[|items| - 1];
      if before.None? && last.outcome.Err? then Some(StreamFailed(last.index + 1, last.outcome.error)) else before
  }

  /** Item `k` is the first to fail. */
  ghost predicate FirstFailure(items: seq<Item>, k: int) {
    && 0 <= k < |items| && items[k].outcome.Err?
    && forall i :: 0 <= i < k ==> items[i].outcome.Ok?
  }

  /** The error is the one that came first, with the number of its stream, counted from one. */
  ghost predicate TellsFirst(items: seq<Item>, error: StreamError) {
    exists k :: FirstFailure(items, k) && error == StreamFailed(items[k].index + 1, items[k].outcome.error)
  }

  lemma {:induction false} FirstErrorIs(items: seq<Item>)
    ensures match FirstError(items)
            case None => forall k :: 0 <= k < |items| ==> items[k].outcome.Ok?
            case Some(error) => TellsFirst(items, error)
  {
    if items != [] {
      var n := |items| - 1;
      var before := items[..n];
      FirstErrorIs(before);
      if FirstError(before).Some? {
        var k :| FirstFailure(before, k) && FirstError(before).value == StreamFailed(before[k].index + 1, before[k].outcome.error);
        assert FirstFailure(items, k);
      } else if items[n].outcome.Err? {
        assert forall i :: 0 <= i < n ==> before[i] == items[i];
        assert FirstFailure(items, n);
      }
    }
  }

  /** The loop that takes the items as they come. */
  method CollectStreams(items: seq<Item>, duration: int, size: int, window: int, elapsed: int)
    returns (r: Result<PerfResult, StreamError>)
    ensures match FirstError(items)
            case Some(error) => r == Err(error)
            case None =>
              var t := Fold(Outcomes(items));
              r == Ok(PerfResult(t.count, duration, size, t.warmup, window, |items|, t.lost, elapsed, t.rtt))
  {
    var count, warmup, lost := 0, 0, 0;
    var rtt: seq<int> := [];
    var firstErr: Option<StreamError> := None;
    for k := 0 to |items|
      invariant firstErr == FirstError(items[..k])
      invariant Totals(count, warmup, lost, rtt) == Fold(Outcomes(items[..k]))
    {
      var item := items[k];
      assert items[..k + 1][..k] == items[..k];
      assert Outcomes(items[..k + 1])[..|Outcomes(items[..k])|] == Outcomes(items[..k]);
      match item.outcome {
        case Err(error) =>
          if firstErr.None? {
            firstErr := Some(StreamFailed(item.index + 1, error));
          }
        case Ok(result) =>
          count := count + result.count;
          warmup := warmup + result.warmup;
          lost := lost + result.lost;
          rtt := rtt + result.rtt;
      }
    }
    assert items[..|items|] == items;
    if firstErr.Some? {
      return Err(firstErr.value);
    }
    return Ok(PerfResult(count, duration, size, warmup, window, |items|, lost, elapsed, rtt));
  }

  /** All streams of a run, of which there may be none, or one that needs no collector. */
  method RunUdpEchoPerfStreams(items: seq<Item>, duration: int, size: int, window: int, elapsed: int)
    returns (r: Result<PerfResult, StreamError>)
    ensures r.Ok? <==> items != [] && forall k :: 0 <= k < |items| ==> items[k].outcome.Ok?
    ensures r.Ok? ==>
              var t := Fold(Outcomes(items));
              && (r.value.count, r.value.warmup, r.value.lost, r.value.rtt) == (t.count, t.warmup, t.lost, t.rtt)
              && r.value.streams == |items|
              && (|items| == 1 ==> r.value == items[0].outcome.value.(streams := 1))
              && (|items| > 1 ==> (r.value.duration, r.value.size, r.value.window, r.value.elapsed) == (duration, size, window, elapsed))
    ensures r.Err? ==>
              if items == [] then r.error == NoStreams
              else if |items| == 1 then r.error.Alone? && items[0].outcome == Err(r.error.error)
              else TellsFirst(items, r.error)
  {
    hide TellsFirst, FirstError, Fold, Outcomes;
    if |items| == 0 {
      return Err(NoStreams);
    }
    if |items| == 1 {
      OneOutcome(items);
      match items[0].outcome {
        case Ok(result) => return Ok(result.(streams := 1));
        case Err(error) => return Err(Alone(error));
      }
    }
    FirstErrorIff(items);
    FirstErrorIs(items);
    r := CollectStreams(items, duration, size, window, elapsed);
  }

  lemma OneOutcome(items: seq<Item>)
    requires |items| == 1
    ensures items[0].outcome.Ok? ==>
              var o := items[0].outcome.value;
              Fold(Outcomes(items)) == Totals(o.count, o.warmup, o.lost, o.rtt)
  {
    assert items[..0] == [];
    assert Outcomes(items) == [items[0].outcome];
    assert [items[0].outcome][..0] == [];
  }

  lemma {:induction false} FirstErrorIff(items: seq<Item>)
    ensures FirstError(items).Some? <==> exists k :: 0 <= k < |items| && items[k].outcome.Err?
  {
    if items != [] {
      var before := items[..|items| - 1];
      FirstErrorIff(before);
      assert forall k :: 0 <= k < |before| ==> before[k] == items[k];
    }
  }

  // --- Sums do not depend on the order ---------------------------------------------

  lemma {:induction false} FoldAppend(a: Own, b: Own)
    ensures var ta, tb, t := Fold(a), Fold(b), Fold(a + b);
            && t.count == ta.count + tb.count && t.warmup == ta.warmup + tb.warmup && t.lost == ta.lost + tb.lost
            && t.rtt == ta.rtt + tb.rtt
  {
    if b == [] {
      assert a + b == a;
    } else {
      assert (a + b)[..|a + b| - 1] == a + b[..|b| - 1];
      FoldAppend(a, b[..|b| - 1]);
    }
  }

  ghost predicate SameTotals(t: Totals, u: Totals) {
    && t.count == u.count && t.warmup == u.warmup && t.lost == u.lost
    && multiset(t.rtt) == multiset(u.rtt)
  }

  lemma {:induction false} FoldPermuted(a: Own, b: Own)
    requires multiset(a) == multiset(b)
    ensures SameTotals(Fold(a), Fold(b))
  {
    assert |multiset(a)| == |a| && |multiset(b)| == |b|;
    if a != [] {
      var x := a[|a| - 1];
      assert a == a[..|a| - 1] + [x];
      assert x in multiset(b);
      var j :| 0 <= j < |b| && b[j] == x;
      var left, right := b[..j], b[j + 1..];
      assert b == left + [x] + right;
      assert multiset(a) == multiset(a[..|a| - 1]) + multiset{x};
      Reorder(multiset(left), multiset{x}, multiset(right));
      Cancel(multiset(a[..|a| - 1]), multiset(left + right), x);
      FoldPermuted(a[..|a| - 1], left + right);
      FoldMiddle(left, x, right);
    }
  }

  lemma FoldMiddle(left: Own, x: Result<PerfResult, PerfError>, right: Own)
    ensures var whole, rest := Fold(left + [x] + right), Fold(left + right);
            SameTotals(whole, if x.Ok? then Add(rest, x.value) else rest)
  {
    FoldAppend(left + [x], right);
    FoldAppend(left, [x]);
    FoldAppend(left, right);
    assert [x][..0] == [];
  }

  /** The outcome of the fan-in does not depend on the schedule. It is an error exactly when
      some stream fails of its own accord; otherwise every sum, and the bag of round trips,
      is that of the streams taken one after the other. */
  lemma {:induction false} ScheduleIndependent(own: Own, states: seq<FanIn>, k: nat)
    requires Schedule(own, states) && k < |states| && |states[k].received| == |own|
    ensures FirstError(states[k].received).Some? <==> exists i :: 0 <= i < |own| && own[i].Err?
    ensures FirstError(states[k].received).None? ==>
              SameTotals(Fold(Outcomes(states[k].received)), Fold(own))
  {
    var s := states[k];
    ScheduleInv(own, states, k);
    FirstErrorIff(s.received);
    if !s.cancelled {
      assert s.running == {} && s.queue == [];
      assert Delivered(s) == s.received;
      OwedNone(own, |own|);
      assert multiset(Outcomes(s.received)) == multiset(own);
      FoldPermuted(Outcomes(s.received), own);
      forall i | 0 <= i < |own|
        ensures own[i].Ok?
      {
        assert own[i] in multiset(Outcomes(s.received));
        FromOutcomes(s.received, own[i]);
      }
    }
  }

  lemma {:induction false} FromOutcomes(items: seq<Item>, x: Result<PerfResult, PerfError>)
    requires x in multiset(Outcomes(items))
    ensures exists k :: 0 <= k < |items| && items[k].outcome == x
  {
    var n := |items| - 1;
    if items[n].outcome != x {
      FromOutcomes(items[..n], x);
      var k :| 0 <= k < |items[..n]| && items[..n][k].outcome == x;
      assert items[k].outcome == x;
    }
  }

  /** If every stream accounts for all its datagrams, so does the merged result. */
  lemma {:induction false} FoldKeepsCount(outs: Own)
    requires forall i :: 0 <= i < |outs| ==> outs[i].Ok? && |outs[i].value.rtt| + outs[i].value.lost == outs[i].value.count
    ensures var t := Fold(outs);
            |t.rtt| + t.lost == t.count
  {
    if outs != [] {
      FoldKeepsCount(outs[..|outs| - 1]);
    }
  }
}
