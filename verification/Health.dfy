/** Link health over whole runs: which path a tick samples, what is remembered, and which path
    is then shown as active. */
module Health {
  import opened Common

  const ORDER: seq<string> := ["thunderbolt", "awdl", "lan"]
  const HISTORY: nat := 60

  /** A profile's socket, or why there is none. */
  datatype Endpoint = Endpoint(err: string, local: Option<string>, iface: string)

  /** A peer that browsing found; no ID means none was found. */
  datatype Peer = Peer(id: string, name: string, addrs: map<string, string>)

  /** `figures` stands for the time, rates and counts, which nothing here looks into. */
  datatype Sample = Sample(profile: string, peer: string, error: string, figures: int)

  datatype Reading = Reading(error: string, figures: int)

  type Endpoints = map<string, Endpoint>

  /** What the world answers in one tick: opening a profile, sampling it, starting an
      advertiser, and looking for the peer. */
  datatype World = World(open: string -> Endpoint, reading: string -> Reading, start: Option<string>, peer: Peer)

  // --- One tick ----------------------------------------------------------------------

  function Address(peer: Peer, name: string): string {
    if name in peer.addrs then peer.addrs[name] else ""
  }

  predicate Usable(endpoints: Endpoints, name: string) {
    name in endpoints && endpoints[name].err == ""
  }

  predicate Succeeds(endpoints: Endpoints, w: World, name: string) {
    Address(w.peer, name) != "" && Usable(endpoints, name) && w.reading(name).error == ""
  }

  /** What trying a profile that does not succeed leaves to be remembered. */
  function Failure(endpoints: Endpoints, w: World, name: string): seq<Sample> {
    if Address(w.peer, name) == "" then []
    else if !Usable(endpoints, name) then [Sample(name, w.peer.name, "local unavailable", 0)]
    else [Sample(name, w.peer.name, w.reading(name).error, w.reading(name).figures)]
  }

  function Failures(order: seq<string>, endpoints: Endpoints, w: World): seq<Sample> {
    if order == [] || Succeeds(endpoints, w, order[0]) then []
    else Failure(endpoints, w, order[0]) + Failures(order[1..], endpoints, w)
  }

  /** The first success in the given order; without one a sample of no profile. */
  function Choice(order: seq<string>, endpoints: Endpoints, w: World): Sample {
    if order == [] then Sample("", w.peer.name, "no shared path", 0)
    else if Succeeds(endpoints, w, order[0]) then Sample(order[0], w.peer.name, "", w.reading(order[0]).figures)
    else Choice(order[1..], endpoints, w)
  }

  /** Position `n` is where the search stops: nothing before it succeeds. */
  predicate StopsAt(order: seq<string>, endpoints: Endpoints, w: World, n: nat) {
    && n <= |order|
    && (n < |order| ==> Succeeds(endpoints, w, order[n]))
    && forall k :: 0 <= k < n ==> !Succeeds(endpoints, w, order[k])
  }

  lemma {:induction false} ChoiceIsFirst(order: seq<string>, endpoints: Endpoints, w: World, n: nat)
    requires StopsAt(order, endpoints, w, n)
    ensures n < |order| ==>
              Choice(order, endpoints, w) == Sample(order[n], w.peer.name, "", w.reading(order[n]).figures)
    ensures n == |order| ==> Choice(order, endpoints, w) == Sample("", w.peer.name, "no shared path", 0)
  {
    hide Succeeds;
    if n > 0 {
      assert !Succeeds(endpoints, w, order[0]);
      ChoiceIsFirst(order[1..], endpoints, w, n - 1);
    }
  }

  lemma {:induction false} SomeStop(order: seq<string>, endpoints: Endpoints, w: World) returns (n: nat)
    ensures StopsAt(order, endpoints, w, n)
  {
    hide Succeeds;
    if order == [] || Succeeds(endpoints, w, order[0]) {
      n := 0;
    } else {
      n := SomeStop(order[1..], endpoints, w);
      n := n + 1;
    }
  }

  /** A profile that can be sampled and answers: the peer has an address for it, its socket is
      open without error, and the sample comes back without one. */
  predicate Works(endpoints: Endpoints, w: World, name: string) {
    && name in w.peer.addrs && w.peer.addrs[name] != ""
    && name in endpoints && endpoints[name].err == ""
    && w.reading(name).error == ""
  }

  /** Thunderbolt before AWDL before LAN: the first that works is sampled, under its own name
      and the peer's, with the figures it gave. */
  lemma Preference(endpoints: Endpoints, w: World)
    ensures Choice(ORDER, endpoints, w)
         == if Works(endpoints, w, "thunderbolt") then Sample("thunderbolt", w.peer.name, "", w.reading("thunderbolt").figures)
            else if Works(endpoints, w, "awdl") then Sample("awdl", w.peer.name, "", w.reading("awdl").figures)
            else if Works(endpoints, w, "lan") then Sample("lan", w.peer.name, "", w.reading("lan").figures)
            else Sample("", w.peer.name, "no shared path", 0)
  {
    hide Works;
    WorksIs(endpoints, w, "thunderbolt");
    WorksIs(endpoints, w, "awdl");
    WorksIs(endpoints, w, "lan");
    assert ORDER[0] == "thunderbolt" && ORDER[1] == "awdl" && ORDER[2] == "lan";
    var n := SomeStop(ORDER, endpoints, w);
    ChoiceIsFirst(ORDER, endpoints, w, n);
  }

  lemma WorksIs(endpoints: Endpoints, w: World, name: string)
    ensures Works(endpoints, w, name) <==> Succeeds(endpoints, w, name)
  {}

  /** The profiles before position `n` for which the peer has an address. */
  function Tried(order: seq<string>, w: World, n: nat): seq<string>
    requires n <= |order|
  {
    if n == 0 then []
    else Tried(order, w, n - 1)
         + (if order[n - 1] in w.peer.addrs && w.peer.addrs[order[n - 1]] != "" then [order[n - 1]] else [])
  }

  /** What is remembered of a profile that did not work. */
  predicate TellsFailure(s: Sample, endpoints: Endpoints, w: World, name: string) {
    && s.profile == name && s.peer == w.peer.name
    && if name in endpoints && endpoints[name].err == "" then
         s.error == w.reading(name).error && s.error != "" && s.figures == w.reading(name).figures
       else s.error == "local unavailable" && s.figures == 0
  }

  /** One failure is remembered for each profile tried in vain, in the order they were tried. */
  lemma {:induction false} FailuresAre(order: seq<string>, endpoints: Endpoints, w: World, n: nat)
    requires StopsAt(order, endpoints, w, n)
    ensures var all, tried := Failures(order, endpoints, w), Tried(order, w, n);
            |all| == |tried| && forall k :: 0 <= k < |all| ==> TellsFailure(all[k], endpoints, w, tried[k])
  {
    hide Succeeds, TellsFailure;
    if n > 0 {
      assert !Succeeds(endpoints, w, order[0]);
      FailuresAre(order[1..], endpoints, w, n - 1);
      TriedFront(order, w, n);
      FailureTells(endpoints, w, order[0]);
    }
  }

  lemma FailureTells(endpoints: Endpoints, w: World, name: string)
    requires !Succeeds(endpoints, w, name)
    ensures var s := Failure(endpoints, w, name);
            if name in w.peer.addrs && w.peer.addrs[name] != "" then |s| == 1 && TellsFailure(s[0], endpoints, w, name)
            else s == []
  {}

  lemma {:induction false} TriedFront(order: seq<string>, w: World, n: nat)
    requires 0 < n <= |order|
    ensures Tried(order, w, n)
         == (if order[0] in w.peer.addrs && w.peer.addrs[order[0]] != "" then [order[0]] else [])
            + Tried(order[1..], w, n - 1)
  {
    if n > 1 {
      TriedFront(order, w, n - 1);
    }
  }

  // --- What is remembered ------------------------------------------------------------

  /** The last sample of a profile. */
  function LastOf(log: seq<Sample>, name: string): Option<Sample> {
    if log == [] then None
    else if log[|log| - 1].profile == name then Some(log[|log| - 1])
    else LastOf(log[..|log| - 1], name)
  }

  lemma {:induction false} LastOfAppend(a: seq<Sample>, b: seq<Sample>, name: string)
    ensures LastOf(a + b, name) == if LastOf(b, name).Some? then LastOf(b, name) else LastOf(a, name)
  {
    if b == [] {
      assert a + b == a;
    } else {
      LastOfAppend(a, b[..|b| - 1], name);
      assert (a + b)[..|a + b| - 1] == a + b[..|b| - 1];
    }
  }

  lemma {:induction false} LastOfIn(log: seq<Sample>, name: string)
    ensures LastOf(log, name).Some? ==> LastOf(log, name).value in log && LastOf(log, name).value.profile == name
    ensures LastOf(log, name).None? ==> forall s :: s in log ==> s.profile != name
  {
    if log != [] {
      LastOfIn(log[..|log| - 1], name);
      assert log == log[..|log| - 1] + [log[|log| - 1]];
    }
  }

  predicate Healthy(log: seq<Sample>, name: string) {
    LastOf(log, name).Some? && LastOf(log, name).value.error == ""
  }

  /** The path shown as active: the first profile whose last sample is a success. */
  function Active(order: seq<string>, log: seq<Sample>): string {
    if order == [] then "" else if Healthy(log, order[0]) then order[0] else Active(order[1..], log)
  }

  lemma {:induction false} ActiveIs(order: seq<string>, log: seq<Sample>, n: nat)
    requires n <= |order| && forall k :: 0 <= k < n ==> !Healthy(log, order[k])
    requires n < |order| ==> Healthy(log, order[n])
    ensures Active(order, log) == if n < |order| then order[n] else ""
  {
    hide Healthy;
    if n > 0 {
      assert !Healthy(log, order[0]);
      ActiveIs(order[1..], log, n - 1);
    }
  }

  predicate Distinct(order: seq<string>) {
    && (forall i, j :: 0 <= i < j < |order| ==> order[i] != order[j])
    && forall i :: 0 <= i < |order| ==> order[i] != ""
  }

  /** The log after a tick that found a peer. */
  function Sampled(order: seq<string>, endpoints: Endpoints, w: World, log: seq<Sample>): seq<Sample> {
    log + Failures(order, endpoints, w) + [Choice(order, endpoints, w)]
  }

  lemma {:induction false} FailuresLast(order: seq<string>, endpoints: Endpoints, w: World, n: nat, name: string)
    requires Distinct(order) && StopsAt(order, endpoints, w, n)
    ensures forall s :: s in Failures(order, endpoints, w) ==> s.profile in order && s.error != ""
    ensures forall k :: 0 <= k < n && order[k] == name && Address(w.peer, name) != "" ==>
              LastOf(Failures(order, endpoints, w), name).Some?
    ensures forall k :: 0 <= k < |order| && order[k] == name && (Address(w.peer, name) == "" || k >= n) ==>
              LastOf(Failures(order, endpoints, w), name).None?
  {
    hide LastOf;
    var all := Failures(order, endpoints, w);
    if n > 0 {
      assert !Succeeds(endpoints, w, order[0]);
      FailuresLast(order[1..], endpoints, w, n - 1, name);
      LastOfAppend(Failure(endpoints, w, order[0]), Failures(order[1..], endpoints, w), name);
      OneFailure(endpoints, w, order[0], name);
      NotIn(Failures(order[1..], endpoints, w), order[1..], name);
      assert forall k :: 1 <= k < |order| ==> order[k] == order[1..][k - 1];
    } else {
      NoLast(name);
    }
  }

  lemma NoLast(name: string)
    ensures LastOf([], name).None?
  {}

  lemma NotIn(log: seq<Sample>, order: seq<string>, name: string)
    requires forall s :: s in log ==> s.profile in order
    ensures name !in order ==> LastOf(log, name).None?
  {
    LastOfIn(log, name);
  }

  lemma OneFailure(endpoints: Endpoints, w: World, first: string, name: string)
    requires !Succeeds(endpoints, w, first)
    ensures LastOf(Failure(endpoints, w, first), name).Some? <==> first == name && Address(w.peer, name) != ""
    ensures forall s :: s in Failure(endpoints, w, first) ==> s.profile == first && s.error != ""
  {
    LastOfIn(Failure(endpoints, w, first), name);
  }

  lemma HealthyAfter(order: seq<string>, endpoints: Endpoints, w: World, log: seq<Sample>, n: nat, k: nat)
    requires Distinct(order) && StopsAt(order, endpoints, w, n) && k <= n && k < |order|
    ensures Healthy(Sampled(order, endpoints, w, log), order[k])
       <==> k == n || (Address(w.peer, order[k]) == "" && Healthy(log, order[k]))
  {
    hide LastOf, Failures, Choice, Succeeds;
    var name, failures, choice := order[k], Failures(order, endpoints, w), Choice(order, endpoints, w);
    FailuresLast(order, endpoints, w, n, name);
    ChoiceIsFirst(order, endpoints, w, n);
    OneSample(choice, name);
    LastOfAppend(log + failures, [choice], name);
    LastOfAppend(log, failures, name);
    LastOfIn(failures, name);
  }

  lemma OneSample(s: Sample, name: string)
    ensures LastOf([s], name) == if s.profile == name then Some(s) else None
  {
    assert [s][..0] == [];
  }

  /** A profile that would have been tried before the search stopped, but had no address this
      time, still holds a success from before. */
  predicate Stale(order: seq<string>, w: World, log: seq<Sample>, n: nat) {
    exists k :: 0 <= k < n && k < |order| && Address(w.peer, order[k]) == "" && Healthy(log, order[k])
  }

  /** The active path is what this tick chose exactly when no such profile stands before it. */
  lemma ActiveExact(order: seq<string>, endpoints: Endpoints, w: World, log: seq<Sample>, n: nat)
    requires Distinct(order) && StopsAt(order, endpoints, w, n)
    ensures Active(order, Sampled(order, endpoints, w, log)) == Choice(order, endpoints, w).profile
       <==> !Stale(order, w, log, n)
  {
    hide Healthy, Sampled, Choice, Succeeds;
    var after := Sampled(order, endpoints, w, log);
    ChoiceIsFirst(order, endpoints, w, n);
    forall k | 0 <= k < |order| && k <= n
      ensures Healthy(after, order[k]) <==> k == n || (Address(w.peer, order[k]) == "" && Healthy(log, order[k]))
    {
      HealthyAfter(order, endpoints, w, log, n, k);
    }
    if Stale(order, w, log, n) {
      ActiveInFront(order, after, n);
    } else {
      ActiveIs(order, after, n);
    }
  }

  lemma {:induction false} ActiveInFront(order: seq<string>, log: seq<Sample>, n: nat)
    requires n <= |order| && exists k :: 0 <= k < n && Healthy(log, order[k])
    ensures exists k :: 0 <= k < n && Active(order, log) == order[k]
  {
    hide Healthy;
    if !Healthy(log, order[0]) {
      var k :| 0 <= k < n && Healthy(log, order[k]);
      assert order[1..][k - 1] == order[k];
      ActiveInFront(order[1..], log, n - 1);
      var i :| 0 <= i < n - 1 && Active(order[1..], log) == order[1..][i];
      assert order[i + 1] == order[1..][i];
    }
  }

  // --- Whole runs --------------------------------------------------------------------

  /** The path shown: the most preferred profile whose last sample was a success. */
  lemma ActiveNames(log: seq<Sample>)
    ensures Active(ORDER, log)
         == if Healthy(log, "thunderbolt") then "thunderbolt"
            else if Healthy(log, "awdl") then "awdl"
            else if Healthy(log, "lan") then "lan"
            else ""
  {
    hide Healthy;
    var n := if Healthy(log, ORDER[0]) then 0 else if Healthy(log, ORDER[1]) then 1 else if Healthy(log, ORDER[2]) then 2 else 3;
    assert ORDER[0] == "thunderbolt" && ORDER[1] == "awdl" && ORDER[2] == "lan";
    ActiveIs(ORDER, log, n);
  }

  /** Sockets without an error are kept; the others are opened again. */
  function Refreshed(order: seq<string>, endpoints: Endpoints, open: string -> Endpoint): Endpoints
    decreases order
  {
    if order == [] then endpoints
    else
      Refreshed(order[1..],
                if Usable(endpoints, order[0]) then endpoints else endpoints[order[0] := open(order[0])],
                open)
  }

  datatype Mind = Mind(endpoints: Endpoints, log: seq<Sample>)

  function AfterTick(m: Mind, w: World): Mind {
    var endpoints := Refreshed(ORDER, m.endpoints, w.open);
    Mind(endpoints, if w.peer.id == "" then m.log else Sampled(ORDER, endpoints, w, m.log))
  }

  function RunMind(worlds: seq<World>): Mind {
    if worlds == [] then Mind(map[], []) else AfterTick(RunMind(worlds[..|worlds| - 1]), worlds[|worlds| - 1])
  }

  /** A profile of the peer that had an address in one sampled tick has one in all later ones. */
  predicate NeverShrinks(worlds: seq<World>) {
    forall i, j :: 0 <= i < j < |worlds| && worlds[i].peer.id != "" && worlds[j].peer.id != "" ==>
      AddressesStay(worlds[i].peer, worlds[j].peer)
  }

  predicate AddressesStay(before: Peer, after: Peer) {
    forall name <- ORDER :: Address(before, name) != "" ==> Address(after, name) != ""
  }

  /** Only profiles that had an address are ever remembered. */
  lemma {:induction false} RememberedHadAddress(worlds: seq<World>, name: string)
    requires name != ""
    ensures LastOf(RunMind(worlds).log, name).Some? ==>
              exists i :: 0 <= i < |worlds| && worlds[i].peer.id != "" && Address(worlds[i].peer, name) != ""
  {
    hide LastOf, Sampled, Address;
    if worlds == [] {
      NoLast(name);
    } else {
      var front, w := worlds[..|worlds| - 1], worlds[|worlds| - 1];
      var m := RunMind(front);
      RememberedHadAddress(front, name);
      if w.peer.id != "" {
        SampledHadAddress(ORDER, Refreshed(ORDER, m.endpoints, w.open), w, m.log, name);
      }
      if i :| 0 <= i < |front| && front[i].peer.id != "" && Address(front[i].peer, name) != "" {
        assert worlds[i] == front[i];
      }
    }
  }

  lemma SampledHadAddress(order: seq<string>, endpoints: Endpoints, w: World, log: seq<Sample>, name: string)
    requires name != ""
    ensures LastOf(Sampled(order, endpoints, w, log), name).Some? ==>
              LastOf(log, name).Some? || Address(w.peer, name) != ""
  {
    hide LastOf, Failures, Choice;
    var failures, choice := Failures(order, endpoints, w), Choice(order, endpoints, w);
    LastOfAppend(log + failures, [choice], name);
    LastOfAppend(log, failures, name);
    OneSample(choice, name);
    LastOfIn(failures, name);
    TriedHaveAddress(order, endpoints, w);
  }

  lemma {:induction false} TriedHaveAddress(order: seq<string>, endpoints: Endpoints, w: World)
    ensures forall s :: s in Failures(order, endpoints, w) ==> Address(w.peer, s.profile) != ""
    ensures Choice(order, endpoints, w).profile != "" ==> Address(w.peer, Choice(order, endpoints, w).profile) != ""
  {
    hide Address;
    if order != [] {
      TriedHaveAddress(order[1..], endpoints, w);
    }
  }

  /** Over every run whose addresses never shrink: after every tick that sampled, the active
      path is the first profile that succeeded in that tick, or none if none did. */
  lemma {:induction false} ActivePathOverRuns(worlds: seq<World>, n: nat)
    requires worlds != [] && worlds[|worlds| - 1].peer.id != "" && NeverShrinks(worlds)
    requires StopsAt(ORDER, RunMind(worlds).endpoints, worlds[|worlds| - 1], n)
    ensures Active(ORDER, RunMind(worlds).log) == if n < |ORDER| then ORDER[n] else ""
  {
    hide LastOf, Sampled, Address, Active, Choice, Succeeds, Refreshed, Healthy, RunMind;
    var front, w := worlds[..|worlds| - 1], worlds[|worlds| - 1];
    LastTick(worlds);
    HealthyHaveAddress(worlds);
    ActiveExact(ORDER, RunMind(worlds).endpoints, w, RunMind(front).log, n);
    ChoiceIsFirst(ORDER, RunMind(worlds).endpoints, w, n);
  }

  lemma LastTick(worlds: seq<World>)
    requires worlds != [] && worlds[|worlds| - 1].peer.id != ""
    ensures var m, w := RunMind(worlds), worlds[|worlds| - 1];
            m.log == Sampled(ORDER, m.endpoints, w, RunMind(worlds[..|worlds| - 1]).log)
  {
    hide Sampled, Refreshed;
  }

  /** When addresses never shrink, what is healthy from before has an address now. */
  lemma HealthyHaveAddress(worlds: seq<World>)
    requires worlds != [] && worlds[|worlds| - 1].peer.id != "" && NeverShrinks(worlds)
    ensures forall k :: 0 <= k < |ORDER| && Healthy(RunMind(worlds[..|worlds| - 1]).log, ORDER[k]) ==>
              Address(worlds[|worlds| - 1].peer, ORDER[k]) != ""
  {
    hide LastOf, Address, RunMind;
    var front, w := worlds[..|worlds| - 1], worlds[|worlds| - 1];
    forall k | 0 <= k < |ORDER| && Healthy(RunMind(front).log, ORDER[k])
      ensures Address(w.peer, ORDER[k]) != ""
    {
      RememberedHadAddress(front, ORDER[k]);
      var i :| 0 <= i < |front| && front[i].peer.id != "" && Address(front[i].peer, ORDER[k]) != "";
      assert worlds[i] == front[i];
      assert AddressesStay(worlds[i].peer, worlds[|worlds| - 1].peer);
      assert ORDER[k] in ORDER;
    }
  }

  /** So every round of such a run that finds a peer shows the path it chose. */
  lemma EveryRoundShowsItsChoice(worlds: seq<World>, k: nat)
    requires k < |worlds| && worlds[k].peer.id != "" && NeverShrinks(worlds)
    ensures Active(ORDER, RunMind(worlds[..k + 1]).log)
         == Choice(ORDER, RunMind(worlds[..k + 1]).endpoints, worlds[k]).profile
  {
    hide Active, RunMind, Choice, AddressesStay;
    var upto := worlds[..k + 1];
    var n := SomeStop(ORDER, RunMind(upto).endpoints, worlds[k]);
    ActivePathOverRuns(upto, n);
    ChoiceIsFirst(ORDER, RunMind(upto).endpoints, worlds[k], n);
  }

  lemma OneTick(w: World)
    ensures RunMind([w]) == AfterTick(Mind(map[], []), w)
  {
    hide AfterTick;
    assert [w][..|[w]| - 1] == [];
  }

  /** A peer that stops offering Thunderbolt after one good sample: something else is sampled
      now, or nothing, but Thunderbolt is still what is shown. */
  lemma ShrinkingMisleads(w1: World, w2: World)
    requires w1.peer.id != "" && w2.peer.id != ""
    requires w1.open(ORDER[0]).err == "" && w1.reading(ORDER[0]).error == ""
    requires Address(w1.peer, ORDER[0]) != "" && Address(w2.peer, ORDER[0]) == ""
    ensures Choice(ORDER, RunMind([w1, w2]).endpoints, w2).profile != ORDER[0]
    ensures Active(ORDER, RunMind([w1, w2]).log) == ORDER[0]
  {
    hide LastOf, Sampled, Choice, Active, Refreshed;
    OneTick(w1);
    var m1, m2 := RunMind([w1]), RunMind([w1, w2]);
    assert [w1, w2][..1] == [w1];
    RefreshedEach(ORDER, map[], w1.open, ORDER[0]);
    HealthyAfter(ORDER, m1.endpoints, w1, [], 0, 0);
    var n := SomeStop(ORDER, m2.endpoints, w2);
    ChoiceIsFirst(ORDER, m2.endpoints, w2, n);
    HealthyAfter(ORDER, m2.endpoints, w2, m1.log, n, 0);
    ActiveIs(ORDER, m2.log, 0);
  }

  /** Refreshing leaves every profile with a socket, and a usable one untouched. */
  lemma {:induction false} RefreshedEach(order: seq<string>, endpoints: Endpoints, open: string -> Endpoint, name: string)
    requires Distinct(order)
    ensures name in order ==>
              && name in Refreshed(order, endpoints, open)
              && Refreshed(order, endpoints, open)[name]
                 == (if Usable(endpoints, name) then endpoints[name] else open(name))
    ensures name !in order ==>
              && (name in Refreshed(order, endpoints, open) <==> name in endpoints)
              && (name in endpoints ==> Refreshed(order, endpoints, open)[name] == endpoints[name])
    decreases order
  {
    if order != [] {
      var next := if Usable(endpoints, order[0]) then endpoints else endpoints[order[0] := open(order[0])];
      assert order == [order[0]] + order[1..];
      RefreshedEach(order[1..], next, open, name);
    }
  }

  /** A socket that works is kept for the rest of the run. */
  lemma {:induction false} UsableKept(worlds: seq<World>, more: seq<World>, name: string)
    requires name in ORDER && Usable(RunMind(worlds).endpoints, name)
    ensures Usable(RunMind(worlds + more).endpoints, name)
    ensures RunMind(worlds + more).endpoints[name] == RunMind(worlds).endpoints[name]
    decreases more
  {
    hide AfterTick, ORDER;
    if more == [] {
      assert worlds + more == worlds;
    } else {
      var all := worlds + more;
      var w := all[|all| - 1];
      assert all[..|all| - 1] == worlds + more[..|more| - 1];
      UsableKept(worlds, more[..|more| - 1], name);
      TickKeeps(RunMind(worlds + more[..|more| - 1]), w, name);
    }
  }

  lemma TickKeeps(m: Mind, w: World, name: string)
    requires name in ORDER && Usable(m.endpoints, name)
    ensures Usable(AfterTick(m, w).endpoints, name)
    ensures AfterTick(m, w).endpoints[name] == m.endpoints[name]
  {
    hide Sampled, Refreshed;
    RefreshedEach(ORDER, m.endpoints, w.open, name);
  }

  // --- The two stores ----------------------------------------------------------------

  /** The history that is kept: the last sixty of everything remembered. */
  function Recent(log: seq<Sample>): seq<Sample> {
    if |log| > HISTORY then log[|log| - HISTORY..] else log
  }

  /** Its length, and where it comes from. */
  lemma RecentIs(log: seq<Sample>)
    ensures |Recent(log)| == if |log| <= 60 then |log| else 60
    ensures Recent(log) == log[|log| - |Recent(log)|..]
  {}

  /** The index that is kept: for every profile its last sample. */
  ghost predicate Indexed(last: map<string, Sample>, log: seq<Sample>) {
    forall name: string ::
      && (name in last <==> name != "" && LastOf(log, name).Some?)
      && (name in last ==> Some(last[name]) == LastOf(log, name))
  }

  lemma Remembered(last: map<string, Sample>, log: seq<Sample>, s: Sample)
    requires Indexed(last, log)
    ensures Indexed(if s.profile != "" then last[s.profile := s] else last, log + [s])
    ensures Recent(log + [s])
         == (if |Recent(log)| + 1 > HISTORY then (Recent(log) + [s])[|Recent(log)| + 1 - HISTORY..] else Recent(log) + [s])
  {
    hide Recent, LastOf;
    RecentNext(log, s);
    forall name: string
      ensures LastOf(log + [s], name) == if s.profile == name then Some(s) else LastOf(log, name)
    {
      LastOfNext(log, s, name);
    }
  }

  lemma LastOfNext(log: seq<Sample>, s: Sample, name: string)
    ensures LastOf(log + [s], name) == if s.profile == name then Some(s) else LastOf(log, name)
  {
    assert (log + [s])[..|log|] == log;
  }

  lemma RecentNext(log: seq<Sample>, s: Sample)
    ensures Recent(log + [s])
         == (if |Recent(log)| + 1 > HISTORY then (Recent(log) + [s])[|Recent(log)| + 1 - HISTORY..] else Recent(log) + [s])
  {
    if |log| >= HISTORY {
      var n := |log| - HISTORY;
      assert log[n..] + [s] == (log + [s])[n..];
      assert (log + [s])[n..][1..] == (log + [s])[n + 1..];
    }
  }

  // --- Sockets -----------------------------------------------------------------------

  function Current(endpoints: Endpoints, name: string): multiset<Endpoint> {
    if name in endpoints then multiset{endpoints[name]} else multiset{}
  }

  /** The sockets held, profile by profile. */
  function Held(order: seq<string>, endpoints: Endpoints): multiset<Endpoint> {
    if order == [] then multiset{} else Current(endpoints, order[0]) + Held(order[1..], endpoints)
  }

  lemma {:induction false} HeldOther(order: seq<string>, endpoints: Endpoints, name: string, e: Endpoint)
    requires name !in order
    ensures Held(order, endpoints[name := e]) == Held(order, endpoints)
  {
    if order != [] {
      assert order == [order[0]] + order[1..];
      HeldOther(order[1..], endpoints, name, e);
    }
  }

  /** Opening a socket for a profile replaces the one it had, and no other. */
  lemma {:induction false} HeldUpdate(order: seq<string>, endpoints: Endpoints, name: string, e: Endpoint)
    requires Distinct(order) && name in order
    ensures Held(order, endpoints[name := e]) + Current(endpoints, name) == Held(order, endpoints) + multiset{e}
  {
    assert order == [order[0]] + order[1..];
    if order[0] == name {
      HeldOther(order[1..], endpoints, name, e);
    } else {
      HeldUpdate(order[1..], endpoints, name, e);
      var next, rest := endpoints[name := e], order[1..];
      Regroup(Current(endpoints, order[0]), Held(rest, next), Current(endpoints, name), Held(rest, endpoints), multiset{e});
    }
  }

  lemma Regroup(a: multiset<Endpoint>, b: multiset<Endpoint>, c: multiset<Endpoint>, d: multiset<Endpoint>, e: multiset<Endpoint>)
    requires b + c == d + e
    ensures (a + b) + c == (a + d) + e
  {
    assert (a + b) + c == a + (b + c);
  }
}
