/** The link-health agent: the object whose ticks refresh sockets, publish, sample and report. */
module Agent {
  import opened Common
  import opened Health
  import opened Text
  import A = Advert
  import S = Signature

  // --- Metadata ----------------------------------------------------------------------

  const MODES: string :=
    "answer-bonjour,discover," + "discover-wait,offer-bonjour," + "ui,udp,udp-perf," + "udp-latency,webrtc"

  /** What the agent knows about itself. */
  datatype Identity = Identity(service: string, host: string, version: string, commit: string, modified: string)

  function Named(id: Identity): A.Meta {
    var meta := map["id" := id.service, "name" := id.host, "modes" := MODES, "version" := id.version];
    var meta := if id.commit != "" then meta["commit" := id.commit] else meta;
    if id.modified != "" then meta["vcs_modified" := id.modified] else meta
  }

  function WithAddress(meta: A.Meta, endpoints: Endpoints, name: string): A.Meta {
    if !Usable(endpoints, name) || endpoints[name].local.None? then meta
    else meta[name := endpoints[name].local.value][name + "_if" := endpoints[name].iface]
  }

  function WithAddresses(meta: A.Meta, order: seq<string>, endpoints: Endpoints): A.Meta
    decreases order
  {
    if order == [] then meta else WithAddresses(WithAddress(meta, endpoints, order[0]), order[1..], endpoints)
  }

  function Metadata(id: Identity, endpoints: Endpoints): A.Meta {
    WithAddresses(Named(id), ORDER, endpoints)
  }

  /** What the metadata say, key by key: the identity's values, and for each profile the local
      address of its socket and the interface under it, if the socket is up. */
  ghost predicate Describes(meta: A.Meta, id: Identity, endpoints: Endpoints) {
    && Says(meta, "id", true, id.service) && Says(meta, "name", true, id.host)
    && Says(meta, "modes", true, Join(["answer-bonjour", "discover", "discover-wait", "offer-bonjour", "ui", "udp",
                                       "udp-perf", "udp-latency", "webrtc"], ","))
    && Says(meta, "version", true, id.version)
    && Says(meta, "commit", id.commit != "", id.commit)
    && Says(meta, "vcs_modified", id.modified != "", id.modified)
    && SaysProfile(meta, endpoints, "thunderbolt", "thunderbolt_if")
    && SaysProfile(meta, endpoints, "awdl", "awdl_if")
    && SaysProfile(meta, endpoints, "lan", "lan_if")
    && meta.Keys <= {"id", "name", "modes", "version", "commit", "vcs_modified", "thunderbolt", "thunderbolt_if",
                     "awdl", "awdl_if", "lan", "lan_if"}
  }

  /** The key is there if and only if `there`, and then holds the value. */
  predicate Says(meta: A.Meta, key: string, there: bool, value: string) {
    (key in meta <==> there) && (there ==> meta[key] == value)
  }

  predicate Up(endpoints: Endpoints, name: string) {
    name in endpoints && endpoints[name].err == "" && endpoints[name].local.Some?
  }

  ghost predicate SaysProfile(meta: A.Meta, endpoints: Endpoints, name: string, nameIf: string) {
    if Up(endpoints, name) then
      Says(meta, name, true, endpoints[name].local.value) && Says(meta, nameIf, true, endpoints[name].iface)
    else name !in meta && nameIf !in meta
  }

  function Lookup(meta: A.Meta, key: string): Option<string> {
    if key in meta then Some(meta[key]) else None
  }

  lemma LookupAddress(meta: A.Meta, endpoints: Endpoints, name: string, nameIf: string, key: string)
    requires name + "_if" == nameIf
    ensures Lookup(WithAddress(meta, endpoints, name), key)
         == if Up(endpoints, name) && key == nameIf then Some(endpoints[name].iface)
            else if Up(endpoints, name) && key == name then Some(endpoints[name].local.value)
            else Lookup(meta, key)
  {}

  lemma InOrder(id: Identity, endpoints: Endpoints)
    ensures Metadata(id, endpoints)
         == WithAddress(WithAddress(WithAddress(Named(id), endpoints, "thunderbolt"), endpoints, "awdl"), endpoints, "lan")
  {
    hide Named, WithAddress;
    assert ORDER[1..] == ["awdl", "lan"] && ["awdl", "lan"][1..] == ["lan"] && ["lan"][1..] == [];
  }

  lemma IfNames()
    ensures "thunderbolt" + "_if" == "thunderbolt_if" && "awdl" + "_if" == "awdl_if" && "lan" + "_if" == "lan_if"
  {}

  /** Whoever wrote a key last decides. */
  lemma LookupMetadata(id: Identity, endpoints: Endpoints, key: string)
    ensures Lookup(Metadata(id, endpoints), key)
         == if Up(endpoints, "lan") && key == "lan_if" then Some(endpoints["lan"].iface)
            else if Up(endpoints, "lan") && key == "lan" then Some(endpoints["lan"].local.value)
            else if Up(endpoints, "awdl") && key == "awdl_if" then Some(endpoints["awdl"].iface)
            else if Up(endpoints, "awdl") && key == "awdl" then Some(endpoints["awdl"].local.value)
            else if Up(endpoints, "thunderbolt") && key == "thunderbolt_if" then Some(endpoints["thunderbolt"].iface)
            else if Up(endpoints, "thunderbolt") && key == "thunderbolt" then Some(endpoints["thunderbolt"].local.value)
            else Lookup(Named(id), key)
  {
    hide Named, WithAddress, Lookup, Metadata, Up;
    InOrder(id, endpoints);
    IfNames();
    var m1 := WithAddress(Named(id), endpoints, "thunderbolt");
    LookupAddress(Named(id), endpoints, "thunderbolt", "thunderbolt_if", key);
    LookupAddress(m1, endpoints, "awdl", "awdl_if", key);
    LookupAddress(WithAddress(m1, endpoints, "awdl"), endpoints, "lan", "lan_if", key);
  }

  lemma NamedSays(id: Identity)
    ensures var meta := Named(id);
            && Says(meta, "id", true, id.service) && Says(meta, "name", true, id.host)
            && Says(meta, "modes", true, MODES) && Says(meta, "version", true, id.version)
            && Says(meta, "commit", id.commit != "", id.commit)
            && Says(meta, "vcs_modified", id.modified != "", id.modified)
            && meta.Keys <= NAMES
  {
    hide MODES;
  }

  lemma NamedKept(id: Identity, endpoints: Endpoints, key: string)
    requires key in NAMES
    ensures Lookup(Metadata(id, endpoints), key) == Lookup(Named(id), key)
  {
    hide Named, Lookup, Metadata, Up;
    LookupMetadata(id, endpoints, key);
    assert "name"[0] != "awdl"[0] && "version"[0] != "awdl_if"[0] && "commit"[0] != "lan_if"[0];
  }

  lemma NoProfileNamed(id: Identity)
    ensures forall key :: key in {"thunderbolt", "thunderbolt_if", "awdl", "awdl_if", "lan", "lan_if"} ==>
              Lookup(Named(id), key) == None
  {
    hide MODES;
    NamedSays(id);
    assert "name"[0] != "awdl"[0] && "version"[0] != "awdl_if"[0] && "commit"[0] != "lan_if"[0];
  }

  lemma ProfilesSay(id: Identity, endpoints: Endpoints)
    ensures var meta := Metadata(id, endpoints);
            && SaysProfile(meta, endpoints, "thunderbolt", "thunderbolt_if")
            && SaysProfile(meta, endpoints, "awdl", "awdl_if")
            && SaysProfile(meta, endpoints, "lan", "lan_if")
  {
    hide Named, Metadata, Up;
    NoProfileNamed(id);
    LookupMetadata(id, endpoints, "thunderbolt");
    LookupMetadata(id, endpoints, "thunderbolt_if");
    LookupMetadata(id, endpoints, "awdl");
    LookupMetadata(id, endpoints, "awdl_if");
    LookupMetadata(id, endpoints, "lan");
    LookupMetadata(id, endpoints, "lan_if");
  }

  lemma JoinFront(first: string, rest: seq<string>)
    requires rest != []
    ensures Join([first] + rest, ",") == (first + ",") + Join(rest, ",")
  {
    assert ([first] + rest)[1..] == rest;
  }

  lemma LastModes()
    ensures Join(["ui", "udp", "udp-perf", "udp-latency", "webrtc"], ",") == "ui,udp,udp-perf," + "udp-latency,webrtc"
  {
    hide Join;
    JoinFront("udp-latency", ["webrtc"]);
    JoinFront("udp-perf", ["udp-latency", "webrtc"]);
    JoinFront("udp", ["udp-perf", "udp-latency", "webrtc"]);
    JoinFront("ui", ["udp", "udp-perf", "udp-latency", "webrtc"]);
    assert Join(["webrtc"], ",") == "webrtc" by { JoinOne("webrtc"); }
    assert ["udp-latency"] + ["webrtc"] == ["udp-latency", "webrtc"];
    assert ["udp-perf"] + ["udp-latency", "webrtc"] == ["udp-perf", "udp-latency", "webrtc"];
    assert ["udp"] + ["udp-perf", "udp-latency", "webrtc"] == ["udp", "udp-perf", "udp-latency", "webrtc"];
    assert ["ui"] + ["udp", "udp-perf", "udp-latency", "webrtc"] == ["ui", "udp", "udp-perf", "udp-latency", "webrtc"];
    assert "udp-latency" + "," + "webrtc" == "udp-latency,webrtc";
    assert "ui" + "," + ("udp" + "," + ("udp-perf" + ",")) == "ui,udp,udp-perf,";
  }

  lemma JoinOne(item: string)
    ensures Join([item], ",") == item
  {}

  lemma ModesAre()
    ensures MODES == Join(["answer-bonjour", "discover", "discover-wait", "offer-bonjour", "ui", "udp",
                           "udp-perf", "udp-latency", "webrtc"], ",")
  {
    hide Join;
    LastModes();
    var tail := ["ui", "udp", "udp-perf", "udp-latency", "webrtc"];
    JoinFront("offer-bonjour", tail);
    JoinFront("discover-wait", ["offer-bonjour"] + tail);
    JoinFront("discover", ["discover-wait"] + (["offer-bonjour"] + tail));
    JoinFront("answer-bonjour", ["discover"] + (["discover-wait"] + (["offer-bonjour"] + tail)));
    assert ["answer-bonjour"] + (["discover"] + (["discover-wait"] + (["offer-bonjour"] + tail)))
        == ["answer-bonjour", "discover", "discover-wait", "offer-bonjour", "ui", "udp", "udp-perf", "udp-latency", "webrtc"];
    FrontModes();
  }

  lemma FrontModes()
    ensures ("answer-bonjour" + ",") + ("discover" + ",") == "answer-bonjour,discover,"
    ensures ("discover-wait" + ",") + ("offer-bonjour" + ",") == "discover-wait,offer-bonjour,"
  {}

  lemma MetadataDescribes(id: Identity, endpoints: Endpoints)
    ensures Describes(Metadata(id, endpoints), id, endpoints)
  {
    hide Named, Metadata, SaysProfile, MODES, Up, Join;
    ModesAre();
    NamedSays(id);
    ProfilesSay(id, endpoints);
    NamedKept(id, endpoints, "id");
    NamedKept(id, endpoints, "name");
    NamedKept(id, endpoints, "modes");
    NamedKept(id, endpoints, "version");
    NamedKept(id, endpoints, "commit");
    NamedKept(id, endpoints, "vcs_modified");
    forall key <- Metadata(id, endpoints).Keys
      ensures key in NAMES || key in {"thunderbolt", "thunderbolt_if", "awdl", "awdl_if", "lan", "lan_if"}
    {
      LookupMetadata(id, endpoints, key);
    }
  }

  predicate OneLine(s: string) {
    '\n' !in s
  }

  predicate OneLineEach(id: Identity) {
    OneLine(id.service) && OneLine(id.host) && OneLine(id.version) && OneLine(id.commit) && OneLine(id.modified)
  }

  predicate OneLineSockets(endpoints: Endpoints) {
    forall name <- endpoints.Keys ::
      OneLine(endpoints[name].iface) && (endpoints[name].local.Some? ==> OneLine(endpoints[name].local.value))
  }

  /** The agent's own metadata are what the cache's laws ask for, as long as no value holds a
      newline. */
  lemma MetadataProper(id: Identity, endpoints: Endpoints)
    requires OneLineEach(id) && OneLineSockets(endpoints)
    ensures A.Proper(Metadata(id, endpoints))
  {
    hide PlainName, A.Proper, Named, WithAddresses, OneLineEach, OneLineSockets;
    NamedProper(id);
    OrderPlain();
    AddressesProper(Named(id), ORDER, endpoints);
  }

  predicate PlainName(name: string) {
    S.CleanKey(name) && !(S.ERROR <= name) && !(S.ERROR <= name + "_if")
  }

  lemma OrderPlain()
    ensures forall k :: 0 <= k < |ORDER| ==> PlainName(ORDER[k])
  {
    hide PlainName, S.CleanKey;
    ProfilesClean();
    PlainIf("thunderbolt");
    PlainIf("awdl");
    PlainIf("lan");
  }

  lemma ProfilesClean()
    ensures S.CleanKey("thunderbolt") && S.CleanKey("awdl") && S.CleanKey("lan")
  {}

  lemma PlainIf(name: string)
    requires S.CleanKey(name) && name != "" && name[0] != 'e'
    ensures PlainName(name)
  {
    assert (name + "_if")[0] == name[0];
  }

  lemma NamedProper(id: Identity)
    requires OneLineEach(id)
    ensures A.Proper(Named(id))
  {
    hide OneLine, S.CleanKey, MODES;
    var meta := Named(id);
    assert "id" in meta;
    NameKeys();
    ModesOneLine();
    forall key <- meta.Keys
      ensures S.CleanKey(key) && !(S.ERROR <= key) && OneLine(meta[key])
    {
      assert key in NAMES;
    }
    OneLines(meta);
  }

  const NAMES: set<string> := {"id", "name", "modes", "version", "commit", "vcs_modified"}

  lemma NameKeys()
    ensures forall key <- NAMES :: S.CleanKey(key) && !(S.ERROR <= key)
  {
    assert S.CleanKey("id") && S.CleanKey("name") && S.CleanKey("modes") && S.CleanKey("version");
    assert S.CleanKey("commit") && S.CleanKey("vcs_modified");
    assert "id"[0] != 'e' && "name"[0] != 'e' && "modes"[0] != 'e' && "version"[0] != 'e';
    assert "commit"[0] != 'e' && "vcs_modified"[0] != 'e';
  }

  lemma ModesOneLine()
    ensures OneLine(MODES)
  {
    assert OneLine("answer-bonjour,discover,") && OneLine("discover-wait,offer-bonjour,");
    assert OneLine("ui,udp,udp-perf,") && OneLine("udp-latency,webrtc");
  }

  lemma OneLines(meta: A.Meta)
    requires meta.Keys != {}
    requires forall key <- meta.Keys :: S.CleanKey(key) && !(S.ERROR <= key) && OneLine(meta[key])
    ensures A.Proper(meta)
  {}

  lemma {:induction false} AddressesProper(meta: A.Meta, order: seq<string>, endpoints: Endpoints)
    requires A.Proper(meta) && OneLineSockets(endpoints)
    requires forall k :: 0 <= k < |order| ==> PlainName(order[k])
    ensures A.Proper(WithAddresses(meta, order, endpoints))
    decreases order
  {
    hide PlainName;
    if order != [] {
      AddressProper(meta, endpoints, order[0]);
      AddressesProper(WithAddress(meta, endpoints, order[0]), order[1..], endpoints);
    }
  }

  lemma AddressProper(meta: A.Meta, endpoints: Endpoints, name: string)
    requires A.Proper(meta) && OneLineSockets(endpoints) && PlainName(name)
    ensures A.Proper(WithAddress(meta, endpoints, name))
  {
    var after := WithAddress(meta, endpoints, name);
    if after != meta {
      var key :| key in meta.Keys;
      assert key in after.Keys;
    }
  }

  // --- Reports -----------------------------------------------------------------------

  datatype Status = Waiting | NoPath | Sampling(profile: string) | NoBrowser(error: string)

  datatype Link = Link(profile: string, ready: bool, iface: string, local: string, remote: string, error: string,
                       last: Option<Sample>)

  datatype Snapshot = Snapshot(active: string, peer: Peer, links: seq<Link>, samples: seq<Sample>, status: Status)

  function LinkOf(endpoints: Endpoints, log: seq<Sample>, peer: Peer, name: string): Link {
    var blank := Link(name, false, "", "", Address(peer, name), "", LastOf(log, name));
    if name !in endpoints then blank
    else
      var e := endpoints[name];
      if e.err == "" && e.local.Some? then blank.(ready := true, iface := e.iface, local := e.local.value)
      else blank.(iface := e.iface, error := e.err)
  }

  /** Column by column: the socket's interface, error and local address, the peer's address for
      the profile, and its last sample. */
  predicate Column(link: Link, endpoints: Endpoints, log: seq<Sample>, peer: Peer, name: string) {
    && link.profile == name
    && (link.ready <==> Up(endpoints, name))
    && link.local == (if Up(endpoints, name) then endpoints[name].local.value else "")
    && link.iface == (if name in endpoints then endpoints[name].iface else "")
    && link.error == (if name in endpoints then endpoints[name].err else "")
    && link.remote == (if name in peer.addrs then peer.addrs[name] else "")
    && link.last == LastOf(log, name)
  }

  lemma LinkSays(endpoints: Endpoints, log: seq<Sample>, peer: Peer, name: string)
    ensures Column(LinkOf(endpoints, log, peer, name), endpoints, log, peer, name)
  {}

  /** One link for each profile, the most preferred first. */
  predicate Columns(links: seq<Link>, endpoints: Endpoints, log: seq<Sample>, peer: Peer) {
    && |links| == 3
    && Column(links[0], endpoints, log, peer, "thunderbolt")
    && Column(links[1], endpoints, log, peer, "awdl")
    && Column(links[2], endpoints, log, peer, "lan")
  }

  lemma LinksSay(links: seq<Link>, endpoints: Endpoints, log: seq<Sample>, peer: Peer)
    requires |links| == |ORDER|
    requires forall k :: 0 <= k < |ORDER| ==> links[k] == LinkOf(endpoints, log, peer, ORDER[k])
    ensures Columns(links, endpoints, log, peer)
  {
    hide LinkOf, Column;
    assert ORDER[0] == "thunderbolt" && ORDER[1] == "awdl" && ORDER[2] == "lan";
    LinkSays(endpoints, log, peer, "thunderbolt");
    LinkSays(endpoints, log, peer, "awdl");
    LinkSays(endpoints, log, peer, "lan");
  }

  const NOBODY := Peer("", "", map[])

  /** Sockets are held for known profiles only, and what was opened is held or closed. */
  ghost predicate Balanced(everOpened: multiset<Endpoint>, everClosed: multiset<Endpoint>, endpoints: Endpoints) {
    && endpoints.Keys <= (set name <- ORDER)
    && everOpened == everClosed + Held(ORDER, endpoints)
  }

  class LinkHealthAgent {
    const id: Identity
    var endpoints: Endpoints
    var lastSamples: map<string, Sample>
    var samples: seq<Sample>
    var advertised: string
    var advertiser: Option<A.Meta>
    var calls: seq<A.Call>

    /** Everything ever remembered, every socket ever opened and every one closed. */
    ghost var log: seq<Sample>
    ghost var everOpened: multiset<Endpoint>
    ghost var everClosed: multiset<Endpoint>

    ghost predicate Valid()
      reads this
    {
      && Indexed(lastSamples, log) && samples == Recent(log)
      && Balanced(everOpened, everClosed, endpoints)
    }

    ghost function Thoughts(): Mind
      reads this
    {
      Mind(endpoints, log)
    }

    ghost function Cache(): A.State
      reads this
    {
      A.State(advertised, advertiser, calls)
    }

    constructor (id: Identity)
      ensures Valid() && this.id == id
      ensures Thoughts() == RunMind([]) && Cache() == A.INITIAL
      ensures everOpened == multiset{}
    {
      this.id := id;
      endpoints, lastSamples, samples := map[], map[], [];
      advertised, advertiser, calls := "", None, [];
      log, everOpened, everClosed := [], multiset{}, multiset{};
      new;
      NothingHeld(ORDER);
    }

    method Remember(sample: Sample)
      requires Valid()
      modifies this`lastSamples, this`samples, this`log
      ensures Valid() && log == old(log) + [sample]
    {
      Remembered(lastSamples, log, sample);
      if sample.profile != "" {
        lastSamples := lastSamples[sample.profile := sample];
      }
      samples := samples + [sample];
      if |samples| > 60 {
        samples := samples[|samples| - 60..];
      }
      log := log + [sample];
    }

    method SamplePreferred(w: World) returns (sample: Sample)
      requires Valid()
      modifies this`lastSamples, this`samples, this`log
      ensures Valid()
      ensures log == old(log) + Failures(ORDER, endpoints, w)
      ensures sample == Choice(ORDER, endpoints, w)
    {
      hide Indexed, Recent, Held, LastOf;
      assert ORDER[0..] == ORDER;
      for k := 0 to |ORDER|
        invariant Valid()
        invariant log + Failures(ORDER[k..], endpoints, w) == old(log) + Failures(ORDER, endpoints, w)
        invariant Choice(ORDER[k..], endpoints, w) == Choice(ORDER, endpoints, w)
      {
        var name := ORDER[k];
        assert ORDER[k..][1..] == ORDER[k + 1..];
        var remote := Address(w.peer, name);
        if remote == "" {
          continue;
        }
        ghost var before := log;
        if !(name in endpoints) || endpoints[name].err != "" {
          Remember(Sample(name, w.peer.name, "local unavailable", 0));
          Regrouped(before, log[|log| - 1], Failures(ORDER[k + 1..], endpoints, w));
          continue;
        }
        var reading := w.reading(name);
        var taken := Sample(name, w.peer.name, reading.error, reading.figures);
        if taken.error == "" {
          return taken;
        }
        Remember(taken);
        Regrouped(before, taken, Failures(ORDER[k + 1..], endpoints, w));
      }
      sample := Sample("", w.peer.name, "no shared path", 0);
    }

    method TakeSnapshot(status: Status, peer: Peer) returns (snap: Snapshot)
      requires Valid()
      ensures snap.active == Active(ORDER, log) && snap.samples == Recent(log)
      ensures snap.peer == peer && snap.status == status
      ensures Columns(snap.links, endpoints, log, peer)
    {
      hide Recent, Balanced, LastOf, Active, Indexed, Columns;
      ActiveNone(log);
      var links: seq<Link> := [];
      var active := "";
      assert ORDER[0..] == ORDER;
      for k := 0 to |ORDER|
        invariant |links| == k && forall i :: 0 <= i < k ==> links[i] == LinkOf(endpoints, log, peer, ORDER[i])
        invariant Active(ORDER, log) == if active != "" then active else Active(ORDER[k..], log)
      {
        var name := ORDER[k];
        ActiveStep(ORDER, k, log);
        IndexedAt(lastSamples, log, name);
        var link := Link(name, false, "", "", "", "", None);
        if name in endpoints {
          var endpoint := endpoints[name];
          link := link.(iface := endpoint.iface, error := endpoint.err);
          if endpoint.err == "" && endpoint.local.Some? {
            link := link.(ready := true, local := endpoint.local.value);
          }
        }
        link := link.(remote := Address(peer, name));
        if name in lastSamples {
          var last := lastSamples[name];
          link := link.(last := Some(last));
          if last.error == "" && active == "" {
            active := name;
          }
        }
        links := links + [link];
      }
      assert ORDER[|ORDER|..] == [];
      LinksSay(links, endpoints, log, peer);
      snap := Snapshot(active, peer, links, samples, status);
    }

    method Refresh(open: string -> Endpoint)
      requires Valid()
      modifies this`endpoints, this`everOpened, this`everClosed
      ensures Valid()
      ensures endpoints == Refreshed(ORDER, old(endpoints), open)
    {
      hide Refreshed, Balanced, Indexed, Recent, Current;
      assert ORDER[0..] == ORDER;
      RefreshedDone(open);
      for k := 0 to |ORDER|
        invariant Valid()
        invariant Refreshed(ORDER[k..], endpoints, open) == Refreshed(ORDER, old(endpoints), open)
      {
        var name := ORDER[k];
        RefreshedStep(ORDER[k..], endpoints, open);
        assert ORDER[k..][1..] == ORDER[k + 1..];
        if name in endpoints && endpoints[name].err == "" {
          continue;
        }
        var endpoint := open(name);
        Reopened(everOpened, everClosed, endpoints, name, endpoint);
        everOpened := everOpened + multiset{endpoint};
        everClosed := everClosed + Current(endpoints, name);
        endpoints := endpoints[name := endpoint];
      }
    }

    method BuildMetadata() returns (meta: A.Meta)
      ensures meta == Metadata(id, endpoints) && Describes(meta, id, endpoints)
    {
      hide Describes;
      MetadataDescribes(id, endpoints);
      meta := map["id" := id.service, "name" := id.host, "modes" := MODES, "version" := id.version];
      if id.commit != "" {
        meta := meta["commit" := id.commit];
      }
      if id.modified != "" {
        meta := meta["vcs_modified" := id.modified];
      }
      assert ORDER[0..] == ORDER;
      for k := 0 to |ORDER|
        invariant WithAddresses(meta, ORDER[k..], endpoints) == Metadata(id, endpoints)
      {
        var name := ORDER[k];
        assert ORDER[k..][1..] == ORDER[k + 1..];
        if name !in endpoints || endpoints[name].err != "" || endpoints[name].local.None? {
          continue;
        }
        meta := meta[name := endpoints[name].local.value];
        meta := meta[name + "_if" := endpoints[name].iface];
      }
    }

    method Publish(start: Option<string>)
      modifies this`advertised, this`advertiser, this`calls
      ensures Cache() == A.Next(old(Cache()), Metadata(id, endpoints), start)
      ensures old(advertised) != S.Signature(Metadata(id, endpoints)) ==>
                && advertiser == Some(Metadata(id, endpoints))
                && advertised == if start.Some? then "error:" + start.value else S.Signature(Metadata(id, endpoints))
    {
      hide Describes, Metadata;
      var meta := BuildMetadata();
      var sig := S.MetadataSignature(meta);
      if sig == advertised {
        return;
      }
      if advertiser.Some? {
        calls := calls + [A.Stopped(advertiser.value)];
      }
      advertiser := Some(meta);
      calls := calls + [A.Started(meta, start.None?)];
      if start.Some? {
        advertised := "error:" + start.value;
        return;
      }
      advertised := sig;
    }

    /** One round of the loop. */
    method Tick(w: World) returns (snap: Snapshot)
      requires Valid()
      modifies this
      ensures Valid()
      ensures Thoughts() == AfterTick(old(Thoughts()), w)
      ensures Cache() == A.Next(old(Cache()), Metadata(id, endpoints), w.start)
      ensures snap.active == Active(ORDER, log) && snap.samples == Recent(log) && snap.peer == w.peer
      ensures snap.status == StatusOf(endpoints, w) && Columns(snap.links, endpoints, log, w.peer)
      ensures w.peer.id == "" ==> log == old(log)
      ensures w.peer.id != "" ==>
                log == old(log) + Failures(ORDER, endpoints, w) + [Choice(ORDER, endpoints, w)]
    {
      hide Columns, Indexed, Recent, Held, LastOf, Refreshed, Failures, Choice, Active, Succeeds, Metadata, A.Next, LinkOf, StatusOf;
      Refresh(w.open);
      Publish(w.start);
      ChoiceStatus(endpoints, w);
      if w.peer.id == "" {
        snap := TakeSnapshot(Waiting, w.peer);
        return;
      }
      var sample := SamplePreferred(w);
      Remember(sample);
      if sample.error != "" {
        snap := TakeSnapshot(NoPath, w.peer);
        return;
      }
      snap := TakeSnapshot(Sampling(sample.profile), w.peer);
    }

    method Close()
      requires Valid()
      modifies this`endpoints, this`advertiser, this`calls, this`everClosed
      ensures Valid() && everOpened == everClosed && endpoints == map[]
      ensures advertiser == None
      ensures calls == old(calls) + (if old(advertiser).Some? then [A.Stopped(old(advertiser).value)] else [])
    {
      hide Indexed, Recent, Held;
      everClosed := everClosed + Held(ORDER, endpoints);
      endpoints := map[];
      NothingHeld(ORDER);
      if advertiser.Some? {
        calls := calls + [A.Stopped(advertiser.value)];
        advertiser := None;
      }
    }

    /** A first round without a peer, one round per tick, then the end. */
    method Rounds(first: World, ticks: seq<World>) returns (updates: seq<Snapshot>)
      requires Valid() && Thoughts() == RunMind([]) && Cache() == A.INITIAL
      requires first.peer == NOBODY
      modifies this
      ensures Valid() && log == RunMind([first] + ticks).log && everOpened == everClosed
      ensures |updates| == 1 + |ticks|
      ensures forall k :: 0 <= k < |updates| ==> Shows(updates[k], [first] + ticks, k)
      ensures var last := A.After(Publications(id, [first] + ticks));
              calls == last.calls + (if last.advertiser.Some? then [A.Stopped(last.advertiser.value)] else [])
    {
      hide Columns, Active, Recent, RunMind, AfterTick, StatusOf, Publications, A.After, A.Next, Metadata, Valid;
      ghost var all := [first] + ticks;
      RunStart(id, all);
      RunStep(id, all, 0);
      var snap := Tick(first);
      updates := [snap];
      for k := 0 to |ticks|
        invariant Valid() && |updates| == k + 1
        invariant Thoughts() == RunMind(all[..k + 1])
        invariant Cache() == A.After(Publications(id, all[..k + 1]))
        invariant forall i :: 0 <= i < k + 1 ==> Shows(updates[i], all, i)
      {
        RunStep(id, all, k + 1);
        snap := Tick(ticks[k]);
        updates := updates + [snap];
      }
      assert all[..|ticks| + 1] == all;
      Close();
    }

    /** The whole run. If the browser does not start it says so, and does nothing else. */
    method Run(browser: Option<string>, first: World, ticks: seq<World>) returns (updates: seq<Snapshot>)
      requires Valid() && Thoughts() == RunMind([]) && Cache() == A.INITIAL
      requires first.peer == NOBODY
      modifies this
      ensures Valid()
      ensures browser.Some? ==>
                && updates == [Snapshot("", NOBODY, [], [], NoBrowser(browser.value))]
                && Thoughts() == old(Thoughts()) && Cache() == old(Cache())
                && everOpened == old(everOpened) && everClosed == old(everClosed)
      ensures browser.None? ==>
                && log == RunMind([first] + ticks).log && everOpened == everClosed
                && |updates| == 1 + |ticks|
                && (forall k :: 0 <= k < |updates| ==> Shows(updates[k], [first] + ticks, k))
                && var last := A.After(Publications(id, [first] + ticks));
                   calls == last.calls + (if last.advertiser.Some? then [A.Stopped(last.advertiser.value)] else [])
    {
      hide RunMind, A.After, Publications, Shows, Valid;
      if browser.Some? {
        return [Snapshot("", NOBODY, [], [], NoBrowser(browser.value))];
      }
      updates := Rounds(first, ticks);
    }
  }

  /** What round `k` of a run reports: all of it a function of the run so far. */
  ghost predicate Shows(snap: Snapshot, worlds: seq<World>, k: nat)
    requires k < |worlds|
  {
    && snap.active == Active(ORDER, RunMind(worlds[..k + 1]).log)
    && snap.samples == Recent(RunMind(worlds[..k + 1]).log)
    && snap.peer == worlds[k].peer
    && snap.status == StatusOf(RunMind(worlds[..k + 1]).endpoints, worlds[k])
    && Columns(snap.links, RunMind(worlds[..k + 1]).endpoints, RunMind(worlds[..k + 1]).log, worlds[k].peer)
  }

  lemma ActiveNone(log: seq<Sample>)
    ensures Active([], log) == ""
  {}

  lemma ActiveStep(order: seq<string>, k: nat, log: seq<Sample>)
    requires k < |order|
    ensures Active(order[k..], log) == if Healthy(log, order[k]) then order[k] else Active(order[k + 1..], log)
  {
    assert order[k..][1..] == order[k + 1..];
  }

  lemma IndexedAt(last: map<string, Sample>, log: seq<Sample>, name: string)
    requires Indexed(last, log) && name != ""
    ensures LastOf(log, name) == if name in last then Some(last[name]) else None
  {}

  lemma {:induction false} NothingHeld(order: seq<string>)
    ensures Held(order, map[]) == multiset{}
  {
    if order != [] {
      NothingHeld(order[1..]);
    }
  }

  lemma Reopened(everOpened: multiset<Endpoint>, everClosed: multiset<Endpoint>, endpoints: Endpoints,
                 name: string, e: Endpoint)
    requires Balanced(everOpened, everClosed, endpoints) && name in ORDER
    ensures Balanced(everOpened + multiset{e}, everClosed + Current(endpoints, name), endpoints[name := e])
  {
    hide Held, Current;
    HeldUpdate(ORDER, endpoints, name, e);
    Replaced(everOpened, everClosed, Held(ORDER, endpoints), Held(ORDER, endpoints[name := e]),
             Current(endpoints, name), multiset{e});
    assert name in (set n <- ORDER);
  }

  /** Opening one socket and closing the one it replaces keeps the balance. */
  lemma Replaced(everOpened: multiset<Endpoint>, everClosed: multiset<Endpoint>, held: multiset<Endpoint>,
                 after: multiset<Endpoint>, gone: multiset<Endpoint>, come: multiset<Endpoint>)
    requires everOpened == everClosed + held && after + gone == held + come
    ensures everOpened + come == (everClosed + gone) + after
  {
    assert everOpened + come == everClosed + (held + come);
    assert (everClosed + gone) + after == everClosed + (after + gone);
  }

  lemma RefreshedDone(open: string -> Endpoint)
    ensures forall endpoints :: Refreshed([], endpoints, open) == endpoints
  {}

  lemma RefreshedStep(order: seq<string>, endpoints: Endpoints, open: string -> Endpoint)
    requires order != []
    ensures Refreshed(order, endpoints, open)
         == Refreshed(order[1..],
                      if Usable(endpoints, order[0]) then endpoints else endpoints[order[0] := open(order[0])],
                      open)
  {}

  lemma RunStep(id: Identity, all: seq<World>, k: nat)
    requires k < |all|
    ensures RunMind(all[..k + 1]) == AfterTick(RunMind(all[..k]), all[k])
    ensures A.After(Publications(id, all[..k + 1]))
         == A.Next(A.After(Publications(id, all[..k])), Metadata(id, RunMind(all[..k + 1]).endpoints), all[k].start)
  {
    hide AfterTick, A.Next, Metadata;
    var now, before := all[..k + 1], all[..k];
    assert now[..k] == before;
    var ticks := Publications(id, now);
    assert ticks[..|ticks| - 1] == Publications(id, before);
  }

  lemma RunStart(id: Identity, all: seq<World>)
    ensures all[..0] == [] && A.After(Publications(id, [])) == A.INITIAL
  {}

  function StatusOf(endpoints: Endpoints, w: World): Status {
    if w.peer.id == "" then Waiting
    else if forall k :: 0 <= k < |ORDER| ==> !Succeeds(endpoints, w, ORDER[k]) then NoPath
    else Sampling(Choice(ORDER, endpoints, w).profile)
  }

  lemma ChoiceStatus(endpoints: Endpoints, w: World)
    ensures StatusOf(endpoints, w)
         == if w.peer.id == "" then Waiting
            else if Choice(ORDER, endpoints, w).error != "" then NoPath
            else Sampling(Choice(ORDER, endpoints, w).profile)
  {
    hide Succeeds, Choice;
    var n := SomeStop(ORDER, endpoints, w);
    ChoiceIsFirst(ORDER, endpoints, w, n);
  }

  /** What the status says, profile by profile. */
  lemma StatusSays(endpoints: Endpoints, w: World)
    ensures var s, found := StatusOf(endpoints, w), w.peer.id != "";
            var first, second, third := Works(endpoints, w, "thunderbolt"), Works(endpoints, w, "awdl"), Works(endpoints, w, "lan");
            && (s == Waiting <==> !found)
            && (s == NoPath <==> found && !first && !second && !third)
            && (s == Sampling("thunderbolt") <==> found && first)
            && (s == Sampling("awdl") <==> found && !first && second)
            && (s == Sampling("lan") <==> found && !first && !second && third)
  {
    hide Works, Choice, StatusOf;
    ChoiceStatus(endpoints, w);
    Preference(endpoints, w);
  }

  /** What each round of a run publishes. */
  function Publications(id: Identity, worlds: seq<World>): seq<A.Tick> {
    if worlds == [] then []
    else Publications(id, worlds[..|worlds| - 1])
         + [A.Tick(Metadata(id, RunMind(worlds).endpoints), worlds[|worlds| - 1].start)]
  }

  // --- The cache's laws, for the agent's own runs ------------------------------------

  ghost predicate OneLineWorld(w: World) {
    forall name: string :: OneLine(w.open(name).iface) && (w.open(name).local.Some? ==> OneLine(w.open(name).local.value))
  }

  lemma {:induction false} SocketsOneLine(worlds: seq<World>)
    requires forall k :: 0 <= k < |worlds| ==> OneLineWorld(worlds[k])
    ensures OneLineSockets(RunMind(worlds).endpoints)
    ensures RunMind(worlds).endpoints.Keys <= (set name <- ORDER)
  {
    hide Sampled, Refreshed, OneLine;
    if worlds != [] {
      var front, w := worlds[..|worlds| - 1], worlds[|worlds| - 1];
      SocketsOneLine(front);
      forall name <- RunMind(worlds).endpoints.Keys
        ensures OneLine(RunMind(worlds).endpoints[name].iface) && name in ORDER
        ensures RunMind(worlds).endpoints[name].local.Some? ==> OneLine(RunMind(worlds).endpoints[name].local.value)
      {
        RefreshedEach(ORDER, RunMind(front).endpoints, w.open, name);
      }
    }
  }

  lemma {:induction false} PublicationsProper(id: Identity, worlds: seq<World>)
    requires OneLineEach(id) && forall k :: 0 <= k < |worlds| ==> OneLineWorld(worlds[k])
    ensures A.AllProper(Publications(id, worlds)) && |Publications(id, worlds)| == |worlds|
    ensures worlds != [] ==> Publications(id, worlds)[|worlds| - 1].meta == Metadata(id, RunMind(worlds).endpoints)
  {
    hide A.Proper, OneLineEach, OneLineWorld, OneLineSockets, RunMind, Metadata;
    if worlds != [] {
      PublicationsProper(id, worlds[..|worlds| - 1]);
      SocketsOneLine(worlds);
      MetadataProper(id, RunMind(worlds).endpoints);
    }
  }

  /** After every round of every run the advertisement is the metadata of that round's sockets,
      or the cache holds a mark that no such metadata matches; and no two advertisers were
      ever up together. */
  lemma AgentStaysCoherent(id: Identity, worlds: seq<World>)
    requires worlds != [] && OneLineEach(id) && forall k :: 0 <= k < |worlds| ==> OneLineWorld(worlds[k])
    ensures A.Coherent(A.After(Publications(id, worlds)), Metadata(id, RunMind(worlds).endpoints))
    ensures A.OneAtATime(A.After(Publications(id, worlds)).calls)
  {
    hide A.Coherent, A.After, A.AllProper, A.OneAtATime, Publications, OneLineEach, OneLineWorld, Metadata, RunMind;
    PublicationsProper(id, worlds);
    A.AlwaysCoherent(Publications(id, worlds));
    A.NeverTwo(Publications(id, worlds));
  }
}
