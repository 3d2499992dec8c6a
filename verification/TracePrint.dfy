/** The state snapshots that the demo prints on its error lines. */
module TracePrint {
  import opened Common
  import opened Trace
  import S = Signature

  datatype Candidate = Candidate(id: string, kind: string, protocol: string, ip: string, port: nat, deleted: bool)

  datatype Pair = Pair(local: string, remote: string, state: string, nominated: bool,
                       requestsSent: nat, requestsReceived: nat, responsesReceived: nat, responsesSent: nat,
                       packetsSent: nat, packetsReceived: nat)

  datatype Stat = LocalCandidate(c: Candidate) | RemoteCandidate(c: Candidate) | CandidatePair(p: Pair) | OtherStat

  datatype Diagnostics = Diagnostics(name: string, signaling: string, gathering: string, ice: string, peer: string,
                                     channel: string, channelState: Option<string>, channelError: string)

  function Decimal(n: nat): string {
    if n < 10 then [('0' as int + n) as char] else Decimal(n / 10) + [('0' as int + n % 10) as char]
  }

  function CandidateEnd(c: Candidate): string {
    c.kind + "/" + c.protocol + "/" + (c.ip + ":" + Decimal(c.port) + if c.deleted then ":deleted" else "")
  }

  function CandidateEntry(c: Candidate): string {
    c.id + ":" + CandidateEnd(c)
  }

  function Counters(p: Pair): string {
    "nominated=" + (if p.nominated then "true" else "false")
    + ":req=" + Decimal(p.requestsSent) + "/" + Decimal(p.requestsReceived)
    + ":resp=" + Decimal(p.responsesReceived) + "/" + Decimal(p.responsesSent)
    + ":pkts=" + Decimal(p.packetsSent) + "/" + Decimal(p.packetsReceived)
  }

  function PairEntry(p: Pair): string {
    p.local + ">" + p.remote + ":" + p.state + ":" + Counters(p)
  }

  datatype Field = Field(name: string, value: string)

  /** " name=value" */
  function FieldText(f: Field): string {
    " " + f.name + "=" + f.value
  }

  function Fields(fields: seq<Field>): string {
    if fields == [] then "" else FieldText(fields[0]) + Fields(fields[1..])
  }

  function Locals(stats: seq<Stat>): seq<Candidate> {
    if stats == [] then []
    else (if stats[0].LocalCandidate? then [stats[0].c] else []) + Locals(stats[1..])
  }

  function Remotes(stats: seq<Stat>): seq<Candidate> {
    if stats == [] then []
    else (if stats[0].RemoteCandidate? then [stats[0].c] else []) + Remotes(stats[1..])
  }

  function Pairs(stats: seq<Stat>): seq<Pair> {
    if stats == [] then []
    else (if stats[0].CandidatePair? then [stats[0].p] else []) + Pairs(stats[1..])
  }

  function StatsFields(local: seq<string>, remote: seq<string>, pairs: seq<string>): seq<Field> {
    [Field("local_candidates", BracketedList(local)),
     Field("remote_candidates", BracketedList(remote)),
     Field("candidate_pairs", BracketedList(pairs))]
  }

  predicate HasStats(stats: seq<Stat>) {
    Locals(stats) != [] || Remotes(stats) != [] || Pairs(stats) != []
  }

  function FormatStats(stats: seq<Stat>): string {
    if !HasStats(stats) then ""
    else
      STATS + Fields(StatsFields(S.Sort(Mapped(CandidateEntry, Locals(stats))),
                                 S.Sort(Mapped(CandidateEntry, Remotes(stats))),
                                 S.Sort(Mapped(PairEntry, Pairs(stats)))))
  }

  lemma LocalsStep(report: seq<Stat>, k: nat)
    requires k < |report|
    ensures Mapped(CandidateEntry, Locals(report[k..]))
         == (if report[k].LocalCandidate? then [CandidateEntry(report[k].c)] else [])
            + Mapped(CandidateEntry, Locals(report[k + 1..]))
  {
    hide CandidateEntry;
    assert report[k..][1..] == report[k + 1..];
  }

  lemma RemotesStep(report: seq<Stat>, k: nat)
    requires k < |report|
    ensures Mapped(CandidateEntry, Remotes(report[k..]))
         == (if report[k].RemoteCandidate? then [CandidateEntry(report[k].c)] else [])
            + Mapped(CandidateEntry, Remotes(report[k + 1..]))
  {
    hide CandidateEntry;
    assert report[k..][1..] == report[k + 1..];
  }

  lemma PairsStep(report: seq<Stat>, k: nat)
    requires k < |report|
    ensures Mapped(PairEntry, Pairs(report[k..]))
         == (if report[k].CandidatePair? then [PairEntry(report[k].p)] else []) + Mapped(PairEntry, Pairs(report[k + 1..]))
  {
    hide PairEntry;
    assert report[k..][1..] == report[k + 1..];
  }

  lemma NoEntries()
    ensures Mapped(CandidateEntry, Locals([])) == [] && Mapped(CandidateEntry, Remotes([])) == [] && Mapped(PairEntry, Pairs([])) == []
  {}

  /** The report is a map, walked in any order; sorting makes the text independent of it. */
  method FormatWebRtcStats(report: seq<Stat>) returns (r: string)
    ensures r == FormatStats(report)
  {
    hide CandidateEntry, PairEntry, S.Sort, Fields, StatsFields, Locals, Remotes, Pairs;
    var local, remote, pairs: seq<string> := [], [], [];
    assert report[0..] == report && report[|report|..] == [];
    NoEntries();
    for k := 0 to |report|
      invariant local + Mapped(CandidateEntry, Locals(report[k..])) == Mapped(CandidateEntry, Locals(report))
      invariant remote + Mapped(CandidateEntry, Remotes(report[k..])) == Mapped(CandidateEntry, Remotes(report))
      invariant pairs + Mapped(PairEntry, Pairs(report[k..])) == Mapped(PairEntry, Pairs(report))
    {
      LocalsStep(report, k);
      RemotesStep(report, k);
      PairsStep(report, k);
      match report[k] {
        case LocalCandidate(c) =>
          Regrouped(local, CandidateEntry(c), Mapped(CandidateEntry, Locals(report[k + 1..])));
          local := local + [CandidateEntry(c)];
        case RemoteCandidate(c) =>
          Regrouped(remote, CandidateEntry(c), Mapped(CandidateEntry, Remotes(report[k + 1..])));
          remote := remote + [CandidateEntry(c)];
        case CandidatePair(p) =>
          Regrouped(pairs, PairEntry(p), Mapped(PairEntry, Pairs(report[k + 1..])));
          pairs := pairs + [PairEntry(p)];
        case OtherStat =>
      }
    }
    assert local == Mapped(CandidateEntry, Locals(report));
    assert remote == Mapped(CandidateEntry, Remotes(report));
    assert pairs == Mapped(PairEntry, Pairs(report));
    if |local| == 0 && |remote| == 0 && |pairs| == 0 {
      return "";
    }
    local, remote, pairs := S.Sort(local), S.Sort(remote), S.Sort(pairs);
    r := STATS + Fields(StatsFields(local, remote, pairs));
  }

  function ChannelShown(d: Diagnostics): string {
    Or(d.channel, "-") + ":" + (if d.channelState.Some? then d.channelState.value else "-")
  }

  function StateFields(d: Diagnostics): seq<Field> {
    [Field("label", d.name), Field("signaling", d.signaling), Field("ice_gathering", d.gathering),
     Field("ice_connection", d.ice), Field("peer_connection", d.peer), Field("datachannel", ChannelShown(d)),
     Field("datachannel_error", Or(d.channelError, "-"))]
  }

  /** What one end of a connection reports about itself. */
  function Snapshot(d: Option<Diagnostics>, stats: seq<Stat>): string {
    if d.None? then STATE + "=unavailable"
    else
      var state := STATE + Fields(StateFields(d.value));
      if FormatStats(stats) == "" then state else state + " " + FormatStats(stats)
  }

  // --- The order of the report does not matter ---------------------------------------

  function LocalEntry(s: Stat): seq<string> {
    if s.LocalCandidate? then [CandidateEntry(s.c)] else []
  }

  function RemoteEntry(s: Stat): seq<string> {
    if s.RemoteCandidate? then [CandidateEntry(s.c)] else []
  }

  function PairOf(s: Stat): seq<string> {
    if s.CandidatePair? then [PairEntry(s.p)] else []
  }

  function Collected(f: Stat -> seq<string>, stats: seq<Stat>): seq<string> {
    if stats == [] then [] else f(stats[0]) + Collected(f, stats[1..])
  }

  lemma {:induction false} ListsCollected(stats: seq<Stat>)
    ensures Mapped(CandidateEntry, Locals(stats)) == Collected(LocalEntry, stats)
    ensures Mapped(CandidateEntry, Remotes(stats)) == Collected(RemoteEntry, stats)
    ensures Mapped(PairEntry, Pairs(stats)) == Collected(PairOf, stats)
  {
    hide CandidateEntry, PairEntry, Locals, Remotes, Pairs;
    NoEntries();
    if stats == [] {
      assert stats == [];
    } else {
      ListsCollected(stats[1..]);
      assert stats[0..] == stats;
      LocalsStep(stats, 0);
      RemotesStep(stats, 0);
      PairsStep(stats, 0);
    }
  }

  lemma {:induction false} CollectedAppend(f: Stat -> seq<string>, a: seq<Stat>, b: seq<Stat>)
    ensures Collected(f, a + b) == Collected(f, a) + Collected(f, b)
  {
    if a == [] {
      assert a + b == b;
    } else {
      CollectedAppend(f, a[1..], b);
      assert (a + b)[1..] == a[1..] + b;
    }
  }

  lemma CollectedMove(f: Stat -> seq<string>, u: seq<Stat>, x: Stat, v: seq<Stat>)
    ensures multiset(Collected(f, u + [x] + v)) == multiset(f(x)) + multiset(Collected(f, u + v))
  {
    CollectedAppend(f, u + [x], v);
    CollectedAppend(f, u, [x]);
    CollectedAppend(f, u, v);
    assert [x][1..] == [];
    assert f(x) + [] == f(x);
  }

  lemma {:induction false} CollectedPermuted(f: Stat -> seq<string>, a: seq<Stat>, b: seq<Stat>)
    requires multiset(a) == multiset(b)
    ensures multiset(Collected(f, a)) == multiset(Collected(f, b))
    decreases |a|
  {
    if a == [] {
      assert |multiset(b)| == 0;
    } else {
      var i := TakeFirst(a, b);
      CollectedPermuted(f, a[1..], b[..i] + b[i + 1..]);
      CollectedMove(f, b[..i], a[0], b[i + 1..]);
    }
  }

  /** The report is a map: in whatever order it is walked, the same text is printed. */
  lemma FormatOrderFree(a: seq<Stat>, b: seq<Stat>)
    requires multiset(a) == multiset(b)
    ensures FormatStats(a) == FormatStats(b)
  {
    hide LocalEntry, RemoteEntry, PairOf, S.Sort, Fields, CandidateEntry, PairEntry, Collected, Locals, Remotes, Pairs;
    ListsCollected(a);
    ListsCollected(b);
    CollectedPermuted(LocalEntry, a, b);
    CollectedPermuted(RemoteEntry, a, b);
    CollectedPermuted(PairOf, a, b);
    SameSize(Collected(LocalEntry, a), Collected(LocalEntry, b));
    SameSize(Collected(RemoteEntry, a), Collected(RemoteEntry, b));
    SameSize(Collected(PairOf, a), Collected(PairOf, b));
    S.SortPermuted(Collected(LocalEntry, a), Collected(LocalEntry, b));
    S.SortPermuted(Collected(RemoteEntry, a), Collected(RemoteEntry, b));
    S.SortPermuted(Collected(PairOf, a), Collected(PairOf, b));
    assert (|Mapped(CandidateEntry, Locals(a))| == 0) == (|Mapped(CandidateEntry, Locals(b))| == 0);
    assert (|Mapped(CandidateEntry, Remotes(a))| == 0) == (|Mapped(CandidateEntry, Remotes(b))| == 0);
    assert (|Mapped(PairEntry, Pairs(a))| == 0) == (|Mapped(PairEntry, Pairs(b))| == 0);
  }

  lemma SameSize(a: seq<string>, b: seq<string>)
    requires multiset(a) == multiset(b)
    ensures |a| == |b|
  {
    assert |multiset(a)| == |multiset(b)|;
  }
}
