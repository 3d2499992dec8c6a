/** What a reader of the summary sees: its fields by name, the counters of a pair, and one
    line in full. */
module TraceSummary {
  import opened Common
  import opened Text
  import opened Trace
  import opened TracePrint
  import opened TraceFields
  import opened TraceItems
  import opened TraceLists
  import opened TraceLaws

  // --- Field by field ----------------------------------------------------------------

  lemma ShownFree(cs: seq<Candidate>)
    requires forall c :: c in cs ==> FineCandidate(c)
    ensures Free(ShownCandidates(cs), FIELD) && TrimSpace(ShownCandidates(cs)) == ShownCandidates(cs)
  {
    hide CandidateEntry, CandidateEnd, Free, FreeCandidate, Unmistaken, BracketedList, SortBy, Solid, TrimSpace;
    var order := SortBy(CandidateEntry, cs);
    var shown := Mapped(CandidateShown, order);
    forall k | 0 <= k < |shown|
      ensures Free(shown[k], FIELD)
    {
      SortedElement(CandidateEntry, cs, k);
      EntryFree(order[k]);
      EntryIs(order[k]);
      FreeAppend(order[k].id + ":", CandidateEnd(order[k]), BAD);
      FreeWeaken(shown[k], BAD, FIELD);
    }
    ListFree(shown, FIELD);
    ListTight(shown);
  }

  lemma EntryIs(c: Candidate)
    ensures CandidateEntry(c) == c.id + ":" + CandidateEnd(c)
  {}

  lemma NoHitPlain(text: string, key: string)
    requires '=' !in text
    ensures NoHit(text, key)
  {
    forall j: nat
      ensures !OccursAt(text, key + "=", j)
    {
      if OccursAt(text, key + "=", j) {
        HitEnds(text, key, j);
      }
    }
  }

  lemma ReportNames(d: Diagnostics, stats: seq<Stat>, k: nat)
    requires k < 5
    ensures |ReportFields(d, stats)| == 6
    ensures NoneEndsWith(ReportFields(d, stats)[..k], ReportFields(d, stats)[k].name)
  {
    hide EndsWith, ShownCandidates, ShownPairs, ChannelShown;
    var fields := ReportFields(d, stats);
    forall i | 0 <= i < k
      ensures !EndsWith(fields[i].name, fields[k].name)
    {
      OtherEnd(fields[i].name, fields[k].name) by { assert DifferentEnds(i, k); }
    }
  }

  predicate DifferentEnds(i: nat, k: nat) {
    var names := ["ice", "peer", "dc", "local", "remote"];
    i < k < 5 ==> |names[i]| < |names[k]| || names[i][|names[i]| - 1] != names[k][|names[k]| - 1]
  }

  lemma ReportBare(d: Diagnostics, stats: seq<Stat>)
    requires FineDiagnostics(d) && FineStats(stats)
    ensures var fields := ReportFields(d, stats);
            && '=' !in Or(d.name, "peer")
            && forall k :: 0 <= k < 5 ==>
                 && Bare(fields[k].name) && ' ' !in fields[k].value && '=' !in fields[k].value
                 && TrimSpace(fields[k].value) == fields[k].value
  {
    hide Free, ShownCandidates, ShownPairs, ChannelShown, TrimSpace, Tight, FineCandidate, FinePair, FineStats;
    ListsFine(stats);
    ShownFree(Locals(stats));
    ShownFree(Remotes(stats));
    ChannelFine(d);
    DashPlain(d.ice);
    DashPlain(d.peer);
    FreeOf(d.name, FIELD, '=');
    BothFree(ChannelShown(d));
    BothFree(ShownCandidates(Locals(stats)));
    BothFree(ShownCandidates(Remotes(stats)));
  }

  lemma BothFree(s: string)
    requires Free(s, FIELD)
    ensures ' ' !in s && '=' !in s
  {}

  lemma DashPlain(s: string)
    requires FineText(s)
    ensures TrimSpace(Dash(s)) == Dash(s) && ' ' !in Dash(s) && '=' !in Dash(s)
  {
    TrimTight(Dash(s)) by { assert Tight("-"); }
  }

  /** Each part of a summary stands under its name. */
  lemma SummaryReads(d: Diagnostics, stats: seq<Stat>)
    requires FineDiagnostics(d) && FineStats(stats)
    ensures var r := Report(d, stats);
            && FieldValue(r, "ice") == (if d.ice == "" then "-" else d.ice)
            && FieldValue(r, "peer") == (if d.peer == "" then "-" else d.peer)
            && FieldValue(r, "dc") == (if d.channel == "" then "-" else d.channel) + ":"
                                      + (if d.channelState.Some? then d.channelState.value else "-")
            && FieldValue(r, "local") == ShownCandidates(Locals(stats))
            && FieldValue(r, "remote") == ShownCandidates(Remotes(stats))
            && EndsWith(r, " pairs=" + ShownPairs(Pairs(stats)))
            && (if d.name == "" then "peer" else d.name) + " ice=" <= r
  {
    hide NoHit, Fields, FineDiagnostics, FineStats, Bare, FieldValue, TrimSpace, ChannelShown, EndsWith,
         ShownCandidates, ShownPairs;
    var fields := ReportFields(d, stats);
    ReportBare(d, stats);
    forall k: nat | k < 5
      ensures FieldValue(Report(d, stats), fields[k].name) == fields[k].value
    {
      ReportNames(d, stats, k);
      NoHitPlain(Or(d.name, "peer"), fields[k].name);
      FieldsFind(Or(d.name, "peer"), fields, k, "");
      assert Report(d, stats) + "" == Report(d, stats);
    }
    assert FieldValue(Report(d, stats), fields[0].name) == fields[0].value;
    assert FieldValue(Report(d, stats), fields[1].name) == fields[1].value;
    assert FieldValue(Report(d, stats), fields[2].name) == fields[2].value;
    assert FieldValue(Report(d, stats), fields[3].name) == fields[3].value;
    assert FieldValue(Report(d, stats), fields[4].name) == fields[4].value;
    ReportEnds(d, stats);
    ShownFor(d);
  }

  lemma ShownFor(d: Diagnostics)
    ensures Or(d.name, "peer") == if d.name == "" then "peer" else d.name
    ensures Dash(d.ice) == if d.ice == "" then "-" else d.ice
    ensures Dash(d.peer) == if d.peer == "" then "-" else d.peer
    ensures ChannelShown(d) == (if d.channel == "" then "-" else d.channel) + ":"
                               + (if d.channelState.Some? then d.channelState.value else "-")
  {}

  lemma ReportEnds(d: Diagnostics, stats: seq<Stat>)
    ensures EndsWith(Report(d, stats), " pairs=" + ShownPairs(Pairs(stats)))
    ensures Or(d.name, "peer") + " ice=" <= Report(d, stats)
  {
    hide ShownCandidates, ShownPairs, ChannelShown, Fields, FieldText, Or;
    var fields, name := ReportFields(d, stats), Or(d.name, "peer");
    FieldsSplit(fields, 5);
    FieldsSplit(fields, 0);
    assert fields[..0] == [] && fields[6..] == [];
    NoFields();
    FieldIs("ice", fields[0].value);
    FieldIs("pairs", fields[5].value);
    assert " " + "ice" + "=" == " ice=" && " " + "pairs" + "=" == " pairs=";
    assert fields[5] == Field("pairs", ShownPairs(Pairs(stats)));
    EndsSo(name, Fields(fields[..5]), " pairs=", fields[5].value);
    BeginsSo(name, " ice=", fields[0].value, Fields(fields[1..]));
  }

  lemma EndsSo(a: string, b: string, c: string, v: string)
    ensures EndsWith(a + (b + ((c + v) + "")), c + v)
  {
    assert a + (b + ((c + v) + "")) == (a + b) + (c + v);
  }

  lemma BeginsSo(a: string, b: string, v: string, c: string)
    ensures a + b <= a + ("" + ((b + v) + c))
  {
    assert a + ("" + ((b + v) + c)) == (a + b) + (v + c);
  }

  lemma NoFields()
    ensures Fields([]) == ""
  {}

  // --- Counters ----------------------------------------------------------------------

  /** The counters of a pair, taken apart at the colons: which is which. */
  lemma CountersRead(p: Pair)
    ensures Split(Counters(p), ':')
         == ["nominated=" + (if p.nominated then "true" else "false"),
             "req=" + Decimal(p.requestsSent) + "/" + Decimal(p.requestsReceived),
             "resp=" + Decimal(p.responsesReceived) + "/" + Decimal(p.responsesSent),
             "pkts=" + Decimal(p.packetsSent) + "/" + Decimal(p.packetsReceived)]
  {
    hide Decimal, Counters, Join;
    PartsJoined(p);
    SplitJoin(CounterParts(p), ':');
  }

  // --- One line ----------------------------------------------------------------------

  const LOCAL := Candidate("a", "host", "udp", "1.1", 50, false)
  const REMOTE := Candidate("b", "relay", "tcp", "2.2", 60, true)
  const PAIR := Pair("a", "b", "succeeded", true, 1, 2, 3, 4, 5, 6)
  const STATS_SEEN: seq<Stat> := [CandidatePair(PAIR), RemoteCandidate(REMOTE), OtherStat, LocalCandidate(LOCAL)]
  const LEFT := Diagnostics("left", "stable", "complete", "checking", "connecting", "pair", Some("open"), "")

  lemma Numbers()
    ensures Decimal(1) == "1" && Decimal(2) == "2" && Decimal(3) == "3" && Decimal(4) == "4" && Decimal(5) == "5"
    ensures Decimal(6) == "6" && Decimal(50) == "50" && Decimal(60) == "60"
  {
    assert Decimal(0) == "0";
    assert Decimal(50) == Decimal(5) + "0" && Decimal(60) == Decimal(6) + "0";
  }

  lemma EntryFrom(c: Candidate, end: string)
    requires CandidateEnd(c) == end
    ensures CandidateEntry(c) == c.id + (":" + end)
  {}

  lemma LocalEntry()
    ensures CandidateEnd(LOCAL) == "host/udp/1.1:50"
    ensures CandidateEntry(LOCAL) == "a" + (":" + "host/udp/1.1:50")
  {
    hide Decimal;
    Numbers();
    assert CandidateEnd(LOCAL) == "host/udp/" + "1.1:50";
    EntryFrom(LOCAL, "host/udp/1.1:50");
  }

  lemma RemoteEnd()
    ensures CandidateEnd(REMOTE) == "relay/tcp/" + "2.2:60" + ":deleted"
  {
    hide Decimal;
    Numbers();
  }

  lemma RemoteEntry()
    ensures CandidateEntry(REMOTE) == "b" + (":" + ("relay/tcp/" + "2.2:60" + ":deleted"))
  {
    hide CandidateEnd;
    RemoteEnd();
    EntryFrom(REMOTE, "relay/tcp/" + "2.2:60" + ":deleted");
  }

  lemma PairEntries()
    ensures Counters(PAIR) == "nominated=true" + ":req=1/2" + ":resp=3/4" + ":pkts=5/6"
    ensures PairEntry(PAIR) == "a>b:succeeded:" + ("nominated=true" + ":req=1/2" + ":resp=3/4" + ":pkts=5/6")
    ensures PairShown(PAIR) == "succeeded " + ("nominated=true" + ":req=1/2" + ":resp=3/4" + ":pkts=5/6")
  {
    hide Decimal;
    Numbers();
  }

  lemma FieldsFrom(text: string, fields: seq<Field>, k: nat, shown: string)
    requires k < |fields| && FieldText(fields[k]) == shown
    ensures text + Fields(fields[k..]) == (text + shown) + Fields(fields[k + 1..])
  {
    assert fields[k..][1..] == fields[k + 1..];
  }

  lemma LabelWord()
    ensures FieldText(StateFields(LEFT)[0]) == " label=left"
  {
    hide ChannelShown;
  }

  lemma SignalingWord()
    ensures FieldText(StateFields(LEFT)[1]) == " signaling=stable"
  {
    hide ChannelShown;
  }

  lemma ErrorWord()
    ensures FieldText(StateFields(LEFT)[6]) == " datachannel_error=-"
  {
    hide ChannelShown;
  }

  lemma GatheringWord()
    ensures FieldText(StateFields(LEFT)[2]) == " ice_gathering=complete"
  {
    hide ChannelShown;
  }

  lemma IceWord()
    ensures FieldText(StateFields(LEFT)[3]) == " ice_connection=checking"
  {
    hide ChannelShown;
  }

  lemma PeerWord()
    ensures FieldText(StateFields(LEFT)[4]) == " peer_connection=connecting"
  {
    hide ChannelShown;
  }

  lemma ChannelWord()
    ensures ChannelShown(LEFT) == "pair:open"
    ensures FieldText(StateFields(LEFT)[5]) == " datachannel=pair:open"
  {}

  const STATE_TEXT: string :=
    "webrtc_state" + " label=left" + " signaling=stable" + " ice_gathering=complete" + " ice_connection=checking"
    + " peer_connection=connecting" + " datachannel=pair:open" + " datachannel_error=-"

  lemma StateLine()
    ensures STATE + Fields(StateFields(LEFT)) == STATE_TEXT
  {
    hide FieldText, Fields, ChannelShown;
    var f := StateFields(LEFT);
    LabelWord();
    SignalingWord();
    ErrorWord();
    GatheringWord();
    IceWord();
    PeerWord();
    ChannelWord();
    SevenFields(LEFT);
    assert f[0..] == f && f[7..] == [];
    NoFields();
    var t := STATE;
    FieldsFrom(t, f, 0, " label=left");
    t := t + " label=left";
    FieldsFrom(t, f, 1, " signaling=stable");
    t := t + " signaling=stable";
    FieldsFrom(t, f, 2, " ice_gathering=complete");
    t := t + " ice_gathering=complete";
    FieldsFrom(t, f, 3, " ice_connection=checking");
    t := t + " ice_connection=checking";
    FieldsFrom(t, f, 4, " peer_connection=connecting");
    t := t + " peer_connection=connecting";
    FieldsFrom(t, f, 5, " datachannel=pair:open");
    t := t + " datachannel=pair:open";
    FieldsFrom(t, f, 6, " datachannel_error=-");
    assert t + " datachannel_error=-" + "" == t + " datachannel_error=-";
  }

  lemma SortOne<T>(key: T -> string, x: T)
    ensures SortBy(key, [x]) == [x]
  {
    assert [x][1..] == [];
    assert SortBy(key, []) == [];
  }

  lemma OneMore(s: Stat, rest: seq<Stat>)
    ensures Locals([s] + rest) == (if s.LocalCandidate? then [s.c] else []) + Locals(rest)
    ensures Remotes([s] + rest) == (if s.RemoteCandidate? then [s.c] else []) + Remotes(rest)
    ensures Pairs([s] + rest) == (if s.CandidatePair? then [s.p] else []) + Pairs(rest)
  {
    assert ([s] + rest)[1..] == rest;
  }

  lemma Alone()
    ensures Locals(STATS_SEEN) == [LOCAL] && Remotes(STATS_SEEN) == [REMOTE] && Pairs(STATS_SEEN) == [PAIR]
  {
    hide Locals, Remotes, Pairs;
    var a, b, c, d := CandidatePair(PAIR), RemoteCandidate(REMOTE), OtherStat, LocalCandidate(LOCAL);
    OneMore(d, []);
    OneMore(c, [d]);
    OneMore(b, [c, d]);
    OneMore(a, [b, c, d]);
    assert [d] + [] == [d] && [c] + [d] == [c, d] && [b] + [c, d] == [b, c, d] && [a] + [b, c, d] == STATS_SEEN;
    NoneLeft();
  }

  lemma NoneLeft()
    ensures Locals([]) == [] && Remotes([]) == [] && Pairs([]) == []
  {}

  lemma InBrackets(item: string)
    ensures BracketedList([item]) == "[" + item + "]"
  {}

  const LOCAL_TEXT: string := "a" + (":" + "host/udp/1.1:50")
  const REMOTE_TEXT: string := "b" + (":" + ("relay/tcp/" + "2.2:60" + ":deleted"))
  const COUNTERS_TEXT: string := "nominated=true" + ":req=1/2" + ":resp=3/4" + ":pkts=5/6"

  const LISTS_TEXT: string :=
    " webrtc_stats" + (" local_candidates=" + ("[" + LOCAL_TEXT + "]"))
    + (" remote_candidates=" + ("[" + REMOTE_TEXT + "]"))
    + (" candidate_pairs=" + ("[" + ("a>b:succeeded:" + COUNTERS_TEXT) + "]"))

  const REPORT_TEXT: string :=
    "left" + (" ice=" + "checking") + (" peer=" + "connecting") + (" dc=" + "pair:open")
    + (" local=" + ("[" + "host/udp/1.1:50" + "]")) + (" remote=" + ("[" + REMOTE_TEXT + "]"))
    + (" pairs=" + ("[" + ("succeeded " + COUNTERS_TEXT) + "]"))

  lemma ListNames()
    ensures " " + "local_candidates" + "=" == " local_candidates="
    ensures " " + "remote_candidates" + "=" == " remote_candidates="
    ensures " " + "candidate_pairs" + "=" == " candidate_pairs="
    ensures " " + STATS == " webrtc_stats"
  {}

  lemma ListValues()
    ensures ListFields(STATS_SEEN)
         == [Field("local_candidates", "[" + LOCAL_TEXT + "]"), Field("remote_candidates", "[" + REMOTE_TEXT + "]"),
             Field("candidate_pairs", "[" + ("a>b:succeeded:" + COUNTERS_TEXT) + "]")]
  {
    hide CandidateEntry, PairEntry, BracketedList;
    Alone();
    SortOne(CandidateEntry, LOCAL);
    SortOne(CandidateEntry, REMOTE);
    SortOne(PairEntry, PAIR);
    SortMapped(CandidateEntry, [LOCAL]);
    SortMapped(CandidateEntry, [REMOTE]);
    SortMapped(PairEntry, [PAIR]);
    OneMapped(CandidateEntry, LOCAL);
    OneMapped(CandidateEntry, REMOTE);
    OneMapped(PairEntry, PAIR);
    LocalEntry();
    RemoteEntry();
    PairEntries();
    InBrackets(LOCAL_TEXT);
    InBrackets(REMOTE_TEXT);
    InBrackets("a>b:succeeded:" + COUNTERS_TEXT);
  }

  lemma ListsLine()
    ensures " " + STATS + Fields(ListFields(STATS_SEEN)) == LISTS_TEXT
  {
    hide FieldText, Fields, ListFields;
    var f := ListFields(STATS_SEEN);
    ListValues();
    ListNames();
    FieldIs("local_candidates", f[0].value);
    FieldIs("remote_candidates", f[1].value);
    FieldIs("candidate_pairs", f[2].value);
    assert f[0..] == f && f[3..] == [];
    NoFields();
    var t := " " + STATS;
    FieldsFrom(t, f, 0, " local_candidates=" + f[0].value);
    t := t + (" local_candidates=" + f[0].value);
    FieldsFrom(t, f, 1, " remote_candidates=" + f[1].value);
    t := t + (" remote_candidates=" + f[1].value);
    FieldsFrom(t, f, 2, " candidate_pairs=" + f[2].value);
    NothingMore(t + (" candidate_pairs=" + f[2].value));
  }

  lemma ReportValues()
    ensures ShownCandidates(Locals(STATS_SEEN)) == "[" + "host/udp/1.1:50" + "]"
    ensures ShownCandidates(Remotes(STATS_SEEN)) == "[" + REMOTE_TEXT + "]"
    ensures ShownPairs(Pairs(STATS_SEEN)) == "[" + ("succeeded " + COUNTERS_TEXT) + "]"
  {
    hide CandidateEntry, PairEntry, PairShown, CandidateEnd, BracketedList, SortBy;
    Alone();
    SortOne(CandidateEntry, LOCAL);
    SortOne(CandidateEntry, REMOTE);
    SortOne(PairEntry, PAIR);
    OneMapped(CandidateShown, LOCAL);
    OneMapped(CandidateShown, REMOTE);
    OneMapped(PairShown, PAIR);
    LocalEntry();
    RemoteEntry();
    PairEntries();
    KindsShown();
    InBrackets("host/udp/1.1:50");
    InBrackets(REMOTE_TEXT);
    InBrackets("succeeded " + COUNTERS_TEXT);
  }

  lemma KindsShown()
    ensures CandidateShown(LOCAL) == CandidateEnd(LOCAL) && CandidateShown(REMOTE) == CandidateEntry(REMOTE)
  {
    hide CandidateEntry, CandidateEnd;
    assert KINDS[0] == "host";
    assert "tcp"[0] != "udp"[0];
  }

  lemma ReportLine()
    ensures Report(LEFT, STATS_SEEN) == REPORT_TEXT
  {
    hide ShownCandidates, ShownPairs, Fields, FieldText;
    ReportValues();
    ChannelWord();
    LineIsFields("left", "checking", "connecting", "pair:open", "[" + "host/udp/1.1:50" + "]",
                 "[" + REMOTE_TEXT + "]", "[" + ("succeeded " + COUNTERS_TEXT) + "]");
    LineParts("left", "checking", "connecting", "pair:open", "[" + "host/udp/1.1:50" + "]",
              "[" + REMOTE_TEXT + "]", "[" + ("succeeded " + COUNTERS_TEXT) + "]");
  }

  lemma OneMapped<T>(key: T -> string, x: T)
    ensures Mapped(key, [x]) == [key(x)]
  {}

  lemma NothingMore(s: string)
    ensures s + "" == s
  {}

  lemma LeftFine()
    ensures FineDiagnostics(LEFT) && FineStats(STATS_SEEN) && HasStats(STATS_SEEN)
  {
    hide FineText, FineCandidate, FinePair, Free;
    Alone();
    CandidatesFine();
    assert FinePair(PAIR) by { PairFine(); }
    TextsFine();
  }

  lemma TextsFine()
    ensures FineText("left") && FineText("checking") && FineText("connecting") && FineText("pair") && FineText("open")
    ensures Free("stable", LOOSE) && Free("complete", LOOSE) && Free("", LOOSE)
  {}

  lemma PairFine()
    ensures FinePair(PAIR)
  {
    hide Free;
    NamesFree();
  }

  lemma NamesFree()
    ensures Free("a", BAD) && Free("b", BAD) && Free("succeeded", BAD) && ':' !in "succeeded"
  {}

  lemma CandidatesFine()
    ensures FineCandidate(LOCAL) && FineCandidate(REMOTE)
  {
    hide Unmistaken, Slashless, FreeCandidate;
    PlainPieces();
    FreePieces();
    KindsPlain();
    SlashlessUnmistaken(KINDS, LOCAL);
    SlashlessUnmistaken(KINDS, REMOTE);
  }

  lemma KindsPlain()
    ensures forall k :: 0 <= k < |KINDS| ==> ':' !in KINDS[k]
  {
    assert ':' !in "host" && ':' !in "srflx" && ':' !in "relay";
  }

  lemma PlainPieces()
    ensures Slashless(LOCAL) && Slashless(REMOTE)
  {}

  lemma FreePieces()
    ensures FreeCandidate(LOCAL) && FreeCandidate(REMOTE)
  {
    hide Free;
    NamesFree();
    PiecesFree();
  }

  lemma PiecesFree()
    ensures Free("host", BAD) && Free("udp", BAD) && Free("relay", BAD) && Free("tcp", BAD)
    ensures Free("1.1", BAD) && Free("2.2", BAD)
  {}

  /** One line as it is printed, and its summary. */
  lemma OneLine()
    ensures Snapshot(Some(LEFT), STATS_SEEN) == STATE_TEXT + LISTS_TEXT
    ensures Summary("timeout: " + (STATE_TEXT + LISTS_TEXT)) == REPORT_TEXT
  {
    hide Snapshot, Fields, FineDiagnostics, FineStats, HasStats, IsReport, Part, Report, TrimSpace, Summary;
    LeftFine();
    SnapshotForm(LEFT, STATS_SEEN);
    StateLine();
    ListsLine();
    ReportLine();
    var s := Reported("timeout: ", Some(LEFT), STATS_SEEN);
    assert FineSegment(s);
    SummaryOfLine([s]);
    assert [s][1..] == [];
    assert Texts([s]) == [SegmentText(s)];
    assert Reports([s]) == [Report(LEFT, STATS_SEEN)];
  }
}
