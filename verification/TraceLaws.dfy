/** The summary of a printed line: what the matrix summary makes of what the demo printed. */
module TraceLaws {
  import opened Common
  import opened Text
  import opened Trace
  import opened TracePrint
  import opened TraceFields
  import opened TraceItems
  import opened TraceLists
  import S = Signature

  // --- One snapshot ------------------------------------------------------------------

  /** What may not stand in a field that the summary passes over; spaces may. */
  const LOOSE: string := ";="

  predicate FineText(s: string) {
    Free(s, FIELD) && Tight(s)
  }

  predicate FineDiagnostics(d: Diagnostics) {
    && FineText(d.name) && FineText(d.ice) && FineText(d.peer) && FineText(d.channel)
    && (d.channelState.Some? ==> FineText(d.channelState.value))
    && Free(d.signaling, LOOSE) && Free(d.gathering, LOOSE) && Free(d.channelError, LOOSE)
  }

  predicate FineStats(stats: seq<Stat>) {
    forall s :: s in stats ==>
      match s
      case LocalCandidate(c) => FineCandidate(c)
      case RemoteCandidate(c) => FineCandidate(c)
      case CandidatePair(p) => FinePair(p)
      case OtherStat => true
  }

  /** What the summary should show of one end, straight from what that end knows: the label,
      then six fields. */
  function Report(d: Diagnostics, stats: seq<Stat>): string {
    Or(d.name, "peer") + Fields(ReportFields(d, stats))
  }

  function ReportFields(d: Diagnostics, stats: seq<Stat>): seq<Field> {
    [Field("ice", Dash(d.ice)), Field("peer", Dash(d.peer)), Field("dc", ChannelShown(d)),
     Field("local", ShownCandidates(Locals(stats))), Field("remote", ShownCandidates(Remotes(stats))),
     Field("pairs", ShownPairs(Pairs(stats)))]
  }

  function ShownCandidates(cs: seq<Candidate>): string {
    BracketedList(Mapped(CandidateShown, SortBy(CandidateEntry, cs)))
  }

  function ShownPairs(ps: seq<Pair>): string {
    BracketedList(Mapped(PairShown, SortBy(PairEntry, ps)))
  }

  /** The layout of a summary is that of six fields after the name. */
  lemma LineIsFields(name: string, ice: string, peer: string, dc: string, local: string, remote: string, pairs: string)
    ensures Line(name, ice, peer, dc, local, remote, pairs)
         == name + Fields([Field("ice", ice), Field("peer", peer), Field("dc", dc), Field("local", local),
                           Field("remote", remote), Field("pairs", pairs)])
  {
    hide FieldText, Fields, Line;
    var a, b, c, d, e, f := Field("ice", ice), Field("peer", peer), Field("dc", dc), Field("local", local),
                            Field("remote", remote), Field("pairs", pairs);
    FieldIs("ice", ice);
    FieldIs("peer", peer);
    FieldIs("dc", dc);
    FieldIs("local", local);
    FieldIs("remote", remote);
    FieldIs("pairs", pairs);
    SixFields(a, b, c, d, e, f);
    SixGlued(name, FieldText(a), FieldText(b), FieldText(c), FieldText(d), FieldText(e), FieldText(f));
    LineParts(name, ice, peer, dc, local, remote, pairs);
  }

  lemma FieldIs(name: string, value: string)
    ensures FieldText(Field(name, value)) == (" " + name + "=") + value
  {}

  lemma SixFields(a: Field, b: Field, c: Field, d: Field, e: Field, f: Field)
    ensures Fields([a, b, c, d, e, f])
         == FieldText(a) + (FieldText(b) + (FieldText(c) + (FieldText(d) + (FieldText(e) + FieldText(f)))))
  {
    hide FieldText;
    assert [a, b, c, d, e, f][1..] == [b, c, d, e, f] && [b, c, d, e, f][1..] == [c, d, e, f];
    assert [c, d, e, f][1..] == [d, e, f] && [d, e, f][1..] == [e, f] && [e, f][1..] == [f] && [f][1..] == [];
    assert Fields([f]) == FieldText(f);
    assert Fields([e, f]) == FieldText(e) + FieldText(f);
    assert Fields([d, e, f]) == FieldText(d) + (FieldText(e) + FieldText(f));
    assert Fields([c, d, e, f]) == FieldText(c) + Fields([d, e, f]);
    assert Fields([b, c, d, e, f]) == FieldText(b) + Fields([c, d, e, f]);
  }

  lemma SixGlued(n: string, a: string, b: string, c: string, d: string, e: string, f: string)
    ensures n + (a + (b + (c + (d + (e + f))))) == n + a + b + c + d + e + f
  {
    assert c + (d + (e + f)) == c + d + e + f;
    assert a + (b + (c + d + e + f)) == a + b + c + d + e + f;
  }

  lemma LineParts(name: string, ice: string, peer: string, dc: string, local: string, remote: string, pairs: string)
    ensures Line(name, ice, peer, dc, local, remote, pairs)
         == name + (" ice=" + ice) + (" peer=" + peer) + (" dc=" + dc)
            + (" local=" + local) + (" remote=" + remote) + (" pairs=" + pairs)
  {
    Apart(name, " ice=", ice);
    var a := name + " ice=" + ice;
    Apart(a, " peer=", peer);
    var b := a + " peer=" + peer;
    Apart(b, " dc=", dc);
    var c := b + " dc=" + dc;
    Apart(c, " local=", local);
    var d := c + " local=" + local;
    Apart(d, " remote=", remote);
    var e := d + " remote=" + remote;
    Apart(e, " pairs=", pairs);
  }

  lemma Apart(a: string, b: string, c: string)
    ensures a + b + c == a + (b + c)
  {}

  /** Different last characters, or too short to end that way. */
  lemma OtherEnd(s: string, t: string)
    requires s != "" && t != "" && (|s| < |t| || s[|s| - 1] != t[|t| - 1])
    ensures !EndsWith(s, t)
  {}

  /** No earlier name of a state ends with the name that is looked for. */
  lemma StateNames(d: Diagnostics, key: string, n: nat)
    requires n <= 7
    requires key == "label" ==> n == 0
    requires key == "ice_connection" ==> n <= 3
    requires key == "peer_connection" ==> n <= 4
    requires key == "datachannel" ==> n <= 5
    requires key in {"label", "ice_connection", "peer_connection", "datachannel",
                     "local_candidates", "remote_candidates", "candidate_pairs"}
    ensures NoneEndsWith(StateFields(d)[..n], key)
  {
    hide ChannelShown, EndsWith;
    var fields := StateFields(d);
    forall k | 0 <= k < n
      ensures !EndsWith(fields[k].name, key)
    {
      OtherEnd(fields[k].name, key);
    }
  }

  lemma StatsNames(local: seq<string>, remote: seq<string>, pairs: seq<string>)
    ensures var fields := StatsFields(local, remote, pairs);
            && NoneEndsWith(fields[..0], "local_candidates")
            && NoneEndsWith(fields[..1], "remote_candidates")
            && NoneEndsWith(fields[..2], "candidate_pairs")
  {
    hide BracketedList;
    OtherEnd("local_candidates", "remote_candidates");
    var a, b, t := "local_candidates", "remote_candidates", "candidate_pairs";
    assert a[1..][0] != t[0];
    assert b[2..][0] != t[0];
  }

  lemma StateBare(d: Diagnostics)
    requires FineDiagnostics(d)
    ensures BareFields(StateFields(d))
    ensures forall k :: k in {0, 3, 4, 5} ==> Bare(StateFields(d)[k].name) && ' ' !in StateFields(d)[k].value
    ensures TrimSpace(ChannelShown(d)) == ChannelShown(d) && ChannelShown(d) != ""
  {
    hide Tight, Free, Bare, Or, ChannelShown;
    ChannelFine(d);
    FreeOf(d.name, FIELD, '=');
    FreeOf(d.signaling, LOOSE, '=');
    FreeOf(d.gathering, LOOSE, '=');
    FreeOf(d.ice, FIELD, '=');
    FreeOf(d.peer, FIELD, '=');
    FreeOf(ChannelShown(d), FIELD, '=');
    DashLoose(d.channelError, '=');
    FreeOf(d.name, FIELD, ' ');
    FreeOf(d.ice, FIELD, ' ');
    FreeOf(d.peer, FIELD, ' ');
    FreeOf(ChannelShown(d), FIELD, ' ');
    NamesBare();
  }

  lemma DashLoose(s: string, ch: char)
    requires Free(s, LOOSE) && ch in LOOSE
    ensures ch !in Or(s, "-")
  {}

  lemma NamesBare()
    ensures Bare("label") && Bare("signaling") && Bare("ice_gathering") && Bare("ice_connection")
    ensures Bare("peer_connection") && Bare("datachannel") && Bare("datachannel_error")
  {
    hide Bare;
    ShortNamesBare();
    LongNamesBare();
  }

  lemma ShortNamesBare()
    ensures Bare("label") && Bare("signaling") && Bare("ice_gathering") && Bare("datachannel")
  {}

  lemma LongNamesBare()
    ensures Bare("ice_connection") && Bare("peer_connection") && Bare("datachannel_error")
  {}

  lemma ListNamesBare()
    ensures Bare("local_candidates") && Bare("remote_candidates") && Bare("candidate_pairs")
  {}

  lemma ChannelFine(d: Diagnostics)
    requires FineDiagnostics(d)
    ensures Free(ChannelShown(d), FIELD) && TrimSpace(ChannelShown(d)) == ChannelShown(d) && ChannelShown(d) != ""
  {
    hide Free;
    var a, b := Or(d.channel, "-"), if d.channelState.Some? then d.channelState.value else "-";
    DashFine();
    FreeAppend(a, ":", FIELD);
    FreeAppend(a + ":", b, FIELD);
    TightJoin(a, b);
    TrimTight(ChannelShown(d));
  }

  lemma DashFine()
    ensures Free("-", FIELD) && Free(":", FIELD) && Tight("-")
  {}

  lemma TightJoin(a: string, b: string)
    requires a != "" && Tight(a) && Tight(b)
    ensures Tight(a + ":" + b)
  {
    var s := a + ":" + b;
    assert SpaceAtFront(s) == 0;
    assert SpaceAtBack(s) == 0;
  }

  function ListFields(stats: seq<Stat>): seq<Field> {
    StatsFields(SortedCandidates(Locals(stats)), SortedCandidates(Remotes(stats)), SortedPairs(Pairs(stats)))
  }

  lemma SnapshotForm(d: Diagnostics, stats: seq<Stat>)
    requires HasStats(stats)
    ensures Snapshot(Some(d), stats) == STATE + Fields(StateFields(d)) + (" " + STATS + Fields(ListFields(stats)))
  {
    hide HasStats, Fields, StateFields, StatsFields, S.Sort;
    assert FormatStats(stats) == STATS + Fields(ListFields(stats));
  }

  lemma ListFieldsEnd(stats: seq<Stat>)
    ensures var text := Fields(ListFields(stats));
            text != "" && text[|text| - 1] == ']'
  {
    hide FieldText, BracketedList, S.Sort;
    var f := ListFields(stats);
    FieldsSplit(f, 2);
    ListEnd(SortedPairs(Pairs(stats)));
    FieldEnd(f[2]);
  }

  lemma FieldEnd(f: Field)
    requires f.value != ""
    ensures FieldText(f) != "" && FieldText(f)[|FieldText(f)| - 1] == f.value[|f.value| - 1]
  {}

  lemma ListEnd(items: seq<string>)
    ensures var list := BracketedList(items);
            list != "" && list[|list| - 1] == ']'
  {}

  /** The segment as the parser sees it: the words before it, then the snapshot, untouched. */
  lemma SegmentTrim(lead: string, d: Diagnostics, stats: seq<Stat>)
    requires HasStats(stats)
    ensures TrimSpace(lead + Snapshot(Some(d), stats))
         == TrimLeft(lead) + STATE + Fields(StateFields(d)) + (" " + STATS + Fields(ListFields(stats)))
  {
    hide Fields, StateFields, ListFields, Snapshot, HasStats;
    SnapshotForm(d, stats);
    ListFieldsEnd(stats);
    var snap := Snapshot(Some(d), stats);
    TrimLeftInto(lead, snap);
    var text := TrimLeft(lead) + snap;
    assert text[|text| - 1] == ']';
    assert TrimRight(text) == text;
  }

  /** The text before the fields of the state, and the text before those of the lists. */
  function StateText(lead: string): string {
    TrimLeft(lead) + STATE
  }

  function ListText(lead: string, d: Diagnostics): string {
    StateText(lead) + Fields(StateFields(d)) + (" " + STATS)
  }

  lemma NoHitState(lead: string, key: string)
    requires '=' !in lead
    ensures NoHit(StateText(lead), key)
  {
    var i := TrimLeftSuffix(lead);
    var text := StateText(lead);
    assert '=' !in text;
    forall j: nat
      ensures !OccursAt(text, key + "=", j)
    {
      if OccursAt(text, key + "=", j) {
        HitEnds(text, key, j);
      }
    }
  }

  lemma NoHitList(lead: string, d: Diagnostics, key: string)
    requires '=' !in lead && FineDiagnostics(d)
    requires key in {"local_candidates", "remote_candidates", "candidate_pairs"}
    ensures NoHit(ListText(lead, d), key)
  {
    hide NoHit, Fields, StateFields, FineDiagnostics, Bare;
    NoHitState(lead, key);
    StateBare(d);
    StateNames(d, key, 7);
    SevenFields(d);
    ListNamesBare();
    NoHitFields(StateText(lead), StateFields(d), key);
    NoHitText(StateText(lead) + Fields(StateFields(d)), " " + STATS, key);
  }

  lemma SevenFields(d: Diagnostics)
    ensures |StateFields(d)| == 7 && StateFields(d)[..7] == StateFields(d)
  {}

  /** A field of the state is found in the segment. */
  lemma StateField(lead: string, d: Diagnostics, post: string, k: nat)
    requires '=' !in lead && FineDiagnostics(d) && k in {0, 3, 4, 5} && post != "" && post[0] == ' '
    ensures var f := StateFields(d)[k];
            FieldValue(StateText(lead) + Fields(StateFields(d)) + post, f.name) == TrimSpace(f.value)
  {
    hide NoHit, Fields, FineDiagnostics, Bare, FieldValue, TrimSpace, ChannelShown, StateText;
    var fields := StateFields(d);
    NoHitState(lead, fields[k].name);
    StateBare(d);
    StateNames(d, fields[k].name, k);
    assert BareFields(fields[..k]);
    FieldsFind(StateText(lead), fields, k, post);
  }

  lemma ListsPlain(stats: seq<Stat>)
    requires FineStats(stats)
    ensures var fields := ListFields(stats);
            && BareFields(fields[..2])
            && forall k :: 0 <= k < 3 ==>
                 Bare(fields[k].name) && ' ' !in fields[k].value && TrimSpace(fields[k].value) == fields[k].value
  {
    hide FineStats, Bare, TrimSpace, BracketedList, Free, SortedCandidates, SortedPairs, Locals, Remotes, Pairs,
         FineCandidate, FinePair, Mapped, BracketItems, SortBy;
    var fields := ListFields(stats);
    ListsFine(stats);
    CandidatesRead(Locals(stats));
    CandidatesRead(Remotes(stats));
    PairsRead(Pairs(stats));
    ListNamesBare();
    FreeOf(fields[0].value, FIELD, '=');
    FreeOf(fields[1].value, FIELD, '=');
    FreeOf(fields[0].value, FIELD, ' ');
    FreeOf(fields[1].value, FIELD, ' ');
    FreeOf(fields[2].value, " ;", ' ');
  }

  /** A list is found in the segment. */
  lemma ListField(lead: string, d: Diagnostics, stats: seq<Stat>, k: nat)
    requires '=' !in lead && FineDiagnostics(d) && FineStats(stats) && k < 3
    ensures var f := ListFields(stats)[k];
            FieldValue(ListText(lead, d) + Fields(ListFields(stats)), f.name) == f.value
  {
    hide NoHit, Fields, FineDiagnostics, FineStats, Bare, FieldValue, TrimSpace, ListText, BracketedList, EndsWith,
         SortedCandidates, SortedPairs, Locals, Remotes, Pairs;
    var fields := ListFields(stats);
    NoHitList(lead, d, fields[k].name);
    ListsPlain(stats);
    StatsNames(SortedCandidates(Locals(stats)), SortedCandidates(Remotes(stats)), SortedPairs(Pairs(stats)));
    assert BareFields(fields[..k]);
    FieldsFind(ListText(lead, d), fields, k, "");
    assert ListText(lead, d) + Fields(fields) + "" == ListText(lead, d) + Fields(fields);
  }

  lemma {:induction false} ListsFine(stats: seq<Stat>)
    requires FineStats(stats)
    ensures forall c :: c in Locals(stats) ==> FineCandidate(c)
    ensures forall c :: c in Remotes(stats) ==> FineCandidate(c)
    ensures forall p :: p in Pairs(stats) ==> FinePair(p)
  {
    hide FineCandidate, FinePair;
    if stats != [] {
      assert stats[0] in stats;
      assert forall s :: s in stats[1..] ==> s in stats;
      ListsFine(stats[1..]);
    }
  }

  /** From a snapshot with lists, whatever words stand before it, the summary takes exactly the
      label, the three states, and every candidate and pair, in order. */
  lemma SegmentSummary(lead: string, d: Diagnostics, stats: seq<Stat>)
    requires '=' !in lead && FineDiagnostics(d) && FineStats(stats) && HasStats(stats)
    ensures IsReport(TrimSpace(lead + Snapshot(Some(d), stats)))
    ensures Part(TrimSpace(lead + Snapshot(Some(d), stats))) == Report(d, stats)
  {
    hide Fields, Snapshot, HasStats, FineDiagnostics, FineStats, FieldValue, Contains, TrimSpace, Line, BracketItems,
         BracketedList, CompactCandidate, CompactPair, CandidateShown, PairShown, SortBy, SortedCandidates, SortedPairs,
         Locals, Remotes, Pairs, ChannelShown, FineCandidate, FinePair, Free, TrimLeft, CandidateEntry, PairEntry;
    var text := TrimSpace(lead + Snapshot(Some(d), stats));
    var state, lists := Fields(StateFields(d)), Fields(ListFields(stats));
    SegmentTrim(lead, d, stats);
    var post := " " + STATS + lists;
    assert text == StateText(lead) + state + post;
    assert text == ListText(lead, d) + lists;
    ContainsMiddle(TrimLeft(lead), STATE, state + post);
    assert text == TrimLeft(lead) + STATE + (state + post);
    ContainsMiddle(StateText(lead) + state + " ", STATS, lists);
    assert text == StateText(lead) + state + " " + STATS + lists;
    StateField(lead, d, post, 0);
    StateField(lead, d, post, 3);
    StateField(lead, d, post, 4);
    StateField(lead, d, post, 5);
    StateTight(d);
    ListField(lead, d, stats, 0);
    ListField(lead, d, stats, 1);
    ListField(lead, d, stats, 2);
    ListsFine(stats);
    CandidatesRead(Locals(stats));
    CandidatesRead(Remotes(stats));
    PairsRead(Pairs(stats));
    LineIsFields(Or(d.name, "peer"), Dash(d.ice), Dash(d.peer), ChannelShown(d),
                 ShownCandidates(Locals(stats)), ShownCandidates(Remotes(stats)), ShownPairs(Pairs(stats)));
  }

  lemma StateTight(d: Diagnostics)
    requires FineDiagnostics(d)
    ensures TrimSpace(d.name) == d.name && TrimSpace(d.ice) == d.ice && TrimSpace(d.peer) == d.peer
    ensures TrimSpace(ChannelShown(d)) == ChannelShown(d) && Dash(ChannelShown(d)) == ChannelShown(d)
  {
    hide Tight, TrimSpace, ChannelShown, Free;
    TrimTight(d.name);
    TrimTight(d.ice);
    TrimTight(d.peer);
    ChannelFine(d);
  }

  // --- Snapshots without lists -------------------------------------------------------

  predicate Wordless(s: string) {
    !Contains(s, STATS)
  }

  /** A separator that the word does not hold cannot help to form it. */
  lemma WordlessApart(a: string, c: char, b: string)
    requires Wordless(a) && Wordless(b) && c !in STATS
    ensures Wordless(a + [c] + b)
  {
    var s, n := a + [c] + b, |STATS|;
    ContainsIff(s, STATS);
    ContainsIff(a, STATS);
    ContainsIff(b, STATS);
    forall k: nat
      ensures !OccursAt(s, STATS, k)
    {
      if OccursAt(s, STATS, k) {
        ApartCases(a, c, b, k);
      }
    }
  }

  lemma ApartCases(a: string, c: char, b: string, k: nat)
    requires OccursAt(a + [c] + b, STATS, k) && c !in STATS
    ensures OccursAt(a, STATS, k) || (k > |a| && OccursAt(b, STATS, k - |a| - 1))
  {
    var s, n := a + [c] + b, |STATS|;
    forall i | k <= i < k + n
      ensures s[i] != c
    {
      assert s[k..k + n][i - k] == s[i];
    }
    assert s[|a|] == c;
    if k <= |a| {
      assert a[k..k + n] == s[k..k + n];
    } else {
      assert b[k - |a| - 1..k - |a| - 1 + n] == s[k..k + n];
    }
  }

  lemma WordlessIf(s: string)
    requires |s| < |STATS| || 'w' !in s || s == STATE
    ensures Wordless(s)
  {
    ContainsIff(s, STATS);
    forall k: nat
      ensures !OccursAt(s, STATS, k)
    {
      if OccursAt(s, STATS, k) {
        WordAt(s, k);
      }
    }
  }

  lemma WordAt(s: string, k: nat)
    requires OccursAt(s, STATS, k)
    ensures k + 12 <= |s| && s[k] == 'w' && s[k + 11] == 's'
  {
    assert s[k..k + |STATS|][0] == s[k];
    assert s[k..k + |STATS|][11] == s[k + 11];
  }

  lemma {:induction false} WordlessFields(text: string, fields: seq<Field>)
    requires Wordless(text) && forall k :: 0 <= k < |fields| ==> Wordless(fields[k].name) && Wordless(fields[k].value)
    ensures Wordless(text + Fields(fields))
    decreases fields
  {
    hide Wordless;
    if fields == [] {
      assert text + Fields(fields) == text;
    } else {
      var f := fields[0];
      assert text + FieldText(f) == text + [' '] + f.name + ['='] + f.value;
      WordlessApart(text, ' ', f.name);
      WordlessApart(text + [' '] + f.name, '=', f.value);
      WordlessFields(text + FieldText(f), fields[1..]);
      assert text + Fields(fields) == text + FieldText(f) + Fields(fields[1..]);
    }
  }

  /** The texts in a snapshot that are free do not hold the word that marks the lists. */
  predicate WordlessDiagnostics(d: Diagnostics) {
    && Wordless(d.name) && Wordless(d.signaling) && Wordless(d.gathering) && Wordless(d.ice) && Wordless(d.peer)
    && Wordless(d.channel) && (d.channelState.Some? ==> Wordless(d.channelState.value)) && Wordless(d.channelError)
  }

  /** What stands before a snapshot: words, and a space after them. */
  predicate Lead(lead: string) {
    lead == "" || lead[|lead| - 1] == ' '
  }

  lemma LeadState(lead: string)
    requires Lead(lead) && Wordless(lead)
    ensures Wordless(lead + STATE)
  {
    hide Contains;
    WordlessIf(STATE);
    if lead == "" {
      assert lead + STATE == STATE;
    } else {
      var front := lead[..|lead| - 1];
      assert lead == front + [' '];
      assert lead[0..|lead| - 1] == front;
      WordlessPart(lead, |lead| - 1);
      WordlessApart(front, ' ', STATE);
    }
  }

  lemma WordlessPart(s: string, n: nat)
    requires Wordless(s) && n <= |s|
    ensures Wordless(s[0..n])
  {
    hide Contains;
    if Contains(s[0..n], STATS) {
      ContainsPart(s, 0, n, STATS);
    }
  }

  lemma NamesWordless(d: Diagnostics)
    ensures forall k :: 0 <= k < 7 ==> Wordless(StateFields(d)[k].name)
  {
    hide Wordless, ChannelShown;
    forall k | 0 <= k < 7
      ensures Wordless(StateFields(d)[k].name)
    {
      NamesWithoutW();
      WordlessIf(StateFields(d)[k].name);
    }
  }

  lemma NamesWithoutW()
    ensures 'w' !in "ice_gathering" && 'w' !in "ice_connection" && 'w' !in "peer_connection" && 'w' !in "datachannel_error"
  {}

  /** A snapshot without lists, and one of no connection, is no report. */
  lemma NoListsNoReport(lead: string, d: Option<Diagnostics>)
    requires Lead(lead) && Wordless(lead) && (d.Some? ==> WordlessDiagnostics(d.value))
    ensures !IsReport(TrimSpace(lead + Snapshot(d, [])))
  {
    hide Wordless, Contains, TrimSpace, Snapshot, IsReport;
    if d.None? {
      WordlessUnavailable(lead);
    } else {
      WordlessState(lead, d.value);
    }
    NotReport(lead + Snapshot(d, []));
  }

  lemma WordlessUnavailable(lead: string)
    requires Lead(lead) && Wordless(lead)
    ensures Wordless(lead + Snapshot(None, []))
  {
    hide Wordless;
    LeadState(lead);
    WordlessIf("unavailable");
    WordlessApart(lead + STATE, '=', "unavailable");
    assert lead + Snapshot(None, []) == lead + STATE + ['='] + "unavailable";
  }

  lemma WordlessState(lead: string, d: Diagnostics)
    requires Lead(lead) && Wordless(lead) && WordlessDiagnostics(d)
    ensures Wordless(lead + Snapshot(Some(d), []))
  {
    hide Wordless, StateFields, Fields;
    LeadState(lead);
    ValuesWordless(d);
    NamesWordless(d);
    SevenFields(d);
    WordlessFields(lead + STATE, StateFields(d));
    assert lead + Snapshot(Some(d), []) == lead + STATE + Fields(StateFields(d));
  }

  lemma NotReport(segment: string)
    requires Wordless(segment)
    ensures !IsReport(TrimSpace(segment))
  {
    hide Contains, TrimSpace;
    if IsReport(TrimSpace(segment)) {
      TrimmedInSegment(segment, STATS);
    }
  }

  lemma ValuesWordless(d: Diagnostics)
    requires WordlessDiagnostics(d)
    ensures forall k :: 0 <= k < 7 ==> Wordless(StateFields(d)[k].value)
  {
    hide Wordless;
    WordlessIf("-");
    WordlessApart(Or(d.channel, "-"), ':', if d.channelState.Some? then d.channelState.value else "-");
  }

  lemma SameWithoutLists(d: Option<Diagnostics>, stats: seq<Stat>)
    requires !HasStats(stats)
    ensures Snapshot(d, stats) == Snapshot(d, [])
  {}

  // --- Whole lines -------------------------------------------------------------------

  /** What stands between two semicolons: some text, or words and a snapshot. */
  datatype Segment = Noise(text: string) | Reported(lead: string, d: Option<Diagnostics>, stats: seq<Stat>)

  function SegmentText(s: Segment): string {
    match s
    case Noise(text) => text
    case Reported(lead, d, stats) => lead + Snapshot(d, stats)
  }

  /** A snapshot with lists is summarized; text, and a snapshot without any, is not. */
  predicate Listed(s: Segment) {
    s.Reported? && s.d.Some? && HasStats(s.stats)
  }

  predicate FineSegment(s: Segment) {
    match s
    case Noise(text) => ';' !in text && !IsReport(TrimSpace(text))
    case Reported(lead, d, stats) =>
      && ';' !in lead && '=' !in lead && FineStats(stats)
      && (d.Some? ==> FineDiagnostics(d.value))
      && (!Listed(s) ==> Lead(lead) && Wordless(lead) && (d.Some? ==> WordlessDiagnostics(d.value)))
  }

  function Reports(segments: seq<Segment>): seq<string> {
    if segments == [] then []
    else
      (if Listed(segments[0]) then [Report(segments[0].d.value, segments[0].stats)] else []) + Reports(segments[1..])
  }

  function Texts(segments: seq<Segment>): (r: seq<string>)
    ensures |r| == |segments| && forall k :: 0 <= k < |r| ==> r[k] == SegmentText(segments[k])
  {
    seq(|segments|, k requires 0 <= k < |segments| => SegmentText(segments[k]))
  }

  /** Every line: the summary shows exactly the snapshots with lists in it, in order, as they
      were. */
  lemma SummaryOfLine(segments: seq<Segment>)
    requires segments != [] && forall k :: 0 <= k < |segments| ==> FineSegment(segments[k])
    ensures Summary(Join(Texts(segments), ";")) == Join(Reports(segments), "; ")
  {
    hide FineSegment, SegmentText, Reports, Parts;
    forall k | 0 <= k < |segments|
      ensures ';' !in Texts(segments)[k]
    {
      NoSemicolon(segments[k]);
    }
    assert [';'] == ";";
    SplitJoin(Texts(segments), ';');
    PartsAreReports(segments);
  }

  lemma {:induction false} PartsAreReports(segments: seq<Segment>)
    requires forall k :: 0 <= k < |segments| ==> FineSegment(segments[k])
    ensures Parts(Texts(segments)) == Reports(segments)
  {
    hide FineSegment, SegmentText, IsReport, Part, Report, TrimSpace, HasStats;
    if segments != [] {
      PartsAreReports(segments[1..]);
      assert Texts(segments)[1..] == Texts(segments[1..]);
      OneSegment(segments[0]);
    }
  }

  lemma OneSegment(s: Segment)
    requires FineSegment(s)
    ensures IsReport(TrimSpace(SegmentText(s))) <==> Listed(s)
    ensures Listed(s) ==> Part(TrimSpace(SegmentText(s))) == Report(s.d.value, s.stats)
  {
    hide IsReport, Part, Report, TrimSpace, Snapshot, FineDiagnostics, FineStats, HasStats, WordlessDiagnostics, Wordless;
    if Listed(s) {
      SegmentSummary(s.lead, s.d.value, s.stats);
    } else if s.Reported? {
      NoListsNoReport(s.lead, s.d);
      if s.d.None? {
        Unavailable(s.stats);
      } else {
        SameWithoutLists(s.d, s.stats);
      }
    }
  }

  lemma Unavailable(stats: seq<Stat>)
    ensures Snapshot(None, stats) == Snapshot(None, [])
  {}

  lemma NoSemicolon(s: Segment)
    requires FineSegment(s)
    ensures ';' !in SegmentText(s)
  {
    hide FineDiagnostics, FineStats, HasStats, Snapshot, IsReport, TrimSpace, WordlessDiagnostics, Wordless;
    if s.Reported? {
      if Listed(s) {
        SnapshotNoSemicolon(s.d.value, s.stats);
      } else {
        PlainNoSemicolon(s.d, s.stats);
      }
    }
  }

  lemma PlainNoSemicolon(d: Option<Diagnostics>, stats: seq<Stat>)
    requires d.Some? ==> FineDiagnostics(d.value) && !HasStats(stats)
    ensures ';' !in Snapshot(d, stats)
  {
    hide Fields, FineDiagnostics, HasStats, StateFields;
    assert ';' !in STATE && ';' !in "=unavailable";
    if d.Some? {
      StateNoSemicolon(d.value);
    }
  }

  lemma SnapshotNoSemicolon(d: Diagnostics, stats: seq<Stat>)
    requires FineDiagnostics(d) && FineStats(stats) && HasStats(stats)
    ensures ';' !in Snapshot(Some(d), stats)
  {
    hide Snapshot, Fields, FineDiagnostics, FineStats, HasStats, StateFields, ListFields;
    SnapshotForm(d, stats);
    StateNoSemicolon(d);
    ListsNoSemicolon(stats);
    assert ';' !in STATE && ';' !in " " + STATS;
  }

  lemma {:induction false} FieldsNoSemicolon(fields: seq<Field>)
    requires forall k :: 0 <= k < |fields| ==> ';' !in fields[k].name && ';' !in fields[k].value
    ensures ';' !in Fields(fields)
  {
    if fields != [] {
      FieldsNoSemicolon(fields[1..]);
    }
  }

  lemma StateNoSemicolon(d: Diagnostics)
    requires FineDiagnostics(d)
    ensures ';' !in Fields(StateFields(d))
  {
    hide Fields, Tight, ChannelShown, Free, Or;
    ChannelFine(d);
    FreeOf(d.name, FIELD, ';');
    FreeOf(d.signaling, LOOSE, ';');
    FreeOf(d.gathering, LOOSE, ';');
    FreeOf(d.ice, FIELD, ';');
    FreeOf(d.peer, FIELD, ';');
    FreeOf(ChannelShown(d), FIELD, ';');
    DashLoose(d.channelError, ';');
    StateNamesNoSemicolon();
    FieldsNoSemicolon(StateFields(d));
  }

  lemma StateNamesNoSemicolon()
    ensures ';' !in "label" && ';' !in "signaling" && ';' !in "ice_gathering" && ';' !in "ice_connection"
    ensures ';' !in "peer_connection" && ';' !in "datachannel" && ';' !in "datachannel_error" && ';' !in "-"
  {}

  lemma ListsNoSemicolon(stats: seq<Stat>)
    requires FineStats(stats)
    ensures ';' !in Fields(ListFields(stats))
  {
    hide Fields, FineStats, SortedCandidates, SortedPairs, FineCandidate, FinePair, BracketedList, CompactCandidate,
         CompactPair, TrimSpace, Free, BracketItems, SortBy, CandidateShown, PairShown;
    var fields := ListFields(stats);
    ListsFine(stats);
    CandidatesRead(Locals(stats));
    CandidatesRead(Remotes(stats));
    PairsRead(Pairs(stats));
    FreeOf(fields[0].value, FIELD, ';');
    FreeOf(fields[1].value, FIELD, ';');
    FreeOf(fields[2].value, " ;", ';');
    ListNamesNoSemicolon();
    FieldsNoSemicolon(fields);
  }

  lemma ListNamesNoSemicolon()
    ensures ';' !in "local_candidates" && ';' !in "remote_candidates" && ';' !in "candidate_pairs"
  {}
}
