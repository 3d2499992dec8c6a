/** The summary of a WebRTC trace line: the parser in the matrix-summary program. */
module Trace {
  import opened Common
  import opened Text

  const STATE: string := "webrtc_state"
  const STATS: string := "webrtc_stats"

  /** The value of `key=` at its first occurrence, up to the next space. */
  function FieldValue(s: string, key: string): string {
    match Index(s, key + "=")
    case None => ""
    case Some(start) =>
      var value := s[start + |key + "="|..];
      TrimSpace(value[..IndexOf(value, ' ')])
  }

  function TrimPrefix(s: string, p: string): string {
    if p <= s then s[|p|..] else s
  }

  function TrimSuffix(s: string, p: string): string {
    if |p| <= |s| && s[|s| - |p|..] == p then s[..|s| - |p|] else s
  }

  function BracketItems(value: string): seq<string> {
    var v := TrimSpace(value);
    if v == "" || v == "[]" then []
    else
      var inner := TrimSuffix(TrimPrefix(v, "["), "]");
      if TrimSpace(inner) == "" then [] else Split(inner, ',')
  }

  function BracketedList(items: seq<string>): string {
    if items == [] then "[]" else "[" + Join(items, ",") + "]"
  }

  const MARKERS: seq<string> := [":host/udp/", ":srflx/udp/", ":relay/udp/"]

  function CompactAt(markers: seq<string>, item: string): string
    requires forall k :: 0 <= k < |markers| ==> markers[k] != ""
  {
    if markers == [] then item
    else
      match Index(item, markers[0])
      case Some(i) => markers[0][1..] + item[i + |markers[0]|..]
      case None => CompactAt(markers[1..], item)
  }

  function CompactCandidate(item: string): string {
    CompactAt(MARKERS, item)
  }

  function LastIndexOf(s: string, c: char): (r: Option<nat>)
    ensures r.Some? ==> r.value < |s| && s[r.value] == c && forall k :: r.value < k < |s| ==> s[k] != c
    ensures r.None? ==> c !in s
  {
    if s == [] then None
    else if s[|s| - 1] == c then Some(|s| - 1)
    else LastIndexOf(s[..|s| - 1], c)
  }

  function CompactPair(item: string): string {
    match Index(item, ":nominated=")
    case None => item
    case Some(idx) =>
      var prefix := item[..idx];
      var state := match LastIndexOf(prefix, ':') case None => prefix case Some(colon) => prefix[colon + 1..];
      state + " " + item[idx + 1..]
  }

  function Mapped<T>(f: T -> string, items: seq<T>): (r: seq<string>)
    ensures |r| == |items| && forall k :: 0 <= k < |items| ==> r[k] == f(items[k])
  {
    seq(|items|, k requires 0 <= k < |items| => f(items[k]))
  }

  method CompactCandidateList(value: string) returns (r: string)
    ensures r == BracketedList(Mapped(CompactCandidate, BracketItems(value)))
  {
    hide CompactCandidate;
    var found := BracketItems(value);
    var items := found;
    if |items| == 0 {
      return "[]";
    }
    for i := 0 to |found|
      invariant |items| == |found|
      invariant forall k :: 0 <= k < |found| ==>
                  items[k] == if k < i then CompactCandidate(found[k]) else found[k]
    {
      items := items[i := CompactCandidate(items[i])];
    }
    assert items == Mapped(CompactCandidate, found);
    r := BracketedList(items);
  }

  method CompactCandidatePairList(value: string) returns (r: string)
    ensures r == BracketedList(Mapped(CompactPair, BracketItems(value)))
  {
    hide CompactPair;
    var found := BracketItems(value);
    var items := found;
    if |items| == 0 {
      return "[]";
    }
    for i := 0 to |found|
      invariant |items| == |found|
      invariant forall k :: 0 <= k < |found| ==>
                  items[k] == if k < i then CompactPair(found[k]) else found[k]
    {
      items := items[i := CompactPair(items[i])];
    }
    assert items == Mapped(CompactPair, found);
    r := BracketedList(items);
  }

  function Or(s: string, default: string): string {
    if s == "" then default else s
  }

  function Dash(s: string): string {
    Or(s, "-")
  }

  predicate IsReport(segment: string) {
    Contains(segment, STATE) && Contains(segment, STATS)
  }

  /** One summary: everything it shows, in terms of the fields. */
  function Line(name: string, ice: string, peer: string, dc: string, local: string, remote: string, pairs: string): string {
    name + " ice=" + ice + " peer=" + peer + " dc=" + dc
    + " local=" + local + " remote=" + remote + " pairs=" + pairs
  }

  function Part(segment: string): string {
    Line(Or(FieldValue(segment, "label"), "peer"), Dash(FieldValue(segment, "ice_connection")),
         Dash(FieldValue(segment, "peer_connection")), Dash(FieldValue(segment, "datachannel")),
         BracketedList(Mapped(CompactCandidate, BracketItems(FieldValue(segment, "local_candidates")))),
         BracketedList(Mapped(CompactCandidate, BracketItems(FieldValue(segment, "remote_candidates")))),
         BracketedList(Mapped(CompactPair, BracketItems(FieldValue(segment, "candidate_pairs")))))
  }

  function Parts(segments: seq<string>): seq<string> {
    if segments == [] then []
    else (if IsReport(TrimSpace(segments[0])) then [Part(TrimSpace(segments[0]))] else []) + Parts(segments[1..])
  }

  function Summary(line: string): string {
    Join(Parts(Split(line, ';')), "; ")
  }

  /** Looking at the whole line first changes nothing: a line without the two words has no
      segment with both. */
  method SummarizeWebRtcTrace(line: string) returns (r: string)
    ensures r == Summary(line)
  {
    hide Contains, FieldValue, TrimSpace, CompactCandidate, CompactPair, BracketItems, Line, BracketedList, Mapped, Dash;
    if !Contains(line, STATE) || !Contains(line, STATS) {
      NoReports(line, ';');
      return "";
    }
    var parts: seq<string> := [];
    var segments := Split(line, ';');
    assert segments[0..] == segments && segments[|segments|..] == [] && Parts([]) == [];
    for k := 0 to |segments|
      invariant parts + Parts(segments[k..]) == Parts(segments)
    {
      PartsStep(segments, k);
      var segment := TrimSpace(segments[k]);
      if !Contains(segment, STATE) || !Contains(segment, STATS) {
        continue;
      }
      var name := FieldValue(segment, "label");
      if name == "" {
        name := "peer";
      }
      var ice, peer, dc := FieldValue(segment, "ice_connection"), FieldValue(segment, "peer_connection"), FieldValue(segment, "datachannel");
      var local := CompactCandidateList(FieldValue(segment, "local_candidates"));
      var remote := CompactCandidateList(FieldValue(segment, "remote_candidates"));
      var pairs := CompactCandidatePairList(FieldValue(segment, "candidate_pairs"));
      var part := Line(name, Dash(ice), Dash(peer), Dash(dc), local, remote, pairs);
      Regrouped(parts, part, Parts(segments[k + 1..]));
      parts := parts + [part];
    }
    assert parts == Parts(segments);
    assert Summary(line) == Join(Parts(Split(line, ';')), "; ");
    r := Join(parts, "; ");
  }

  lemma PartsStep(segments: seq<string>, k: nat)
    requires k < |segments|
    ensures Parts(segments[k..])
         == if IsReport(TrimSpace(segments[k])) then [Part(TrimSpace(segments[k]))] + Parts(segments[k + 1..])
            else Parts(segments[k + 1..])
  {
    hide Part, IsReport, TrimSpace;
    assert segments[k..][1..] == segments[k + 1..];
  }

  lemma {:induction false} SegmentInLine(line: string, c: char, k: nat, sub: string)
    requires k < |Split(line, c)| && Contains(Split(line, c)[k], sub)
    ensures Contains(line, sub)
  {
    hide Contains;
    var i := IndexOf(line, c);
    if i == |line| {
      assert Split(line, c)[k] == line;
    } else if k == 0 {
      assert Split(line, c)[0] == line[0..i];
      ContainsPart(line, 0, i, sub);
    } else {
      SegmentInLine(line[i + 1..], c, k - 1, sub);
      assert line[i + 1..] == line[i + 1..|line|];
      ContainsPart(line, i + 1, |line|, sub);
    }
  }

  lemma TrimmedInSegment(segment: string, sub: string)
    requires Contains(TrimSpace(segment), sub)
    ensures Contains(segment, sub)
  {
    var i, j := TrimPart(segment);
    ContainsPart(segment, i, j, sub);
  }

  lemma {:induction false} NoParts(segments: seq<string>)
    requires forall k :: 0 <= k < |segments| ==> !IsReport(TrimSpace(segments[k]))
    ensures Parts(segments) == []
  {
    hide IsReport;
    if segments != [] {
      NoParts(segments[1..]);
    }
  }

  lemma NoReports(line: string, c: char)
    requires !Contains(line, STATE) || !Contains(line, STATS)
    ensures Parts(Split(line, c)) == []
  {
    hide Contains, TrimSpace;
    var segments := Split(line, c);
    forall k | 0 <= k < |segments|
      ensures !IsReport(TrimSpace(segments[k]))
    {
      if IsReport(TrimSpace(segments[k])) {
        TrimmedInSegment(segments[k], STATE);
        TrimmedInSegment(segments[k], STATS);
        SegmentInLine(line, c, k, STATE);
        SegmentInLine(line, c, k, STATS);
      }
    }
    NoParts(segments);
  }
}
