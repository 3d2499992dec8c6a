/** Taking the candidate lines out of a session description, and listing them. */
module Sdp {
  import opened Common
  import opened Text
  import opened Signal

  const CANDIDATE: string := "a=candidate:"
  const END: string := "a=end-of-candidates"

  predicate IsCandidate(line: string) {
    HasPrefix(TrimSpace(line), CANDIDATE)
  }

  predicate IsEnd(line: string) {
    TrimSpace(line) == END
  }

  predicate Goes(line: string) {
    IsCandidate(line) || IsEnd(line)
  }

  function Concat(lines: seq<string>): string {
    if lines == [] then "" else lines[0] + Concat(lines[1..])
  }

  function Kept(lines: seq<string>): seq<string> {
    if lines == [] then []
    else (if Goes(lines[0]) then [] else [lines[0]]) + Kept(lines[1..])
  }

  function Removed(lines: seq<string>): seq<string> {
    if lines == [] then []
    else (if Goes(lines[0]) then [lines[0]] else []) + Removed(lines[1..])
  }

  function Stripped(sdp: string): string {
    Concat(Kept(SplitAfter(sdp, '\n')))
  }

  lemma EmptyConcat()
    ensures Concat(Kept([])) == ""
  {}

  /** One line more. */
  lemma KeptStep(lines: seq<string>, k: nat)
    requires k < |lines|
    ensures Kept(lines[k..]) == if Goes(lines[k]) then Kept(lines[k + 1..]) else [lines[k]] + Kept(lines[k + 1..])
    ensures Concat(Kept(lines[k..]))
         == if Goes(lines[k]) then Concat(Kept(lines[k + 1..])) else lines[k] + Concat(Kept(lines[k + 1..]))
  {
    hide Goes;
    assert lines[k..][1..] == lines[k + 1..];
    assert ([lines[k]] + Kept(lines[k + 1..]))[1..] == Kept(lines[k + 1..]);
  }

  method WithoutSdpCandidateLines(sdp: string) returns (b: string)
    ensures b == Stripped(sdp)
  {
    hide TrimSpace, Kept, Concat;
    b := "";
    var lines := SplitAfter(sdp, '\n');
    assert lines[0..] == lines && lines[|lines|..] == [];
    EmptyConcat();
    for k := 0 to |lines|
      invariant b + Concat(Kept(lines[k..])) == Concat(Kept(lines))
    {
      KeptStep(lines, k);
      ghost var before := b;
      var trimmed := TrimSpace(lines[k]);
      if HasPrefix(trimmed, CANDIDATE) || trimmed == END {
        continue;
      }
      b := b + lines[k];
      assert b + Concat(Kept(lines[k + 1..])) == before + (lines[k] + Concat(Kept(lines[k + 1..])));
    }
  }

  /** The candidates among the lines, each without its "a=". */
  function Candidates(lines: seq<string>): seq<string> {
    if lines == [] then []
    else (if IsCandidate(lines[0]) then [TrimSpace(lines[0])[2..]] else []) + Candidates(lines[1..])
  }

  predicate HasEnd(lines: seq<string>) {
    exists k :: 0 <= k < |lines| && IsEnd(lines[k])
  }

  lemma CandidatesStep(lines: seq<string>, k: nat)
    requires k < |lines|
    ensures IsCandidate(lines[k]) ==> |TrimSpace(lines[k])| >= 2 && !IsEnd(lines[k])
    ensures Candidates(lines[k..])
         == if IsCandidate(lines[k]) then [TrimSpace(lines[k])[2..]] + Candidates(lines[k + 1..])
            else Candidates(lines[k + 1..])
  {
    hide TrimSpace;
    assert lines[k..][1..] == lines[k + 1..];
    if IsCandidate(lines[k]) {
      assert TrimSpace(lines[k])[2] == CANDIDATE[2] != END[2];
    }
  }

  method SdpCandidateLines(sdp: string) returns (candidates: seq<string>, hasEnd: bool)
    ensures candidates == Candidates(Split(sdp, '\n')) && hasEnd == HasEnd(Split(sdp, '\n'))
  {
    hide TrimSpace, Candidates, IsEnd;
    candidates, hasEnd := [], false;
    var lines := Split(sdp, '\n');
    assert lines[0..] == lines && lines[|lines|..] == [];
    EmptyCandidates();
    for k := 0 to |lines|
      invariant candidates + Candidates(lines[k..]) == Candidates(lines)
      invariant hasEnd <==> exists j :: 0 <= j < k && IsEnd(lines[j])
    {
      CandidatesStep(lines, k);
      ghost var before := candidates;
      var line := TrimSpace(lines[k]);
      EndIs(lines[k]);
      if HasPrefix(line, CANDIDATE) {
        candidates := candidates + [line[2..]];
        assert candidates + Candidates(lines[k + 1..]) == before + ([line[2..]] + Candidates(lines[k + 1..]));
      } else if line == END {
        hasEnd := true;
      }
    }
  }

  lemma EmptyCandidates()
    ensures Candidates([]) == []
  {}

  lemma EndIs(line: string)
    ensures IsEnd(line) <==> TrimSpace(line) == END
  {}

  // --- The two ways of splitting agree -----------------------------------------------

  /** Line by line: the same text, but for the newline. */
  predicate SameLines(after: seq<string>, plain: seq<string>) {
    && |after| == |plain| > 0
    && after[|after| - 1] == plain[|plain| - 1]
    && forall k :: 0 <= k < |after| - 1 ==> after[k] == plain[k] + "\n"
  }

  lemma {:induction false} SplitsAgree(s: string)
    ensures SameLines(SplitAfter(s, '\n'), Split(s, '\n'))
    ensures Concat(SplitAfter(s, '\n')) == s
  {
    hide Split, SplitAfter;
    var i := IndexOf(s, '\n');
    if i == |s| {
      SplitNone(s, '\n');
      assert [s][1..] == [];
      assert Concat([]) == "";
    } else {
      var line, rest := s[..i], s[i + 1..];
      assert s == line + ['\n'] + rest;
      SplitsAgree(rest);
      SplitFront(line, rest, '\n');
      assert ([line + ['\n']] + SplitAfter(rest, '\n'))[1..] == SplitAfter(rest, '\n');
    }
  }

  lemma NewlineNoMatter(line: string)
    ensures IsCandidate(line + "\n") == IsCandidate(line) && IsEnd(line + "\n") == IsEnd(line)
    ensures TrimSpace(line + "\n") == TrimSpace(line)
  {
    TrimNewline(line);
  }

  lemma {:induction false} CandidatesAgree(after: seq<string>, plain: seq<string>)
    requires SameLines(after, plain)
    ensures Candidates(after) == Candidates(plain) && HasEnd(after) == HasEnd(plain)
  {
    hide TrimSpace, IsCandidate, IsEnd;
    forall k | 0 <= k < |after|
      ensures IsEnd(after[k]) == IsEnd(plain[k])
    {
      if k < |after| - 1 {
        NewlineNoMatter(plain[k]);
      }
    }
    if |after| > 1 {
      NewlineNoMatter(plain[0]);
      CandidatesAgree(after[1..], plain[1..]);
    } else {
      assert after == plain;
    }
  }

  // --- What is stripped is what is listed --------------------------------------------

  /** Puts two lists together, taking from the second where the mask says so. */
  function Weave(mask: seq<bool>, kept: seq<string>, removed: seq<string>): seq<string>
    decreases |mask|
  {
    if mask == [] then []
    else if mask[0] then
      (if removed == [] then [] else [removed[0]] + Weave(mask[1..], kept, removed[1..]))
    else
      (if kept == [] then [] else [kept[0]] + Weave(mask[1..], kept[1..], removed))
  }

  /** Which lines go. */
  function Mask(lines: seq<string>): (mask: seq<bool>)
    ensures |mask| == |lines| && forall k :: 0 <= k < |lines| ==> mask[k] == Goes(lines[k])
  {
    seq(|lines|, k requires 0 <= k < |lines| => Goes(lines[k]))
  }

  /** Every line is kept or removed, once, in order: the two lists weave back to the input. */
  lemma {:induction false} Partition(lines: seq<string>)
    ensures Weave(Mask(lines), Kept(lines), Removed(lines)) == lines
  {
    hide Goes;
    if lines != [] {
      var rest := lines[1..];
      Partition(rest);
      assert Mask(lines)[1..] == Mask(rest);
      if Goes(lines[0]) {
        assert Removed(lines)[1..] == Removed(rest) && Kept(lines) == Kept(rest);
      } else {
        assert Kept(lines)[1..] == Kept(rest) && Removed(lines) == Removed(rest);
      }
    }
  }

  lemma {:induction false} Sides(lines: seq<string>)
    ensures |Kept(lines)| + |Removed(lines)| == |lines|
    ensures forall k :: 0 <= k < |Kept(lines)| ==> !Goes(Kept(lines)[k])
    ensures forall k :: 0 <= k < |Removed(lines)| ==> Goes(Removed(lines)[k])
  {
    hide Goes;
    if lines != [] {
      Sides(lines[1..]);
    }
  }

  /** Nothing but candidate lines and end marks is lost, and no byte moves. */
  lemma StrippedIsPartition(sdp: string)
    ensures var lines := SplitAfter(sdp, '\n');
            && Concat(lines) == sdp
            && Weave(Mask(lines), Kept(lines), Removed(lines)) == lines
            && (forall k :: 0 <= k < |Kept(lines)| ==> !Goes(Kept(lines)[k]))
            && (forall k :: 0 <= k < |Removed(lines)| ==> Goes(Removed(lines)[k]))
            && |Kept(lines)| + |Removed(lines)| == |lines|
            && |Stripped(sdp)| + |Concat(Removed(lines))| == |sdp|
  {
    SplitsAgree(sdp);
    Partition(SplitAfter(sdp, '\n'));
    Sides(SplitAfter(sdp, '\n'));
    Lengths(SplitAfter(sdp, '\n'));
  }

  lemma {:induction false} Lengths(lines: seq<string>)
    ensures |Concat(Kept(lines))| + |Concat(Removed(lines))| == |Concat(lines)|
  {
    hide Goes;
    if lines != [] {
      Lengths(lines[1..]);
      ConcatAppend(if Goes(lines[0]) then [] else [lines[0]], Kept(lines[1..]));
      ConcatAppend(if Goes(lines[0]) then [lines[0]] else [], Removed(lines[1..]));
    }
  }

  lemma {:induction false} ConcatAppend(a: seq<string>, b: seq<string>)
    ensures Concat(a + b) == Concat(a) + Concat(b)
  {
    if a == [] {
      assert a + b == b;
    } else {
      ConcatAppend(a[1..], b);
      assert (a + b)[1..] == a[1..] + b && (a + b)[0] == a[0];
      assert (a[0] + Concat(a[1..])) + Concat(b) == a[0] + (Concat(a[1..]) + Concat(b));
    }
  }

  /** The candidates that are listed are those of the lines that are removed. */
  lemma {:induction false} ListedAreRemoved(lines: seq<string>)
    ensures Candidates(lines) == Candidates(Removed(lines))
    ensures HasEnd(lines) == HasEnd(Removed(lines))
    ensures Candidates(Kept(lines)) == [] && !HasEnd(Kept(lines))
  {
    hide IsCandidate, IsEnd;
    if lines != [] {
      ListedAreRemoved(lines[1..]);
      EndOf(lines[0], lines[1..]);
      if Goes(lines[0]) {
        EndOf(lines[0], Removed(lines[1..]));
        assert Kept(lines) == Kept(lines[1..]);
      } else {
        EndOf(lines[0], Kept(lines[1..]));
        assert Removed(lines) == Removed(lines[1..]);
      }
    }
  }

  lemma EndOf(first: string, rest: seq<string>)
    ensures HasEnd([first] + rest) == (IsEnd(first) || HasEnd(rest))
    ensures ([first] + rest)[1..] == rest
    ensures forall lines: seq<string> :: lines != [] && lines[0] == first && lines[1..] == rest ==> lines == [first] + rest
  {
    hide IsEnd;
    if IsEnd(first) {
      assert IsEnd(([first] + rest)[0]);
    }
    if k :| 0 <= k < |rest| && IsEnd(rest[k]) {
      assert IsEnd(([first] + rest)[k + 1]);
    }
  }

  lemma StrippedAreListed(sdp: string)
    ensures Candidates(Split(sdp, '\n')) == Candidates(Removed(SplitAfter(sdp, '\n')))
    ensures HasEnd(Split(sdp, '\n')) == HasEnd(Removed(SplitAfter(sdp, '\n')))
  {
    SplitsAgree(sdp);
    CandidatesAgree(SplitAfter(sdp, '\n'), Split(sdp, '\n'));
    ListedAreRemoved(SplitAfter(sdp, '\n'));
  }

  // --- Splitting what was stripped ---------------------------------------------------

  /** Lines as SplitAfter leaves them: each ends with its only newline, the last has none. */
  predicate Terminated(line: string) {
    line != "" && line[|line| - 1] == '\n' && '\n' !in line[..|line| - 1]
  }

  lemma {:induction false} SplitAfterForm(s: string)
    ensures var r := SplitAfter(s, '\n');
            '\n' !in r[|r| - 1] && forall k :: 0 <= k < |r| - 1 ==> Terminated(r[k])
  {
    var i := IndexOf(s, '\n');
    if i < |s| {
      SplitAfterForm(s[i + 1..]);
      assert s[..i + 1][..i] == s[..i];
    }
  }

  lemma {:induction false} SplitAfterConcat(lines: seq<string>, last: string)
    requires (forall k :: 0 <= k < |lines| ==> Terminated(lines[k])) && '\n' !in last
    ensures SplitAfter(Concat(lines) + last, '\n') == lines + [last]
  {
    hide SplitAfter, Split;
    if lines == [] {
      SplitNone(last, '\n');
      assert Concat(lines) + last == last;
    } else {
      var a, rest := lines[0][..|lines[0]| - 1], Concat(lines[1..]);
      SplitAfterConcat(lines[1..], last);
      SplitFront(a, rest + last, '\n');
      assert lines[0] == a + ['\n'];
      assert Concat(lines) == a + ['\n'] + rest;
      assert a + ['\n'] + (rest + last) == a + ['\n'] + rest + last;
      assert lines + [last] == [lines[0]] + (lines[1..] + [last]);
    }
  }

  lemma {:induction false} KeptAppend(a: seq<string>, b: seq<string>)
    ensures Kept(a + b) == Kept(a) + Kept(b)
  {
    hide Goes;
    if a == [] {
      assert a + b == b;
    } else {
      KeptAppend(a[1..], b);
      assert (a + b)[1..] == a[1..] + b && (a + b)[0] == a[0];
      var first := if Goes(a[0]) then [] else [a[0]];
      assert (first + Kept(a[1..])) + Kept(b) == first + (Kept(a[1..]) + Kept(b));
    }
  }

  lemma {:induction false} KeptTerminated(lines: seq<string>)
    requires forall k :: 0 <= k < |lines| ==> Terminated(lines[k])
    ensures forall k :: 0 <= k < |Kept(lines)| ==> Terminated(Kept(lines)[k])
  {
    hide Terminated, Goes;
    if lines != [] {
      KeptTerminated(lines[1..]);
    }
  }

  /** The lines of a stripped description are the kept lines, with an empty last line where
      the unterminated last line went. */
  lemma StrippedLines(sdp: string)
    ensures var lines := SplitAfter(sdp, '\n');
            var last := lines[|lines| - 1];
            SplitAfter(Stripped(sdp), '\n') == Kept(lines[..|lines| - 1]) + [if Goes(last) then "" else last]
  {
    hide Goes, Terminated, SplitAfter;
    var lines := SplitAfter(sdp, '\n');
    var front, last := lines[..|lines| - 1], lines[|lines| - 1];
    SplitAfterForm(sdp);
    KeptTerminated(front);
    assert lines == front + [last];
    KeptAppend(front, [last]);
    var end := if Goes(last) then "" else last;
    ConcatAppend(Kept(front), Kept([last]));
    assert [last][1..] == [];
    assert Concat(Kept([last])) == end;
    SplitAfterConcat(Kept(front), end);
  }

  lemma EmptyStays()
    ensures !Goes("")
  {
    assert TrimSpace("") == "";
  }

  lemma {:induction false} KeptIdempotent(lines: seq<string>)
    ensures Kept(Kept(lines)) == Kept(lines)
  {
    hide Goes;
    if lines != [] {
      KeptIdempotent(lines[1..]);
      if Goes(lines[0]) {
        assert Kept(lines) == Kept(lines[1..]);
      } else {
        assert Kept(lines)[1..] == Kept(lines[1..]);
      }
    }
  }

  lemma AllKept(sdp: string)
    ensures Kept(SplitAfter(Stripped(sdp), '\n')) == SplitAfter(Stripped(sdp), '\n')
  {
    hide Goes, SplitAfter;
    var lines := SplitAfter(sdp, '\n');
    var front, last := lines[..|lines| - 1], lines[|lines| - 1];
    var end := if Goes(last) then "" else last;
    StrippedLines(sdp);
    KeptIdempotent(front);
    EmptyStays();
    KeptAppend(Kept(front), [end]);
    assert [end][1..] == [];
    assert Kept([end]) == [end];
  }

  /** Stripping twice is stripping once. */
  lemma StripIdempotent(sdp: string)
    ensures Stripped(Stripped(sdp)) == Stripped(sdp)
  {
    AllKept(sdp);
    SplitsAgree(Stripped(sdp));
  }

  /** A stripped description lists no candidate and no end mark. */
  lemma StrippedHasNone(sdp: string)
    ensures Candidates(Split(Stripped(sdp), '\n')) == [] && !HasEnd(Split(Stripped(sdp), '\n'))
  {
    hide Goes, SplitAfter, Split, Kept, Candidates, HasEnd;
    var after := SplitAfter(Stripped(sdp), '\n');
    StrippedAreListed(Stripped(sdp));
    AllKept(sdp);
    ListedAreRemoved(after);
  }

  // --- The signal that carries it ----------------------------------------------------

  /** With a synthetic host candidate the candidates travel beside the description. */
  function NewWireSignal(desc: Description, synthetic: bool, candidates: seq<string>): WireSignal {
    if !synthetic then WireSignal(desc, [])
    else WireSignal(desc.(sdp := Stripped(desc.sdp)), candidates)
  }

  /** Some line of the description is left to send. */
  predicate LineStays(lines: seq<string>) {
    exists k :: 0 <= k < |lines| && lines[k] != "" && !Goes(lines[k])
  }

  lemma {:induction false} NothingStays(lines: seq<string>)
    ensures Concat(Kept(lines)) != "" <==> LineStays(lines)
  {
    hide Goes;
    if lines != [] {
      var rest := lines[1..];
      NothingStays(rest);
      KeptStep(lines, 0);
      assert lines[0..] == lines;
      if k :| 0 <= k < |rest| && rest[k] != "" && !Goes(rest[k]) {
        assert lines[k + 1] == rest[k];
      }
      if k :| 0 <= k < |lines| && lines[k] != "" && !Goes(lines[k]) {
        if k > 0 {
          assert rest[k - 1] == lines[k];
        }
      }
    }
  }

  /** The new signal reaches the other side exactly when it still has a line to carry; there
      it is the description as given, or stripped and with the given candidates beside it. */
  lemma NewWireSignalTravels(j: Json, desc: Description, synthetic: bool, candidates: seq<string>)
    requires Invertible(j)
    ensures DecodeWireSignal(j, EncodeWireSignal(j, NewWireSignal(desc, synthetic, candidates)))
         == Ok(WireSignal(Description(desc.kind, if synthetic then Stripped(desc.sdp) else desc.sdp),
                          if synthetic then candidates else []))
       <==> if synthetic then LineStays(SplitAfter(desc.sdp, '\n')) else desc.sdp != ""
  {
    hide Invertible, DecodeWireSignal, EncodeWireSignal, LineStays, SplitAfter;
    NothingStays(SplitAfter(desc.sdp, '\n'));
    DecodeEncode(j, NewWireSignal(desc, synthetic, candidates));
  }

  // --- One description ---------------------------------------------------------------

  lemma FourLines(a: string, b: string, c: string, d: string)
    requires Terminated(a) && Terminated(b) && Terminated(c) && '\n' !in d
    ensures SplitAfter(a + b + c + d, '\n') == [a, b, c, d]
  {
    hide SplitAfter, Terminated, Concat;
    SplitAfterConcat([a, b, c], d);
    ThreeConcat(a, b, c);
    assert [a, b, c] + [d] == [a, b, c, d];
  }

  lemma ThreeConcat(a: string, b: string, c: string)
    ensures Concat([a, b, c]) == a + b + c
  {
    assert [a, b, c][1..] == [b, c] && [b, c][1..] == [c] && [c][1..] == [];
    assert Concat([c]) == c;
    assert Concat([b, c]) == b + c;
    assert a + (b + c) == a + b + c;
  }

  lemma LineTrimmed(text: string)
    requires text != "" && Plain(text[0]) && Plain(text[|text| - 1])
    ensures TrimSpace(text) == text && TrimSpace(text + "\n") == text && TrimSpace(" " + (text + "\n")) == text
  {
    TrimPlain(text);
    TrimNewline(text);
    TrimNewline(" " + text);
    assert " " + (text + "\n") == (" " + text) + "\n";
    assert (" " + text)[1..] == text;
    assert TrimLeft(" " + text) == TrimLeft(text);
  }

  lemma CandidateGoes()
    ensures IsCandidate("a=candidate:1" + "\n") && TrimSpace("a=candidate:1" + "\n") == "a=candidate:1"
  {
    hide TrimSpace;
    LineTrimmed("a=candidate:1");
  }

  lemma EndGoes()
    ensures IsEnd(" " + ("a=end-of-candidates" + "\n"))
  {
    hide TrimSpace;
    LineTrimmed("a=end-of-candidates");
  }

  lemma OthersStay()
    ensures !Goes("a=mid:0" + "\n") && !Goes("a=candidate 1")
  {
    hide TrimSpace;
    LineTrimmed("a=mid:0");
    LineTrimmed("a=candidate 1");
    assert "a=mid:0"[2] == 'm' && CANDIDATE[2] == 'c' && END[2] == 'e';
    assert "a=candidate 1"[11] == ' ' && CANDIDATE[11] == ':';
  }

  lemma FourKept(a: string, b: string, c: string, d: string)
    requires !Goes(a) && Goes(b) && Goes(c) && !Goes(d)
    ensures Concat(Kept([a, b, c, d])) == a + d
  {
    hide Goes;
    var lines := [a, b, c, d];
    assert lines[0..] == lines && lines[4..] == [];
    EmptyConcat();
    KeptStep(lines, 3);
    assert Concat(Kept(lines[3..])) == d;
    KeptStep(lines, 2);
    KeptStep(lines, 1);
    KeptStep(lines, 0);
  }

  lemma FourListed(a: string, b: string, c: string, d: string)
    requires !IsCandidate(a) && IsCandidate(b) && !IsCandidate(c) && !IsCandidate(d) && IsEnd(c)
    ensures Candidates([a, b, c, d]) == [TrimSpace(b)[2..]] && HasEnd([a, b, c, d])
  {
    hide IsCandidate, IsEnd, TrimSpace, Candidates;
    var lines := [a, b, c, d];
    assert lines[0..] == lines && lines[4..] == [];
    EmptyCandidates();
    CandidatesStep(lines, 3);
    CandidatesStep(lines, 2);
    CandidatesStep(lines, 1);
    CandidatesStep(lines, 0);
    assert IsEnd(lines[2]);
  }

  /** One description: what is left of it, and what is listed. A candidate and the end mark go,
      however they are indented; what only begins like one stays. */
  lemma OneDescription()
    ensures var sdp := "a=mid:0\n" + "a=candidate:1\n" + " a=end-of-candidates\n" + "a=candidate 1";
            && Stripped(sdp) == "a=mid:0\n" + "a=candidate 1"
            && Candidates(Split(sdp, '\n')) == ["candidate:1"] && HasEnd(Split(sdp, '\n'))
  {
    hide Goes, IsCandidate, IsEnd, SplitAfter, Split, TrimSpace, Kept, Candidates, HasEnd, Terminated;
    var a, b, c, d := "a=mid:0\n", "a=candidate:1\n", " a=end-of-candidates\n", "a=candidate 1";
    LinesEnd();
    LinesAre();
    GoesIs(a, b, c, d);
    FourLines(a, b, c, d);
    FourKept(a, b, c, d);
    FourListed(a, b, c, d);
    StrippedAreListed(a + b + c + d);
    ListedAreRemoved([a, b, c, d]);
    assert "a=candidate:1"[2..] == "candidate:1";
  }

  lemma GoesIs(a: string, b: string, c: string, d: string)
    requires !Goes(a) && IsCandidate(b) && IsEnd(c) && !Goes(d)
    ensures Goes(b) && Goes(c) && !IsCandidate(a) && !IsCandidate(c) && !IsCandidate(d)
  {
    hide TrimSpace;
    assert END[2] != CANDIDATE[2];
  }

  lemma LinesEnd()
    ensures Terminated("a=mid:0\n") && Terminated("a=candidate:1\n") && Terminated(" a=end-of-candidates\n")
    ensures '\n' !in "a=candidate 1"
  {}

  lemma LinesAre()
    ensures !Goes("a=mid:0\n") && IsCandidate("a=candidate:1\n") && IsEnd(" a=end-of-candidates\n") && !Goes("a=candidate 1")
    ensures TrimSpace("a=candidate:1\n") == "a=candidate:1"
  {
    hide Goes, IsCandidate, IsEnd, TrimSpace;
    CandidateGoes();
    EndGoes();
    OthersStay();
    assert "a=mid:0" + "\n" == "a=mid:0\n" && "a=candidate:1" + "\n" == "a=candidate:1\n";
    assert " " + ("a=end-of-candidates" + "\n") == " a=end-of-candidates\n";
  }
}
