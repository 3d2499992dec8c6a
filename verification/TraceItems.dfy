/** What the compact forms keep of the candidates and pairs that were printed. */
module TraceItems {
  import opened Common
  import opened Text
  import opened Trace
  import opened TracePrint

  /** Characters that a printed item may not hold. */
  const BAD: string := " ,;="

  predicate FreeCandidate(c: Candidate) {
    Free(c.id, BAD) && Free(c.kind, BAD) && Free(c.protocol, BAD) && Free(c.ip, BAD)
  }

  predicate FreePair(p: Pair) {
    Free(p.local, BAD) && Free(p.remote, BAD) && Free(p.state, BAD)
  }

  /** What the summary can take apart: see `CompactPrinted` and `CompactPrintedPair`. */
  predicate FineCandidate(c: Candidate) {
    FreeCandidate(c) && Unmistaken(KINDS, c)
  }

  predicate FinePair(p: Pair) {
    FreePair(p) && ':' !in p.state
  }

  // --- Numbers -----------------------------------------------------------------------

  predicate Digits(s: string) {
    forall k :: 0 <= k < |s| ==> '0' <= s[k] <= '9'
  }

  lemma {:induction false} DecimalDigits(n: nat)
    ensures Digits(Decimal(n)) && Decimal(n) != ""
  {
    if n >= 10 {
      DecimalDigits(n / 10);
    }
  }

  function Value(s: string): nat
    requires Digits(s)
  {
    if s == "" then 0 else Value(s[..|s| - 1]) * 10 + (s[|s| - 1] as int - '0' as int)
  }

  /** Every counter and port can be read back. */
  lemma {:induction false} DecimalValue(n: nat)
    ensures Digits(Decimal(n)) && Value(Decimal(n)) == n
  {
    DecimalDigits(n);
    if n >= 10 {
      DecimalDigits(n / 10);
      DecimalValue(n / 10);
      assert Decimal(n)[..|Decimal(n)| - 1] == Decimal(n / 10);
    }
  }

  // --- Candidates --------------------------------------------------------------------

  const KINDS: seq<string> := ["host", "srflx", "relay"]

  /** The ID goes for the kinds the summary knows over UDP; nothing else ever does. */
  function CandidateShown(c: Candidate): string {
    if c.kind in KINDS && c.protocol == "udp" then CandidateEnd(c) else CandidateEntry(c)
  }

  function Marker(kind: string): (r: string)
    ensures r != ""
  {
    ":" + kind + "/udp/"
  }

  /** Looking for the markers of `kinds` one after the other in what is printed for `c`: the
      first that stands there at all stands for the kind of `c`, nowhere before it. */
  predicate Unmistaken(kinds: seq<string>, c: Candidate) {
    if kinds == [] then true
    else if c.kind == kinds[0] && c.protocol == "udp" then
      forall x :: 0 <= x < |c.id| ==> !OccursAt(CandidateEntry(c), Marker(kinds[0]), x)
    else !Contains(CandidateEntry(c), Marker(kinds[0])) && Unmistaken(kinds[1..], c)
  }

  /** No slash within the pieces, and no colon within the kind. */
  predicate Slashless(c: Candidate) {
    '/' !in c.id && '/' !in c.kind && '/' !in c.protocol && '/' !in c.ip && ':' !in c.kind
  }

  function After(c: Candidate): string {
    c.ip + ":" + Decimal(c.port) + if c.deleted then ":deleted" else ""
  }

  lemma AfterNoSlash(c: Candidate)
    requires '/' !in c.ip
    ensures '/' !in After(c)
  {
    DecimalDigits(c.port);
  }

  /** Where everything stands in an entry. */
  lemma EntryParts(c: Candidate)
    ensures var e, i := CandidateEntry(c), |c.id|;
            var j := i + 1 + |c.kind|;
            var k := j + 1 + |c.protocol|;
            && |e| == k + 1 + |After(c)|
            && e[..i] == c.id && e[i] == ':' && e[i + 1..j] == c.kind
            && e[j] == '/' && e[j + 1..k] == c.protocol && e[k] == '/' && e[k + 1..] == After(c)
  {
    var e := CandidateEntry(c);
    assert e == c.id + ":" + c.kind + "/" + c.protocol + "/" + After(c);
  }

  /** The only slashes of an entry. */
  lemma EntrySlashes(c: Candidate)
    requires Slashless(c)
    ensures var e, j := CandidateEntry(c), |c.id| + 1 + |c.kind|;
            forall x :: 0 <= x < |e| ==> (e[x] == '/' <==> x == j || x == j + 1 + |c.protocol|)
  {
    hide CandidateEntry, After;
    EntryParts(c);
    AfterNoSlash(c);
    var e, i := CandidateEntry(c), |c.id|;
    var j := i + 1 + |c.kind|;
    var k := j + 1 + |c.protocol|;
    forall x | 0 <= x < |e|
      ensures e[x] == '/' <==> x == j || x == k
    {
      if x < i {
        assert e[..i][x] == e[x];
      } else if i < x < j {
        assert e[i + 1..j][x - i - 1] == e[x];
      } else if j < x < k {
        assert e[j + 1..k][x - j - 1] == e[x];
      } else if x > k {
        assert e[k + 1..][x - k - 1] == e[x];
      }
    }
  }

  lemma MarkerParts(e: string, kind: string, x: nat)
    requires OccursAt(e, Marker(kind), x)
    ensures var n := |kind|;
            && x + n + 6 <= |e| && e[x] == ':' && e[x + 1..x + 1 + n] == kind && e[x + 1 + n] == '/'
            && e[x + 2 + n..x + 5 + n] == "udp" && e[x + 5 + n] == '/'
  {
    var n, m := |kind|, Marker(kind);
    assert m[0] == ':' && m[1..1 + n] == kind && m[1 + n] == '/' && m[2 + n..5 + n] == "udp" && m[5 + n] == '/';
    var t := e[x..x + n + 6];
    assert t == m;
    assert t[0] == e[x] && t[1 + n] == e[x + 1 + n] && t[5 + n] == e[x + 5 + n];
    SliceOfSlice(e, x, x + n + 6, 1, 1 + n);
    SliceOfSlice(e, x, x + n + 6, 2 + n, 5 + n);
  }

  /** A marker stands in an entry only where the kind and the protocol stand. */
  lemma MarkerOnlyThere(c: Candidate, kind: string, x: nat)
    requires Slashless(c) && ':' !in kind && OccursAt(CandidateEntry(c), Marker(kind), x)
    ensures x == |c.id| && c.kind == kind && c.protocol == "udp"
  {
    hide CandidateEntry, Marker, OccursAt;
    var e, i, n := CandidateEntry(c), |c.id|, |kind|;
    EntryParts(c);
    EntrySlashes(c);
    MarkerParts(e, kind, x);
    var j := i + 1 + |c.kind|;
    assert x + 1 + n == j;
    SliceFree(e, x + 1, j, ':');
    SliceFree(e, i + 1, j, ':');
  }

  lemma SliceFree(s: string, a: nat, b: nat, ch: char)
    requires a <= b <= |s| && ch !in s[a..b]
    ensures forall i :: a <= i < b ==> s[i] != ch
  {
    forall i | a <= i < b
      ensures s[i] != ch
    {
      assert s[a..b][i - a] == s[i];
    }
  }

  lemma MarkerThere(c: Candidate)
    requires c.protocol == "udp"
    ensures OccursAt(CandidateEntry(c), Marker(c.kind), |c.id|)
    ensures CandidateEntry(c)[|c.id| + |Marker(c.kind)|..] == After(c)
  {
    var e, m := CandidateEntry(c), Marker(c.kind);
    assert e == c.id + m + After(c);
    assert e[|c.id|..|c.id| + |m|] == m;
  }

  /** Two markers at one place are one. */
  lemma OneMarker(e: string, a: string, b: string, x: nat)
    requires OccursAt(e, Marker(a), x) && OccursAt(e, Marker(b), x) && '/' !in a && '/' !in b
    ensures a == b
  {
    hide Marker, OccursAt;
    MarkerParts(e, a, x);
    MarkerParts(e, b, x);
    SliceFree(e, x + 1, x + 1 + |a|, '/');
    SliceFree(e, x + 1, x + 1 + |b|, '/');
  }

  /** What is left of an item from a marker on. */
  lemma FromMarker(e: string, m: string, i: nat)
    requires m != "" && OccursAt(e, m, i)
    ensures m[1..] + e[i + |m|..] == e[i + 1..]
  {
    var t := e[i..i + |m|];
    assert e[i..] == t + e[i + |m|..];
    assert e[i + 1..] == e[i..][1..];
  }

  lemma EndOfEntry(c: Candidate)
    ensures CandidateEnd(c) == CandidateEntry(c)[|c.id| + 1..] && |CandidateEntry(c)| > |c.id|
  {}

  lemma {:induction false} CompactAtIff(markers: seq<string>, kinds: seq<string>, c: Candidate)
    requires |markers| == |kinds| && forall k :: 0 <= k < |markers| ==> markers[k] != ""
    requires forall k :: 0 <= k < |kinds| ==> markers[k] == Marker(kinds[k]) && '/' !in kinds[k]
    ensures Unmistaken(kinds, c) <==>
              CompactAt(markers, CandidateEntry(c))
              == (if c.kind in kinds && c.protocol == "udp" then CandidateEnd(c) else CandidateEntry(c))
  {
    hide CandidateEntry, Marker, CandidateEnd, OccursAt;
    if kinds != [] {
      var e, m := CandidateEntry(c), Marker(kinds[0]);
      assert kinds == [kinds[0]] + kinds[1..];
      EndOfEntry(c);
      IndexSound(e, m);
      if c.protocol == "udp" && c.kind in kinds {
        MarkerThere(c);
      }
      if Index(e, m).Some? {
        var i := Index(e, m).value;
        FromMarker(e, m, i);
        if c.protocol == "udp" && c.kind in kinds && i == |c.id| {
          OneMarker(e, kinds[0], c.kind, i);
        }
      } else {
        CompactAtIff(markers[1..], kinds[1..], c);
      }
    }
  }

  /** The compact form of a printed candidate is that candidate, less its ID where the kind is
      known, if and only if no marker is met before the place of the kind. */
  lemma CompactPrinted(c: Candidate)
    ensures CompactCandidate(CandidateEntry(c)) == CandidateShown(c) <==> Unmistaken(KINDS, c)
  {
    assert MARKERS[0] == Marker("host") && MARKERS[1] == Marker("srflx") && MARKERS[2] == Marker("relay");
    hide CandidateEntry, CandidateEnd, Marker, Unmistaken;
    CompactAtIff(MARKERS, KINDS, c);
  }

  /** As with all candidates whose pieces hold no slash, nor their kind a colon. */
  lemma {:induction false} SlashlessUnmistaken(kinds: seq<string>, c: Candidate)
    requires Slashless(c) && forall k :: 0 <= k < |kinds| ==> ':' !in kinds[k]
    ensures Unmistaken(kinds, c)
  {
    hide CandidateEntry, Marker, OccursAt, Slashless;
    if kinds != [] {
      SlashlessUnmistaken(kinds[1..], c);
      var e, m := CandidateEntry(c), Marker(kinds[0]);
      IndexSound(e, m);
      forall x: nat | OccursAt(e, m, x)
        ensures x == |c.id| && c.kind == kinds[0] && c.protocol == "udp"
      {
        MarkerOnlyThere(c, kinds[0], x);
      }
    }
  }

  // --- Pairs -------------------------------------------------------------------------

  function PairShown(p: Pair): string {
    p.state + " " + Counters(p)
  }

  const NOMINATED: string := ":nominated="

  function PairHead(p: Pair): string {
    p.local + ">" + p.remote + ":" + p.state
  }

  lemma CountersStart(p: Pair)
    ensures |Counters(p)| >= 10 && ":" + Counters(p)[..10] == NOMINATED
  {}

  lemma HeadParts(p: Pair)
    ensures var i := |p.local| + 1 + |p.remote|;
            && |PairHead(p)| == i + 1 + |p.state| && PairHead(p)[i] == ':' && PairHead(p)[i + 1..] == p.state
  {}

  lemma HeadFree(p: Pair)
    requires FreePair(p)
    ensures '=' !in PairHead(p)
  {}

  /** The compact form of a printed pair is its state and its counters if and only if the
      state holds no colon. */
  lemma CompactPrintedPair(p: Pair)
    requires FreePair(p)
    ensures CompactPair(PairEntry(p)) == PairShown(p) <==> ':' !in p.state
  {
    hide Counters, PairHead, FreePair;
    var head, counters := PairHead(p), Counters(p);
    var e := PairEntry(p);
    HeadIs(p);
    HeadFree(p);
    CountersStart(p);
    NominatedShape();
    assert e[|head|..|head| + 11] == ":" + counters[..10];
    FirstEnd(e, head, NOMINATED, '=');
    assert e[..|head|] == head && e[|head| + 1..] == counters;
    LastColonOfHead(p);
    var i := |p.local| + 1 + |p.remote|;
    var at := LastIndexOf(head, ':').value;
    HeadParts(p);
    assert |head[at + 1..]| == |p.state| <==> at == i;
    assert |CompactPair(e)| == |head[at + 1..]| + 1 + |counters|;
  }

  /** The last colon stands before the state, or within it. */
  lemma LastColonOfHead(p: Pair)
    ensures var r, i := LastIndexOf(PairHead(p), ':'), |p.local| + 1 + |p.remote|;
            r.Some? && r.value >= i && (r.value == i <==> ':' !in p.state)
  {
    var h, i := PairHead(p), |p.local| + 1 + |p.remote|;
    HeadParts(p);
    assert h[i] == ':' && h[i] in h;
    if ':' in p.state {
      var k :| 0 <= k < |p.state| && p.state[k] == ':';
      assert h[i + 1..][k] == h[i + 1 + k];
    } else {
      SliceFree(h, i + 1, |h|, ':');
      assert h[i + 1..|h|] == h[i + 1..];
    }
  }

  lemma HeadIs(p: Pair)
    ensures PairEntry(p) == PairHead(p) + ":" + Counters(p)
  {}

  lemma NominatedShape()
    ensures |NOMINATED| == 11 && NOMINATED[10] == '=' && '=' !in NOMINATED[..10]
  {}

  /** A text that ends with a character not met before is found where that character is. */
  lemma FirstEnd(e: string, head: string, sub: string, ch: char)
    requires sub != "" && sub[|sub| - 1] == ch && ch !in sub[..|sub| - 1] && ch !in head
    requires |head| + |sub| <= |e| && e[..|head|] == head && e[|head|..|head| + |sub|] == sub
    ensures Index(e, sub) == Some(|head|)
  {
    var h, n := |head|, |sub| - 1;
    assert e[0..h] == head;
    SliceFree(e, 0, h, ch);
    SliceOfSlice(e, h, h + n + 1, 0, n);
    assert sub[0..n] == sub[..n];
    SliceFree(e, h, h + n, ch);
    forall j: nat | j < h
      ensures !OccursAt(e, sub, j)
    {
      if OccursAt(e, sub, j) {
        LastOfSlice(e, j, sub);
      }
    }
    IndexFirst(e, sub, h);
  }

  lemma LastOfSlice(e: string, j: nat, sub: string)
    requires sub != "" && OccursAt(e, sub, j)
    ensures e[j + |sub| - 1] == sub[|sub| - 1]
  {}

  // --- What is shown determines what was counted -------------------------------------

  lemma DecimalInjective(a: nat, b: nat)
    requires Decimal(a) == Decimal(b)
    ensures a == b
  {
    DecimalValue(a);
    DecimalValue(b);
  }

  lemma DigitsHoldNo(n: nat, ch: char)
    requires !('0' <= ch <= '9')
    ensures ch !in Decimal(n)
  {
    DecimalDigits(n);
  }

  lemma RatioInjective(word: string, a: nat, b: nat, c: nat, d: nat)
    requires word + Decimal(a) + "/" + Decimal(b) == word + Decimal(c) + "/" + Decimal(d)
    ensures a == c && b == d
  {
    hide Decimal;
    AfterWord(word, Decimal(a), Decimal(b));
    AfterWord(word, Decimal(c), Decimal(d));
    DigitsHoldNo(a, '/');
    DigitsHoldNo(c, '/');
    CutEqual(Decimal(a), Decimal(b), Decimal(c), Decimal(d), '/');
    DecimalInjective(a, c);
    DecimalInjective(b, d);
  }

  lemma AfterWord(word: string, a: string, b: string)
    ensures (word + a + "/" + b)[|word|..] == a + "/" + b
  {}

  /** Equal texts are cut at the same place by a character that stands in neither front. */
  lemma CutEqual(a: string, b: string, c: string, d: string, ch: char)
    requires a + [ch] + b == c + [ch] + d && ch !in a && ch !in c
    ensures a == c && b == d
  {
    var s, t := a + [ch] + b, c + [ch] + d;
    IndexOfUnique(s, ch, |a|);
    IndexOfUnique(t, ch, |c|);
    assert s[..|a|] == a && t[..|c|] == c && s[|a| + 1..] == b && t[|c| + 1..] == d;
  }

  function CounterParts(p: Pair): seq<string> {
    ["nominated=" + (if p.nominated then "true" else "false"),
     "req=" + Decimal(p.requestsSent) + "/" + Decimal(p.requestsReceived),
     "resp=" + Decimal(p.responsesReceived) + "/" + Decimal(p.responsesSent),
     "pkts=" + Decimal(p.packetsSent) + "/" + Decimal(p.packetsReceived)]
  }

  lemma JoinFour(a: string, b: string, c: string, d: string)
    ensures Join([a, b, c, d], ":") == a + ":" + b + ":" + c + ":" + d
  {
    assert [a, b, c, d][1..] == [b, c, d] && [b, c, d][1..] == [c, d] && [c, d][1..] == [d];
    assert Join([c, d], ":") == c + ":" + d;
    assert Join([b, c, d], ":") == b + ":" + (c + ":" + d);
  }

  lemma PartsJoined(p: Pair)
    ensures Counters(p) == Join(CounterParts(p), [':'])
    ensures forall k :: 0 <= k < 4 ==> ':' !in CounterParts(p)[k]
  {
    hide Decimal, Join;
    var q := CounterParts(p);
    JoinFour(q[0], q[1], q[2], q[3]);
    assert [':'] == ":";
    CountersAreParts(p);
    NominatedFree(p.nominated);
    RatioNoColon("req=", p.requestsSent, p.requestsReceived);
    RatioNoColon("resp=", p.responsesReceived, p.responsesSent);
    RatioNoColon("pkts=", p.packetsSent, p.packetsReceived);
  }

  lemma CountersAreParts(p: Pair)
    ensures var q := CounterParts(p);
            Counters(p) == q[0] + ":" + q[1] + ":" + q[2] + ":" + q[3]
  {
    hide Decimal;
    CountersGlue("nominated=" + (if p.nominated then "true" else "false"),
                 Decimal(p.requestsSent), Decimal(p.requestsReceived),
                 Decimal(p.responsesReceived), Decimal(p.responsesSent),
                 Decimal(p.packetsSent), Decimal(p.packetsReceived));
  }

  lemma CountersGlue(n: string, a: string, b: string, c: string, d: string, e: string, f: string)
    ensures n + ":req=" + a + "/" + b + ":resp=" + c + "/" + d + ":pkts=" + e + "/" + f
         == n + ":" + ("req=" + a + "/" + b) + ":" + ("resp=" + c + "/" + d) + ":" + ("pkts=" + e + "/" + f)
  {
    RatioGlue(n, "req=", a, b);
    var x := n + ":req=" + a + "/" + b;
    RatioGlue(x, "resp=", c, d);
    var y := x + ":resp=" + c + "/" + d;
    RatioGlue(y, "pkts=", e, f);
    assert ":" + "req=" == ":req=" && ":" + "resp=" == ":resp=" && ":" + "pkts=" == ":pkts=";
  }

  lemma RatioGlue(front: string, word: string, a: string, b: string)
    ensures front + (":" + word) + a + "/" + b == front + ":" + (word + a + "/" + b)
  {}

  lemma NominatedFree(b: bool)
    ensures ':' !in "nominated=" + if b then "true" else "false"
  {}

  lemma RatioNoColon(word: string, a: nat, b: nat)
    requires ':' !in word
    ensures ':' !in word + Decimal(a) + "/" + Decimal(b)
  {
    hide Decimal;
    DigitsHoldNo(a, ':');
    DigitsHoldNo(b, ':');
  }

  /** Pairs that are shown alike have the same state and the same counters, each in its place. */
  lemma CountersInjective(p: Pair, q: Pair)
    requires Counters(p) == Counters(q)
    ensures p.nominated == q.nominated
    ensures p.requestsSent == q.requestsSent && p.requestsReceived == q.requestsReceived
    ensures p.responsesReceived == q.responsesReceived && p.responsesSent == q.responsesSent
    ensures p.packetsSent == q.packetsSent && p.packetsReceived == q.packetsReceived
  {
    hide Decimal, Counters, Join;
    PartsJoined(p);
    PartsJoined(q);
    SplitJoin(CounterParts(p), ':');
    SplitJoin(CounterParts(q), ':');
    var a, b := CounterParts(p), CounterParts(q);
    assert a[0] == b[0] && a[1] == b[1] && a[2] == b[2] && a[3] == b[3];
    NominatedShown(p.nominated, q.nominated);
    RatioInjective("req=", p.requestsSent, p.requestsReceived, q.requestsSent, q.requestsReceived);
    RatioInjective("resp=", p.responsesReceived, p.responsesSent, q.responsesReceived, q.responsesSent);
    RatioInjective("pkts=", p.packetsSent, p.packetsReceived, q.packetsSent, q.packetsReceived);
  }

  lemma NominatedShown(a: bool, b: bool)
    requires "nominated=" + (if a then "true" else "false") == "nominated=" + (if b then "true" else "false")
    ensures a == b
  {
    assert ("nominated=" + (if a then "true" else "false"))[10] == if a then 't' else 'f';
    assert ("nominated=" + (if b then "true" else "false"))[10] == if b then 't' else 'f';
  }

  lemma AfterEnds(c: Candidate)
    ensures var s := After(c);
            && s != "" && (c.deleted <==> s[|s| - 1] == 'd')
            && (if c.deleted then |s| > 8 && s[..|s| - 8] == c.ip + ":" + Decimal(c.port)
                else s == c.ip + ":" + Decimal(c.port))
  {
    DecimalDigits(c.port);
    var front := c.ip + ":" + Decimal(c.port);
    if c.deleted {
      assert After(c) == front + ":deleted";
    } else {
      assert After(c) == front;
      assert front[|front| - 1] == Decimal(c.port)[|Decimal(c.port)| - 1];
    }
  }

  lemma LastColon(ip: string, port: nat)
    ensures LastIndexOf(ip + ":" + Decimal(port), ':') == Some(|ip|)
  {
    DigitsHoldNo(port, ':');
    LastBefore(ip, Decimal(port), ':');
    assert ip + ":" + Decimal(port) == ip + [':'] + Decimal(port);
  }

  lemma {:induction false} LastBefore(a: string, b: string, ch: char)
    requires ch !in b
    ensures LastIndexOf(a + [ch] + b, ch) == Some(|a|)
  {
    var s := a + [ch] + b;
    if b == "" {
      assert s == a + [ch];
    } else {
      LastBefore(a, b[..|b| - 1], ch);
      assert s[..|s| - 1] == a + [ch] + b[..|b| - 1];
    }
  }

  /** Candidates that are shown alike agree in kind, protocol, address, port and deletion. */
  lemma EndInjective(c: Candidate, e: Candidate)
    requires Slashless(c) && Slashless(e) && CandidateEnd(c) == CandidateEnd(e)
    ensures c.kind == e.kind && c.protocol == e.protocol && c.ip == e.ip && c.port == e.port && c.deleted == e.deleted
  {
    hide After, Decimal;
    EndIs(c);
    EndIs(e);
    CutEqual(c.kind, c.protocol + "/" + After(c), e.kind, e.protocol + "/" + After(e), '/');
    CutEqual(c.protocol, After(c), e.protocol, After(e), '/');
    AfterEnds(c);
    AfterEnds(e);
    assert c.ip + ":" + Decimal(c.port) == e.ip + ":" + Decimal(e.port);
    LastColon(c.ip, c.port);
    LastColon(e.ip, e.port);
    var s, t := c.ip + ":" + Decimal(c.port), e.ip + ":" + Decimal(e.port);
    assert s[..|c.ip|] == c.ip && t[..|e.ip|] == e.ip;
    assert s[|c.ip| + 1..] == Decimal(c.port) && t[|e.ip| + 1..] == Decimal(e.port);
    DecimalInjective(c.port, e.port);
  }

  lemma EndIs(c: Candidate)
    ensures CandidateEnd(c) == c.kind + ['/'] + (c.protocol + "/" + After(c))
    ensures c.protocol + "/" + After(c) == c.protocol + ['/'] + After(c)
  {
    assert CandidateEnd(c) == c.kind + "/" + c.protocol + "/" + After(c);
  }
}
