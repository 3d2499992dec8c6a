/** The lists of candidates and pairs: printed in brackets, read back in order. */
module TraceLists {
  import opened Text
  import opened Trace
  import opened TracePrint
  import opened TraceItems
  import S = Signature
  import Sorting

  // --- Lists -------------------------------------------------------------------------

  predicate Solid(s: string) {
    exists k :: 0 <= k < |s| && Plain(s[k])
  }

  /** A bracketed list is read back item by item. */
  lemma BracketRoundTrip(items: seq<string>)
    requires forall k :: 0 <= k < |items| ==> ',' !in items[k] && Solid(items[k])
    ensures BracketItems(BracketedList(items)) == items
  {
    hide TrimSpace;
    var v := BracketedList(items);
    TrimPlain(v);
    if items != [] {
      var j := Join(items, ",");
      JoinStarts(items, ",");
      var k :| 0 <= k < |items[0]| && Plain(items[0][k]);
      TrimKeeps(j, k);
      assert v[1..] == j + "]" && v[1..][..|j|] == j && v[1..][|j|..] == "]";
      assert [','] == ",";
      SplitJoin(items, ',');
    }
  }

  lemma JoinStarts(items: seq<string>, sep: string)
    requires items != []
    ensures |Join(items, sep)| >= |items[0]|
    ensures forall k :: 0 <= k < |items[0]| ==> Join(items, sep)[k] == items[0][k]
  {}

  /** In the order of what is printed for each. */
  function Printed<T>(key: T -> string): (T, T) -> bool {
    (a, b) => S.Less(key(a), key(b))
  }

  function SortBy<T>(key: T -> string, q: seq<T>): seq<T> {
    Sorting.Sort(Printed(key), q)
  }

  lemma {:induction false} InsertMapped<T>(key: T -> string, x: T, q: seq<T>)
    ensures S.Insert(key(x), Mapped(key, q)) == Mapped(key, Sorting.Insert(Printed(key), x, q))
  {
    hide S.Less;
    if q != [] {
      InsertMapped(key, x, q[1..]);
      assert Mapped(key, q)[1..] == Mapped(key, q[1..]);
    }
  }

  lemma {:induction false} SortMapped<T>(key: T -> string, q: seq<T>)
    ensures S.Sort(Mapped(key, q)) == Mapped(key, SortBy(key, q))
    ensures multiset(SortBy(key, q)) == multiset(q)
  {
    hide S.Less, Sorting.Insert;
    Sorting.SortKeeps(Printed(key), q);
    if q != [] {
      SortMapped(key, q[1..]);
      InsertMapped(key, q[0], SortBy(key, q[1..]));
      assert Mapped(key, q)[1..] == Mapped(key, q[1..]);
    }
  }

  lemma SortedElement<T>(key: T -> string, q: seq<T>, k: nat)
    requires k < |SortBy(key, q)|
    ensures SortBy(key, q)[k] in q
  {
    SortMapped(key, q);
    assert SortBy(key, q)[k] in multiset(SortBy(key, q));
  }

  // --- Characters --------------------------------------------------------------------

  const FIELD: string := " ;="
  const ITEM: string := " ,;"

  lemma FreeWeaken(s: string, more: string, less: string)
    requires Free(s, more) && forall ch :: ch in less ==> ch in more
    ensures Free(s, less)
  {}

  lemma DigitsFree(n: nat, bad: string)
    requires forall ch :: '0' <= ch <= '9' ==> ch !in bad
    ensures Free(Decimal(n), bad)
  {
    DecimalDigits(n);
  }

  lemma EntryFree(c: Candidate)
    requires FreeCandidate(c)
    ensures Free(CandidateEntry(c), BAD) && Solid(CandidateEntry(c))
  {
    hide Decimal, Free;
    DigitsFree(c.port, BAD);
    var port, end := Decimal(c.port), if c.deleted then ":deleted" else "";
    assert Free(":", BAD) && Free("/", BAD) && Free(end, BAD) by { Marks(); }
    FreeAppend(c.ip + ":", port, BAD);
    FreeAppend(c.ip, ":", BAD);
    FreeAppend(c.ip + ":" + port, end, BAD);
    FreeAppend(c.kind, "/", BAD);
    FreeAppend(c.kind + "/", c.protocol, BAD);
    FreeAppend(c.kind + "/" + c.protocol, "/", BAD);
    FreeAppend(c.kind + "/" + c.protocol + "/", c.ip + ":" + port + end, BAD);
    FreeAppend(c.id, ":", BAD);
    FreeAppend(c.id + ":", CandidateEnd(c), BAD);
    assert CandidateEntry(c)[|c.id|] == ':' && Plain(':');
  }

  lemma Marks()
    ensures Free(":", BAD) && Free("/", BAD) && Free(":deleted", BAD) && Free("", BAD)
  {}

  lemma PairFree(p: Pair)
    requires FreePair(p)
    ensures Free(PairEntry(p), ITEM) && Solid(PairEntry(p))
  {
    hide Free, Counters;
    assert Free(p.local, ITEM) && Free(p.remote, ITEM) && Free(p.state, ITEM) by {
      FreeWeaken(p.local, BAD, ITEM);
      FreeWeaken(p.remote, BAD, ITEM);
      FreeWeaken(p.state, BAD, ITEM);
    }
    assert Free(">", ITEM) && Free(":", ITEM) by { PairMarks(); }
    CountersFree(p);
    FreeAppend(p.local, ">", ITEM);
    FreeAppend(p.local + ">", p.remote, ITEM);
    FreeAppend(p.local + ">" + p.remote, ":", ITEM);
    FreeAppend(p.local + ">" + p.remote + ":", p.state, ITEM);
    FreeAppend(p.local + ">" + p.remote + ":" + p.state, ":", ITEM);
    FreeAppend(p.local + ">" + p.remote + ":" + p.state + ":", Counters(p), ITEM);
    assert PairEntry(p)[|p.local|] == '>' && Plain('>');
  }

  lemma PairMarks()
    ensures Free(">", ITEM) && Free(":", ITEM) && Free("/", ITEM)
    ensures Free("nominated=true", ITEM) && Free("nominated=false", ITEM)
    ensures Free(":req=", ITEM) && Free(":resp=", ITEM) && Free(":pkts=", ITEM)
  {}

  lemma RatioFree(word: string, a: nat, b: nat)
    requires Free(word, ITEM)
    ensures Free(word + Decimal(a) + "/" + Decimal(b), ITEM)
  {
    hide Free, Decimal;
    PairMarks();
    DigitsFree(a, ITEM);
    DigitsFree(b, ITEM);
    FreeAppend(word, Decimal(a), ITEM);
    FreeAppend(word + Decimal(a), "/", ITEM);
    FreeAppend(word + Decimal(a) + "/", Decimal(b), ITEM);
  }

  lemma CountersFree(p: Pair)
    ensures Free(Counters(p), ITEM)
  {
    hide Free, Decimal;
    PairMarks();
    var nominated := "nominated=" + if p.nominated then "true" else "false";
    assert nominated == if p.nominated then "nominated=true" else "nominated=false";
    var req := ":req=" + Decimal(p.requestsSent) + "/" + Decimal(p.requestsReceived);
    var resp := ":resp=" + Decimal(p.responsesReceived) + "/" + Decimal(p.responsesSent);
    var pkts := ":pkts=" + Decimal(p.packetsSent) + "/" + Decimal(p.packetsReceived);
    RatioFree(":req=", p.requestsSent, p.requestsReceived);
    RatioFree(":resp=", p.responsesReceived, p.responsesSent);
    RatioFree(":pkts=", p.packetsSent, p.packetsReceived);
    FreeAppend(nominated, req, ITEM);
    FreeAppend(nominated + req, resp, ITEM);
    FreeAppend(nominated + req + resp, pkts, ITEM);
    assert Counters(p) == nominated + req + resp + pkts;
  }

  lemma ListFree(items: seq<string>, bad: string)
    requires forall k :: 0 <= k < |items| ==> Free(items[k], bad)
    requires ',' !in bad && '[' !in bad && ']' !in bad
    ensures Free(BracketedList(items), bad)
  {
    hide Join;
    FreeJoin(items, ",", bad);
    FreeAppend("[", Join(items, ","), bad);
    FreeAppend("[" + Join(items, ","), "]", bad);
  }

  // --- Reading the lists -------------------------------------------------------------

  function SortedCandidates(cs: seq<Candidate>): seq<string> {
    S.Sort(Mapped(CandidateEntry, cs))
  }

  function SortedPairs(ps: seq<Pair>): seq<string> {
    S.Sort(Mapped(PairEntry, ps))
  }

  lemma CandidatesRead(cs: seq<Candidate>)
    requires forall c :: c in cs ==> FineCandidate(c)
    ensures var list := BracketedList(SortedCandidates(cs));
            && Free(list, FIELD)
            && TrimSpace(list) == list
            && Mapped(CompactCandidate, BracketItems(list)) == Mapped(CandidateShown, SortBy(CandidateEntry, cs))
  {
    hide CandidateEntry, CompactCandidate, CandidateShown, Free, Solid, FreeCandidate, Unmistaken, TrimSpace, BracketItems, S.Sort, SortBy;
    var order := SortBy(CandidateEntry, cs);
    var entries := Mapped(CandidateEntry, order);
    SortMapped(CandidateEntry, cs);
    forall k | 0 <= k < |order|
      ensures Free(entries[k], FIELD) && ',' !in entries[k] && Solid(entries[k])
      ensures CompactCandidate(entries[k]) == CandidateShown(order[k])
    {
      SortedElement(CandidateEntry, cs, k);
      EntryFree(order[k]);
      FreeWeaken(entries[k], BAD, FIELD);
      FreeOf(entries[k], BAD, ',');
      CompactPrinted(order[k]);
    }
    ListFree(entries, FIELD);
    BracketRoundTrip(entries);
    ListTight(entries);
  }

  lemma PairsRead(ps: seq<Pair>)
    requires forall p :: p in ps ==> FinePair(p)
    ensures var list := BracketedList(SortedPairs(ps));
            && Free(list, " ;")
            && TrimSpace(list) == list
            && Mapped(CompactPair, BracketItems(list)) == Mapped(PairShown, SortBy(PairEntry, ps))
  {
    hide PairEntry, CompactPair, PairShown, Free, Solid, FreePair, TrimSpace, BracketItems, S.Sort, SortBy;
    var order := SortBy(PairEntry, ps);
    var entries := Mapped(PairEntry, order);
    SortMapped(PairEntry, ps);
    forall k | 0 <= k < |order|
      ensures Free(entries[k], " ;") && ',' !in entries[k] && Solid(entries[k])
      ensures CompactPair(entries[k]) == PairShown(order[k])
    {
      SortedElement(PairEntry, ps, k);
      PairFree(order[k]);
      FreeWeaken(entries[k], ITEM, " ;");
      FreeOf(entries[k], ITEM, ',');
      CompactPrintedPair(order[k]);
    }
    ListFree(entries, " ;");
    BracketRoundTrip(entries);
    ListTight(entries);
  }

  lemma ListTight(items: seq<string>)
    ensures TrimSpace(BracketedList(items)) == BracketedList(items)
  {
    TrimPlain(BracketedList(items));
  }
}
