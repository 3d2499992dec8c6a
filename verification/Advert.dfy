/** The advertisement cache: what publishing keeps over whole runs.

    `outcome` is what starting the advertiser would return: nothing, or an error text. */
module Advert {
  import opened Common
  import S = Signature

  type Meta = map<string, string>

  datatype Call = Started(meta: Meta, ok: bool) | Stopped(meta: Meta)

  /** The signature last advertised, the advertiser, and every call made on one so far. */
  datatype State = State(advertised: string, advertiser: Option<Meta>, calls: seq<Call>)

  const INITIAL := State("", None, [])

  ghost function Next(s: State, meta: Meta, outcome: Option<string>): State {
    if S.Signature(meta) == s.advertised then s
    else
      State(if outcome.Some? then S.ERROR + outcome.value else S.Signature(meta),
            Some(meta),
            s.calls + (if s.advertiser.Some? then [Stopped(s.advertiser.value)] else []) + [Started(meta, outcome.None?)])
  }

  datatype Tick = Tick(meta: Meta, outcome: Option<string>)

  ghost function After(ticks: seq<Tick>): State {
    if ticks == [] then INITIAL
    else Next(After(ticks[..|ticks| - 1]), ticks[|ticks| - 1].meta, ticks[|ticks| - 1].outcome)
  }

  /** Metadata as the agent builds it: some key, all clean, none that looks like an error. */
  ghost predicate Proper(meta: Meta) {
    meta.Keys != {} && S.Clean(meta) && forall key <- meta.Keys :: !(S.ERROR <= key)
  }

  predicate Failed(s: State) {
    s.calls != [] && s.calls[|s.calls| - 1].Started? && !s.calls[|s.calls| - 1].ok
  }

  lemma MarkIsNoSignature(meta: Meta, e: string)
    requires Proper(meta)
    ensures S.Signature(meta) != S.ERROR + e && S.Signature(meta) != ""
  {
    S.ErrorMarkIff(meta);
    var q := S.Order(meta.Keys);
    var key :| key in meta.Keys;
    assert key in q && q[0] in meta.Keys;
  }

  /** A failed start is forgotten by no later tick: its mark is no signature. */
  ghost predicate Marked(advertised: string) {
    exists e: string :: advertised == S.ERROR + e
  }

  /** After every publish the advertiser was last started with the current metadata. Either it
      is up and the cache holds its signature, or its start failed and the cache holds a mark. */
  ghost predicate Coherent(s: State, meta: Meta) {
    && s.advertiser == Some(meta)
    && s.calls != [] && s.calls[|s.calls| - 1] == Started(meta, !Failed(s))
    && (if Failed(s) then Marked(s.advertised) else s.advertised == S.Signature(meta))
  }

  lemma NextCoherent(s: State, last: Meta, meta: Meta, outcome: Option<string>)
    requires Proper(last) && Proper(meta) && Coherent(s, last)
    ensures Coherent(Next(s, meta, outcome), meta)
    ensures Next(s, meta, outcome) == s <==> meta == last && !Failed(s)
    ensures Next(s, meta, outcome) != s ==>
              && Next(s, meta, outcome).calls == s.calls + [Stopped(last), Started(meta, outcome.None?)]
              && Failed(Next(s, meta, outcome)) == outcome.Some?
  {
    hide S.Signature, S.Clean;
    S.SignatureInjective(meta, last);
    forall e: string
      ensures S.Signature(meta) != S.ERROR + e
    {
      MarkIsNoSignature(meta, e);
    }
  }

  ghost predicate AllProper(ticks: seq<Tick>) {
    forall k :: 0 <= k < |ticks| ==> Proper(ticks[k].meta)
  }

  /** Whether the last of the ticks touched the advertiser. */
  ghost predicate Restarted(ticks: seq<Tick>)
    requires ticks != []
  {
    After(ticks) != After(ticks[..|ticks| - 1])
  }

  /** Every publish of every run: the advertisement is the current metadata, or the cache
      holds a mark that no proper metadata matches. */
  lemma {:induction false} AlwaysCoherent(ticks: seq<Tick>)
    requires ticks != [] && AllProper(ticks)
    ensures Coherent(After(ticks), ticks[|ticks| - 1].meta)
    ensures Failed(After(ticks)) ==> forall other :: Proper(other) ==> S.Signature(other) != After(ticks).advertised
  {
    hide Proper, S.Signature;
    var n := |ticks| - 1;
    var front, t := ticks[..n], ticks[n];
    if n == 0 {
      FirstPublish(t);
      assert After(front) == INITIAL;
    } else {
      AlwaysCoherent(front);
      NextCoherent(After(front), front[n - 1].meta, t.meta, t.outcome);
    }
    if Failed(After(ticks)) {
      var e: string :| After(ticks).advertised == S.ERROR + e;
      forall other | Proper(other)
        ensures S.Signature(other) != After(ticks).advertised
      {
        MarkIsNoSignature(other, e);
      }
    }
  }

  lemma FirstPublish(t: Tick)
    requires Proper(t.meta)
    ensures Next(INITIAL, t.meta, t.outcome).calls == [Started(t.meta, t.outcome.None?)]
    ensures Coherent(Next(INITIAL, t.meta, t.outcome), t.meta)
    ensures Failed(Next(INITIAL, t.meta, t.outcome)) == t.outcome.Some?
  {
    hide S.Signature, Proper;
    MarkIsNoSignature(t.meta, "");
  }

  /** The advertiser is restarted exactly when it must be: at first, when the metadata changed,
      or when the last start failed. It has failed exactly when this tick restarted in vain. */
  lemma {:induction false} RestartsIff(ticks: seq<Tick>)
    requires ticks != [] && AllProper(ticks)
    ensures var n := |ticks| - 1;
            && (Restarted(ticks) <==>
                  n == 0 || ticks[n].meta != ticks[n - 1].meta || Failed(After(ticks[..n])))
            && (Failed(After(ticks)) <==> Restarted(ticks) && ticks[n].outcome.Some?)
  {
    hide Proper, S.Signature;
    var n := |ticks| - 1;
    var front, t := ticks[..n], ticks[n];
    if n == 0 {
      FirstPublish(t);
      assert After(front) == INITIAL;
    } else {
      AlwaysCoherent(front);
      NextCoherent(After(front), front[n - 1].meta, t.meta, t.outcome);
    }
  }

  /** Starts and stops alternate, and each stop is of the advertiser started before it. */
  predicate OneAtATime(calls: seq<Call>) {
    var n := |calls|;
    && n > 0 && calls[n - 1].Started?
    && (n > 1 ==> n > 2 && calls[n - 2] == Stopped(calls[n - 3].meta) && OneAtATime(calls[..n - 2]))
  }

  /** No run ever has two advertisers up: every start, failed or not, is stopped before the
      next one. */
  lemma {:induction false} NeverTwo(ticks: seq<Tick>)
    requires ticks != [] && AllProper(ticks)
    ensures OneAtATime(After(ticks).calls)
  {
    hide Proper, S.Signature, OneAtATime, Next;
    var n := |ticks| - 1;
    var front, t := ticks[..n], ticks[n];
    if n == 0 {
      FirstPublish(t);
      assert After(front) == INITIAL;
      OneCall(Started(t.meta, t.outcome.None?));
    } else {
      NeverTwo(front);
      AlwaysCoherent(front);
      NextCoherent(After(front), front[n - 1].meta, t.meta, t.outcome);
      MoreCalls(After(front).calls, front[n - 1].meta, t);
    }
  }

  lemma OneCall(call: Call)
    requires call.Started?
    ensures OneAtATime([call])
  {}

  lemma MoreCalls(calls: seq<Call>, last: Meta, t: Tick)
    requires OneAtATime(calls) && calls[|calls| - 1].meta == last
    ensures OneAtATime(calls + [Stopped(last), Started(t.meta, t.outcome.None?)])
  {
    assert (calls + [Stopped(last), Started(t.meta, t.outcome.None?)])[..|calls|] == calls;
  }
}
