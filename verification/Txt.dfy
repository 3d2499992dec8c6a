/** DNS-SD TXT records: length-prefixed "key=value" strings (section 6 of RFC 6763). */
module Txt {
  import opened Common
  import opened Text

  datatype Entry = Entry(key: string, value: string)

  /** What a string of the record says; nothing without '=' or without a key. */
  function Cut(item: string): Option<Entry> {
    var i := IndexOf(item, '=');
    if i == |item| || i == 0 then None else Some(Entry(item[..i], item[i + 1..]))
  }

  /** The whole strings at the front of the record. */
  function Items(raw: string): seq<string>
    decreases |raw|
  {
    if raw == [] || raw[0] as int > |raw| - 1 then []
    else [raw[1..1 + raw[0] as int]] + Items(raw[1 + raw[0] as int..])
  }

  function Put(meta: map<string, string>, e: Option<Entry>): map<string, string> {
    if e.Some? then meta[e.value.key := e.value.value] else meta
  }

  function PutAll(meta: map<string, string>, items: seq<string>): map<string, string>
    decreases items
  {
    if items == [] then meta else PutAll(Put(meta, Cut(items[0])), items[1..])
  }

  method TxtRecordMap(record: string) returns (meta: map<string, string>)
    ensures meta == PutAll(map[], Items(record))
  {
    meta := map[];
    var raw := record;
    while |raw| > 0
      invariant PutAll(meta, Items(raw)) == PutAll(map[], Items(record))
      decreases |raw|
    {
      ghost var here := raw;
      var itemLen := raw[0] as int;
      raw := raw[1..];
      if itemLen > |raw| {
        break;
      }
      var item := raw[..itemLen];
      raw := raw[itemLen..];
      assert here[1..1 + itemLen] == item && here[1 + itemLen..] == raw;
      assert ([item] + Items(raw))[1..] == Items(raw);
      var i := IndexOf(item, '=');
      if i < |item| && item[..i] != "" {
        meta := meta[item[..i] := item[i + 1..]];
      }
    }
  }

  // --- The strings of a record -------------------------------------------------------

  /** Fits behind one length byte. */
  predicate Fits(item: string) {
    |item| <= 255
  }

  function Frame(item: string): string
    requires Fits(item)
  {
    [|item| as char] + item
  }

  function Framed(items: seq<string>): string
    requires forall k :: 0 <= k < |items| ==> Fits(items[k])
  {
    if items == [] then "" else Frame(items[0]) + Framed(items[1..])
  }

  /** Less than one whole string. */
  predicate Truncated(tail: string) {
    tail == [] || tail[0] as int > |tail| - 1
  }

  lemma ItemsStep(item: string, rest: string)
    requires Fits(item)
    ensures Items(Frame(item) + rest) == [item] + Items(rest)
  {
    var raw := Frame(item) + rest;
    assert raw[1..1 + |item|] == item && raw[1 + |item|..] == rest;
  }

  lemma {:induction false} ItemsOfFramed(items: seq<string>, tail: string)
    requires forall k :: 0 <= k < |items| ==> Fits(items[k])
    ensures Items(Framed(items) + tail) == items + Items(tail)
  {
    hide Items, Frame, Fits;
    if items == [] {
      assert Framed(items) + tail == tail;
    } else {
      ItemsOfFramed(items[1..], tail);
      ItemsStep(items[0], Framed(items[1..]) + tail);
      assert Framed(items) + tail == Frame(items[0]) + (Framed(items[1..]) + tail);
    }
  }

  /** Every record of bytes is its strings, framed, and a truncated tail: nothing is skipped
      or read twice. */
  lemma {:induction false} ItemsCover(raw: string) returns (tail: string)
    requires forall k :: 0 <= k < |raw| ==> raw[k] as int < 256
    ensures forall k :: 0 <= k < |Items(raw)| ==> Fits(Items(raw)[k])
    ensures raw == Framed(Items(raw)) + tail && Truncated(tail)
    decreases |raw|
  {
    if Truncated(raw) {
      tail := raw;
    } else {
      var n := raw[0] as int;
      var item, more := raw[1..1 + n], raw[1 + n..];
      assert raw == Frame(item) + more;
      tail := ItemsCover(more);
      ItemsStep(item, more);
      FramedStep(item, Items(more));
    }
  }

  lemma FramedStep(item: string, rest: seq<string>)
    requires Fits(item) && forall k :: 0 <= k < |rest| ==> Fits(rest[k])
    ensures forall k :: 0 <= k < |[item] + rest| ==> Fits(([item] + rest)[k])
    ensures Framed([item] + rest) == Frame(item) + Framed(rest)
  {
    hide Frame, Fits;
    assert ([item] + rest)[1..] == rest;
  }

  /** A record that was cut short after its last whole string reads the same. */
  lemma TailIgnored(items: seq<string>, tail: string)
    requires forall k :: 0 <= k < |items| ==> Fits(items[k])
    requires Truncated(tail)
    ensures PutAll(map[], Items(Framed(items) + tail)) == PutAll(map[], Items(Framed(items)))
  {
    ItemsOfFramed(items, tail);
    ItemsOfFramed(items, "");
    assert Framed(items) + "" == Framed(items);
  }

  lemma {:induction false} PutAllAppend(meta: map<string, string>, a: seq<string>, b: seq<string>)
    ensures PutAll(meta, a + b) == PutAll(PutAll(meta, a), b)
    decreases a
  {
    hide Cut;
    if a == [] {
      assert a + b == b;
    } else {
      PutAllAppend(Put(meta, Cut(a[0])), a[1..], b);
      assert (a + b)[1..] == a[1..] + b;
    }
  }

  /** A string without '=', or with nothing before it, might as well not be there. */
  lemma SilentStrings(a: seq<string>, item: string, b: seq<string>)
    requires '=' !in item || item[0] == '='
    ensures PutAll(map[], a + [item] + b) == PutAll(map[], a + b)
  {
    hide PutAll;
    PutAllAppend(map[], a + [item], b);
    PutAllAppend(map[], a, [item]);
    PutAllAppend(map[], a, b);
    assert PutAll(PutAll(map[], a), [item]) == PutAll(map[], a) by { PutOne(PutAll(map[], a), item); }
  }

  lemma PutOne(meta: map<string, string>, item: string)
    ensures PutAll(meta, [item]) == Put(meta, Cut(item))
  {
    hide Cut;
    assert [item][1..] == [];
  }

  // --- Which value a key gets --------------------------------------------------------

  predicate Says(item: string, key: string) {
    Cut(item).Some? && Cut(item).value.key == key
  }

  /** String `k` is the last to speak of `key`. */
  predicate LastSays(items: seq<string>, key: string, k: nat) {
    k < |items| && Says(items[k], key) && forall j :: k < j < |items| ==> !Says(items[j], key)
  }

  lemma {:induction false} PutAllKeys(meta: map<string, string>, items: seq<string>, key: string)
    requires forall k :: 0 <= k < |items| ==> !Says(items[k], key)
    ensures key in PutAll(meta, items) <==> key in meta
    ensures key in meta ==> PutAll(meta, items)[key] == meta[key]
    decreases items
  {
    hide Cut;
    if items != [] {
      assert !Says(items[0], key);
      PutAllKeys(Put(meta, Cut(items[0])), items[1..], key);
    }
  }

  lemma {:induction false} PutAllLast(meta: map<string, string>, items: seq<string>, key: string, k: nat)
    requires LastSays(items, key, k)
    ensures key in PutAll(meta, items) && PutAll(meta, items)[key] == Cut(items[k]).value.value
    decreases items
  {
    hide Cut;
    if k == 0 {
      PutAllKeys(Put(meta, Cut(items[0])), items[1..], key);
    } else {
      PutAllLast(Put(meta, Cut(items[0])), items[1..], key, k - 1);
    }
  }

  lemma {:induction false} SomeLast(items: seq<string>, key: string, n: nat)
    requires n <= |items| && (exists k :: 0 <= k < n && Says(items[k], key))
    requires forall j :: n <= j < |items| ==> !Says(items[j], key)
    ensures exists k: nat :: LastSays(items, key, k)
  {
    hide Says;
    if Says(items[n - 1], key) {
      assert LastSays(items, key, n - 1);
    } else {
      SomeLast(items, key, n - 1);
    }
  }

  /** A key is in the map exactly when some string names it, and the last such string gives
      its value. */
  lemma LastWins(items: seq<string>, key: string)
    ensures key in PutAll(map[], items) <==> exists k :: 0 <= k < |items| && Says(items[k], key)
    ensures forall k: nat :: LastSays(items, key, k) ==>
              key in PutAll(map[], items) && PutAll(map[], items)[key] == Cut(items[k]).value.value
  {
    hide Cut;
    forall k: nat | LastSays(items, key, k)
      ensures key in PutAll(map[], items) && PutAll(map[], items)[key] == Cut(items[k]).value.value
    {
      PutAllLast(map[], items, key, k);
    }
    if exists k :: 0 <= k < |items| && Says(items[k], key) {
      SomeLast(items, key, |items|);
    } else {
      PutAllKeys(map[], items, key);
    }
  }

  // --- The rule of section 6.4 of RFC 6763 -------------------------------------------

  function Lower(c: char): char {
    if 'A' <= c <= 'Z' then (c as int + 32) as char else c
  }

  /** Keys are compared without regard to case. */
  function Fold(key: string): (r: string)
    ensures |r| == |key| && forall k :: 0 <= k < |key| ==> r[k] == Lower(key[k])
  {
    seq(|key|, k requires 0 <= k < |key| => Lower(key[k]))
  }

  /** All before the first '=', or the whole string: a key may come without a value. */
  function KeyPart(item: string): string {
    item[..IndexOf(item, '=')]
  }

  predicate Names(item: string, key: string) {
    KeyPart(item) != "" && Fold(KeyPart(item)) == Fold(key)
  }

  /** String `i` is the first to name its key. */
  predicate First(items: seq<string>, i: nat) {
    i < |items| && KeyPart(items[i]) != "" && forall j :: 0 <= j < i ==> !Names(items[j], KeyPart(items[i]))
  }

  ghost predicate FromFirst(items: seq<string>, e: Entry) {
    exists i: nat :: First(items, i) && Cut(items[i]) == Some(e)
  }

  /** The rule: only the first string that names a key counts, with a value or without; the
      others are ignored. */
  ghost predicate FirstRule(items: seq<string>, meta: map<string, string>) {
    forall e: Entry :: (e.key in meta && meta[e.key] == e.value) <==> FromFirst(items, e)
  }

  /** Whoever names a key again with a value spells it as the first, which has one too; and the
      last of them gives it the same one. */
  ghost predicate Consistent(items: seq<string>) {
    forall i: nat, j: nat :: First(items, i) && j < |items| && Names(items[j], KeyPart(items[i])) ==> Agrees(items, i, j)
  }

  predicate Agrees(items: seq<string>, i: nat, j: nat)
    requires i < |items| && j < |items|
  {
    Cut(items[j]).Some? ==>
      && Cut(items[i]).Some? && Cut(items[i]).value.key == Cut(items[j]).value.key
      && (LastSays(items, Cut(items[j]).value.key, j) ==> Cut(items[i]) == Cut(items[j]))
  }

  lemma CutKey(item: string)
    ensures Cut(item).Some? ==> Cut(item).value.key == KeyPart(item) != ""
  {}

  lemma {:induction false} SomeFirst(items: seq<string>, j: nat, n: nat) returns (i: nat)
    requires j < |items| && n <= j && KeyPart(items[j]) != ""
    requires forall k :: 0 <= k < n ==> !Names(items[k], KeyPart(items[j]))
    ensures First(items, i) && Names(items[j], KeyPart(items[i]))
    decreases j - n
  {
    hide KeyPart, Fold;
    i := n;
    if n < j && !Names(items[n], KeyPart(items[j])) {
      i := SomeFirst(items, j, n + 1);
    }
  }

  /** What the map holds is what the last strings say. */
  lemma HeldIsLast(items: seq<string>, key: string) returns (k: nat)
    requires key in PutAll(map[], items)
    ensures LastSays(items, key, k) && PutAll(map[], items)[key] == Cut(items[k]).value.value
  {
    hide Cut, PutAll;
    LastWins(items, key);
    SomeLast(items, key, |items|);
    k :| LastSays(items, key, k);
  }

  lemma ConsistentHolds(items: seq<string>, e: Entry)
    requires Consistent(items)
    ensures (e.key in PutAll(map[], items) && PutAll(map[], items)[e.key] == e.value) <==> FromFirst(items, e)
  {
    hide Cut, PutAll, KeyPart, Fold;
    LastWins(items, e.key);
    if e.key in PutAll(map[], items) {
      var k := HeldIsLast(items, e.key);
      CutKey(items[k]);
      var i := SomeFirst(items, k, 0);
      assert Agrees(items, i, k);
    }
    if i: nat :| First(items, i) && Cut(items[i]) == Some(e) {
      assert Says(items[i], e.key);
      CutKey(items[i]);
      var k := HeldIsLast(items, e.key);
      CutKey(items[k]);
      assert Agrees(items, i, k);
    }
  }

  lemma RuleAgrees(items: seq<string>, i: nat, j: nat)
    requires FirstRule(items, PutAll(map[], items))
    requires First(items, i) && j < |items| && Names(items[j], KeyPart(items[i]))
    ensures Agrees(items, i, j)
  {
    hide Cut, PutAll, KeyPart, Fold;
    if Cut(items[j]).Some? {
      var key := Cut(items[j]).value.key;
      CutKey(items[j]);
      assert Says(items[j], key);
      LastWins(items, key);
      var e := Entry(key, PutAll(map[], items)[key]);
      assert FromFirst(items, e);
      var f: nat :| First(items, f) && Cut(items[f]) == Some(e);
      CutKey(items[f]);
      FirstUnique(items, i, f, j);
    }
  }

  lemma FirstUnique(items: seq<string>, i: nat, f: nat, j: nat)
    requires First(items, i) && First(items, f) && j < |items|
    requires Names(items[j], KeyPart(items[i])) && KeyPart(items[f]) == KeyPart(items[j])
    ensures i == f
  {
    hide KeyPart, Fold;
    assert Names(items[f], KeyPart(items[i])) && Names(items[i], KeyPart(items[f]));
  }

  /** The parser keeps the rule exactly for the consistent records. */
  lemma FirstRuleIff(items: seq<string>)
    ensures FirstRule(items, PutAll(map[], items)) <==> Consistent(items)
  {
    hide Cut, PutAll, KeyPart, Names, First, Agrees, FromFirst;
    if Consistent(items) {
      forall e: Entry
        ensures (e.key in PutAll(map[], items) && PutAll(map[], items)[e.key] == e.value) <==> FromFirst(items, e)
      {
        ConsistentHolds(items, e);
      }
    }
    if FirstRule(items, PutAll(map[], items)) {
      AllAgree(items);
    }
  }

  lemma AllAgree(items: seq<string>)
    requires FirstRule(items, PutAll(map[], items))
    ensures Consistent(items)
  {
    hide Cut, PutAll, KeyPart, Names, Agrees, FromFirst, FirstRule;
    forall i: nat, j: nat | First(items, i) && j < |items| && Names(items[j], KeyPart(items[i]))
      ensures Agrees(items, i, j)
    {
      RuleAgrees(items, i, j);
    }
  }

  /** Three ways to break it: another value, another spelling, a key that had no value. */
  lemma RuleBroken()
    ensures !FirstRule(["k=1", "k=2"], PutAll(map[], ["k=1", "k=2"]))
    ensures !FirstRule(["K=1", "k=2"], PutAll(map[], ["K=1", "k=2"]))
    ensures !FirstRule(["k", "k=1"], PutAll(map[], ["k", "k=1"]))
  {
    hide PutAll, FirstRule;
    ShortStrings();
    Clash(["k=1", "k=2"]);
    Clash(["K=1", "k=2"]);
    Clash(["k", "k=1"]);
  }

  lemma ShortStrings()
    ensures Cut("k=1") == Some(Entry("k", "1")) && Cut("k=2") == Some(Entry("k", "2"))
    ensures Cut("K=1") == Some(Entry("K", "1")) && Cut("k") == None
    ensures KeyPart("k=1") == KeyPart("k=2") == KeyPart("k") == "k" && KeyPart("K=1") == "K"
  {
    CutOf("k", "1");
    CutOf("k", "2");
    CutOf("K", "1");
    assert "k" + "=" + "1" == "k=1" && "k" + "=" + "2" == "k=2" && "K" + "=" + "1" == "K=1";
    IndexOfUnique("k", '=', 1);
    CutKey("k=1");
    CutKey("k=2");
    CutKey("K=1");
  }

  /** Two strings for one key, the second with a value, that differ. */
  lemma Clash(items: seq<string>)
    requires |items| == 2 && KeyPart(items[0]) != "" && Names(items[1], KeyPart(items[0]))
    requires Cut(items[1]).Some? && Cut(items[0]) != Cut(items[1])
    ensures !FirstRule(items, PutAll(map[], items))
  {
    hide Cut, PutAll, KeyPart, Fold;
    FirstRuleIff(items);
    assert First(items, 0);
    assert LastSays(items, Cut(items[1]).value.key, 1);
    assert !Agrees(items, 0, 1);
  }

  // --- Reading back a map ------------------------------------------------------------

  lemma CutOf(key: string, value: string)
    requires key != "" && '=' !in key
    ensures Cut(key + "=" + value) == Some(Entry(key, value))
  {
    var item := key + "=" + value;
    IndexOfUnique(item, '=', |key|);
    assert item[..|key|] == key && item[|key| + 1..] == value;
  }

  /** Keys and values that a record can carry. */
  predicate Printable(meta: map<string, string>) {
    forall key <- meta.Keys :: key != "" && '=' !in key && Fits(key + "=" + meta[key])
  }

  /** The strings for a listing of the keys. */
  function Strings(keys: seq<string>, meta: map<string, string>): (r: seq<string>)
    requires forall k :: 0 <= k < |keys| ==> keys[k] in meta
    ensures |r| == |keys| && forall k :: 0 <= k < |r| ==> r[k] == keys[k] + "=" + meta[keys[k]]
  {
    seq(|keys|, k requires 0 <= k < |keys| => keys[k] + "=" + meta[keys[k]])
  }

  /** A printed map is read back, whatever order its keys are printed in and whatever truncated
      tail follows. */
  lemma RecordRoundTrip(keys: seq<string>, meta: map<string, string>, tail: string)
    requires Printable(meta) && Truncated(tail)
    requires (set k <- keys) == meta.Keys
    ensures forall k :: 0 <= k < |Strings(keys, meta)| ==> Fits(Strings(keys, meta)[k])
    ensures PutAll(map[], Items(Framed(Strings(keys, meta)) + tail)) == meta
  {
    hide PutAll, Cut, Framed, Items, Fits;
    var items := Strings(keys, meta);
    forall k | 0 <= k < |items|
      ensures Fits(items[k]) && Cut(items[k]) == Some(Entry(keys[k], meta[keys[k]]))
    {
      assert keys[k] in meta.Keys;
      CutOf(keys[k], meta[keys[k]]);
    }
    ItemsOfFramed(items, tail);
    NoItems(tail);
    assert items + [] == items;
    var read := PutAll(map[], items);
    forall key
      ensures key in read <==> key in meta
      ensures key in meta ==> read[key] == meta[key]
    {
      ReadKey(keys, meta, items, key);
    }
  }

  lemma NoItems(tail: string)
    requires Truncated(tail)
    ensures Items(tail) == []
  {}

  lemma ReadKey(keys: seq<string>, meta: map<string, string>, items: seq<string>, key: string)
    requires (set k <- keys) == meta.Keys && |items| == |keys|
    requires forall k :: 0 <= k < |items| ==> Cut(items[k]) == Some(Entry(keys[k], meta[keys[k]]))
    ensures key in PutAll(map[], items) <==> key in meta
    ensures key in meta ==> PutAll(map[], items)[key] == meta[key]
  {
    hide PutAll, Cut;
    LastWins(items, key);
    if key in meta {
      assert key in keys;
      var k :| 0 <= k < |keys| && keys[k] == key;
      assert Says(items[k], key);
      SomeLast(items, key, |items|);
    }
  }
}
