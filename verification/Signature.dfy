/** The metadata signature: "key=value" lines over the sorted keys. */
module Signature {
  import opened Common
  import opened Text
  import Sorting

  // --- Sorted strings ----------------------------------------------------------------

  predicate Less(a: string, b: string) {
    b != [] && (a == [] || a[0] < b[0] || (a[0] == b[0] && Less(a[1..], b[1..])))
  }

  lemma {:induction false} LessTotal(a: string, b: string)
    ensures !(Less(a, b) && Less(b, a)) && !Less(a, a)
    ensures Less(a, b) || a == b || Less(b, a)
  {
    if a != [] {
      LessTotal(a[1..], a[1..]);
    }
    if a != [] && b != [] {
      LessTotal(a[1..], b[1..]);
      assert a == [a[0]] + a[1..] && b == [b[0]] + b[1..];
    }
  }

  lemma {:induction false} LessTransitive(a: string, b: string, c: string)
    requires Less(a, b) && Less(b, c)
    ensures Less(a, c)
  {
    if a != [] && a[0] == b[0] == c[0] {
      LessTransitive(a[1..], b[1..], c[1..]);
    }
  }

  predicate Ascending(q: seq<string>) {
    forall i, j :: 0 <= i < j < |q| ==> Less(q[i], q[j])
  }

  function Insert(x: string, q: seq<string>): seq<string> {
    Sorting.Insert(Less, x, q)
  }

  function Sort(q: seq<string>): seq<string> {
    Sorting.Sort(Less, q)
  }

  lemma InsertElements(x: string, q: seq<string>)
    ensures forall y :: y in Insert(x, q) <==> y == x || y in q
  {
    hide Sorting.Insert;
    Sorting.InsertKeeps(Less, x, q);
    forall y
      ensures y in Insert(x, q) <==> y == x || y in q
    {
      assert y in Insert(x, q) <==> y in multiset(Insert(x, q));
    }
  }

  lemma {:induction false} InsertAscending(x: string, q: seq<string>)
    requires Ascending(q) && x !in q
    ensures Ascending(Insert(x, q))
  {
    hide Less;
    if q != [] && Less(q[0], x) {
      InsertAscending(x, q[1..]);
      InsertElements(x, q[1..]);
      ConsAscending(q[0], Insert(x, q[1..]));
    } else {
      if q != [] {
        LessTotal(q[0], x);
      }
      forall y | y in q
        ensures Less(x, y)
      {
        if y != q[0] {
          LessTransitive(x, q[0], y);
        }
      }
      ConsAscending(x, q);
    }
  }

  lemma ConsAscending(x: string, q: seq<string>)
    requires Ascending(q) && forall y :: y in q ==> Less(x, y)
    ensures Ascending([x] + q)
  {}

  predicate Distinct(q: seq<string>) {
    forall i, j :: 0 <= i < j < |q| ==> q[i] != q[j]
  }

  lemma {:induction false} SortAscending(q: seq<string>)
    requires Distinct(q)
    ensures Ascending(Sort(q)) && forall y :: y in Sort(q) <==> y in q
  {
    hide Less;
    if q != [] {
      SortAscending(q[1..]);
      InsertAscending(q[0], Sort(q[1..]));
      InsertElements(q[0], Sort(q[1..]));
      assert q == [q[0]] + q[1..];
    }
  }

  lemma {:induction false} InsertCommutes(x: string, y: string, q: seq<string>)
    ensures Insert(x, Insert(y, q)) == Insert(y, Insert(x, q))
  {
    LessTotal(x, y);
    if q == [] {
    } else if Less(q[0], x) && Less(q[0], y) {
      InsertCommutes(x, y, q[1..]);
    } else if Less(x, y) && Less(q[0], x) {
      LessTransitive(q[0], x, y);
    } else if Less(y, x) && Less(q[0], y) {
      LessTransitive(q[0], y, x);
    }
  }

  lemma {:induction false} SortMove(u: seq<string>, x: string, v: seq<string>)
    ensures Sort(u + [x] + v) == Insert(x, Sort(u + v))
  {
    hide Sorting.Insert;
    if u == [] {
      assert u + [x] + v == [x] + v && u + v == v;
    } else {
      SortMove(u[1..], x, v);
      InsertCommutes(x, u[0], Sort(u[1..] + v));
      assert (u + [x] + v)[1..] == u[1..] + [x] + v;
      assert (u + v)[1..] == u[1..] + v;
    }
  }

  /** Sorting depends on what is in a list, not on its order. */
  lemma {:induction false} SortPermuted(a: seq<string>, b: seq<string>)
    requires multiset(a) == multiset(b)
    ensures Sort(a) == Sort(b)
    decreases |a|
  {
    hide Sorting.Insert;
    if a == [] {
      assert |multiset(b)| == 0;
    } else {
      var i := TakeFirst(a, b);
      SortPermuted(a[1..], b[..i] + b[i + 1..]);
      SortMove(b[..i], a[0], b[i + 1..]);
    }
  }

  /** There is only one ascending list of a set. */
  lemma {:induction false} AscendingUnique(a: seq<string>, b: seq<string>)
    requires Ascending(a) && Ascending(b) && forall y :: y in a <==> y in b
    ensures a == b
  {
    hide Less;
    SameEmpty(a, b);
    if a != [] {
      SameHead(a, b);
      TailElements(a);
      TailElements(b);
      AscendingUnique(a[1..], b[1..]);
      assert a == [a[0]] + a[1..] && b == [b[0]] + b[1..];
    }
  }

  lemma SameEmpty(a: seq<string>, b: seq<string>)
    requires forall y :: y in a <==> y in b
    ensures a == [] <==> b == []
  {
    if a != [] {
      assert a[0] in b;
    }
    if b != [] {
      assert b[0] in a;
    }
  }

  lemma SameHead(a: seq<string>, b: seq<string>)
    requires Ascending(a) && Ascending(b) && a != [] && b != [] && forall y :: y in a <==> y in b
    ensures a[0] == b[0]
  {
    hide Less;
    assert a[0] in b && b[0] in a;
    LessTotal(a[0], b[0]);
  }

  lemma TailElements(a: seq<string>)
    requires Ascending(a) && a != []
    ensures forall y :: y in a[1..] <==> y in a && y != a[0]
  {
    hide Less;
    LessTotal(a[0], a[0]);
    assert a == [a[0]] + a[1..];
  }

  lemma {:induction false} Listing(s: set<string>) returns (q: seq<string>)
    ensures Distinct(q) && forall y :: y in q <==> y in s
  {
    if s == {} {
      q := [];
    } else {
      var x :| x in s;
      var rest := Listing(s - {x});
      q := [x] + rest;
    }
  }

  lemma OrderExists(s: set<string>)
    ensures exists q: seq<string> :: Ascending(q) && forall y :: y in q <==> y in s
  {
    var q := Listing(s);
    SortAscending(q);
  }

  /** The sorted keys of a map. */
  ghost function Order(s: set<string>): (q: seq<string>)
    ensures Ascending(q) && forall y :: y in q <==> y in s
  {
    OrderExists(s);
    var q: seq<string> :| Ascending(q) && forall y :: y in q <==> y in s;
    q
  }

  // --- The signature -----------------------------------------------------------------

  function Render(keys: seq<string>, meta: map<string, string>): string
    requires forall k :: 0 <= k < |keys| ==> keys[k] in meta
  {
    if keys == [] then "" else keys[0] + "=" + meta[keys[0]] + "\n" + Render(keys[1..], meta)
  }

  ghost function Signature(meta: map<string, string>): string {
    Render(Order(meta.Keys), meta)
  }

  lemma NoKeys()
    ensures Distinct([])
    ensures forall meta :: Render([], meta) == ""
  {}

  lemma DistinctAppend(keys: seq<string>, key: string)
    requires Distinct(keys) && key !in keys
    ensures Distinct(keys + [key])
  {}

  lemma RenderStep(keys: seq<string>, k: nat, meta: map<string, string>)
    requires k < |keys| && forall i :: 0 <= i < |keys| ==> keys[i] in meta
    ensures Render(keys[k..], meta) == keys[k] + "=" + meta[keys[k]] + "\n" + Render(keys[k + 1..], meta)
  {
    assert keys[k..][1..] == keys[k + 1..];
  }

  /** The keys come out of the map in any order; the signature does not depend on it. */
  method MetadataSignature(meta: map<string, string>) returns (b: string)
    ensures b == Signature(meta)
  {
    hide Less, Ascending, Distinct, Sort, Render;
    NoKeys();
    var keys: seq<string>, left := [], meta.Keys;
    while left != {}
      invariant left <= meta.Keys && Distinct(keys)
      invariant forall y :: y in keys <==> y in meta.Keys && y !in left
      decreases |left|
    {
      var key: string :| key in left;
      DistinctAppend(keys, key);
      keys, left := keys + [key], left - {key};
    }
    SortAscending(keys);
    keys := Sort(keys);
    AscendingUnique(keys, Order(meta.Keys));
    b := "";
    assert keys[0..] == keys && keys[|keys|..] == [];
    for k := 0 to |keys|
      invariant b + Render(keys[k..], meta) == Signature(meta)
    {
      ghost var before := b;
      RenderStep(keys, k, meta);
      b := b + (keys[k] + "=" + meta[keys[k]] + "\n");
      assert b + Render(keys[k + 1..], meta) == before + (keys[k] + "=" + meta[keys[k]] + "\n" + Render(keys[k + 1..], meta));
    }
  }

  /** Line by line: the least key comes first, then the signature of the rest. */
  lemma SignatureFirst(meta: map<string, string>, key: string)
    requires key in meta && forall other <- meta.Keys :: other == key || Less(key, other)
    ensures Signature(meta) == key + "=" + meta[key] + "\n" + Signature(meta - {key})
  {
    hide Less;
    var q, rest := Order(meta.Keys), meta - {key};
    LeastIsFirst(q, key);
    TailElements(q);
    AscendingUnique(q[1..], Order(rest.Keys));
    SameRender(q[1..], meta, rest);
  }

  lemma LeastIsFirst(q: seq<string>, key: string)
    requires Ascending(q) && key in q && forall other :: other in q ==> other == key || Less(key, other)
    ensures q[0] == key
  {
    hide Less;
    LessTotal(q[0], key);
    var k :| 0 <= k < |q| && q[k] == key;
  }

  lemma {:induction false} SameRender(keys: seq<string>, a: map<string, string>, b: map<string, string>)
    requires forall k :: 0 <= k < |keys| ==> keys[k] in a && keys[k] in b && a[keys[k]] == b[keys[k]]
    ensures Render(keys, a) == Render(keys, b)
  {
    if keys != [] {
      SameRender(keys[1..], a, b);
    }
  }

  /** One signature, in full. */
  lemma OneSignature()
    ensures Signature(map[]) == ""
    ensures Signature(map["lan" := "1", "id" := "2", "lan_if" := "3"]) == "id=2\n" + "lan=1\n" + "lan_if=3\n"
  {
    hide Signature;
    var a: map<string, string>, b, c := map[], map["lan_if" := "3"], map["lan" := "1", "lan_if" := "3"];
    var d := map["lan" := "1", "id" := "2", "lan_if" := "3"];
    KeyOrder();
    NothingSigned();
    SignatureFirst(b, "lan_if");
    SignatureFirst(c, "lan");
    SignatureFirst(d, "id");
    assert b - {"lan_if"} == a && c - {"lan"} == b && d - {"id"} == c;
    assert "lan_if" + "=" + "3" + "\n" + "" == "lan_if=3\n";
    assert "lan" + "=" + "1" + "\n" == "lan=1\n" && "id" + "=" + "2" + "\n" == "id=2\n";
  }

  lemma NothingSigned()
    ensures Signature(map[]) == ""
  {
    var meta: map<string, string> := map[];
    AscendingUnique(Order(meta.Keys), []);
  }

  lemma KeyOrder()
    ensures Less("id", "lan") && Less("id", "lan_if") && Less("lan", "lan_if")
    ensures "id" != "lan" && "id" != "lan_if" && "lan" != "lan_if"
  {
    assert "lan"[1..] == "an" && "lan_if"[1..] == "an_if" && "an"[1..] == "n" && "an_if"[1..] == "n_if";
    assert "n"[1..] == "" && "n_if"[1..] == "_if";
  }

  // --- It determines the metadata ----------------------------------------------------

  predicate CleanKey(key: string) {
    '=' !in key && '\n' !in key
  }

  /** Keys without '=' or newline, values without newline. */
  predicate Clean(meta: map<string, string>) {
    forall key <- meta.Keys :: CleanKey(key) && '\n' !in meta[key]
  }

  /** A line is read back: the key up to the first '=', the value up to the newline. */
  lemma LineInjective(k1: string, v1: string, r1: string, k2: string, v2: string, r2: string)
    requires CleanKey(k1) && CleanKey(k2) && '\n' !in v1 && '\n' !in v2
    requires k1 + "=" + v1 + "\n" + r1 == k2 + "=" + v2 + "\n" + r2
    ensures k1 == k2 && v1 == v2 && r1 == r2
  {
    var s1, s2 := k1 + "=" + v1 + "\n" + r1, k2 + "=" + v2 + "\n" + r2;
    IndexOfUnique(s1, '=', |k1|);
    IndexOfUnique(s2, '=', |k2|);
    assert s1[..|k1|] == k1 && s2[..|k2|] == k2;
    var t1, t2 := v1 + "\n" + r1, v2 + "\n" + r2;
    assert s1[|k1| + 1..] == t1 && s2[|k2| + 1..] == t2;
    IndexOfUnique(t1, '\n', |v1|);
    IndexOfUnique(t2, '\n', |v2|);
    assert t1[..|v1|] == v1 && t2[..|v2|] == v2;
    assert t1[|v1| + 1..] == r1 && t2[|v2| + 1..] == r2;
  }

  lemma {:induction false} RenderInjective(q1: seq<string>, m1: map<string, string>, q2: seq<string>, m2: map<string, string>)
    requires Clean(m1) && Clean(m2)
    requires (forall k :: 0 <= k < |q1| ==> q1[k] in m1) && (forall k :: 0 <= k < |q2| ==> q2[k] in m2)
    requires Render(q1, m1) == Render(q2, m2)
    ensures q1 == q2 && forall k :: 0 <= k < |q1| ==> m1[q1[k]] == m2[q1[k]]
  {
    hide CleanKey;
    if q1 != [] && q2 != [] {
      LineInjective(q1[0], m1[q1[0]], Render(q1[1..], m1), q2[0], m2[q2[0]], Render(q2[1..], m2));
      RenderInjective(q1[1..], m1, q2[1..], m2);
      assert q1 == [q1[0]] + q1[1..] && q2 == [q2[0]] + q2[1..];
    }
  }

  /** Different metadata have different signatures. */
  lemma SignatureInjective(a: map<string, string>, b: map<string, string>)
    requires Clean(a) && Clean(b)
    ensures Signature(a) == Signature(b) <==> a == b
  {
    if Signature(a) == Signature(b) {
      var q := Order(a.Keys);
      RenderInjective(q, a, Order(b.Keys), b);
      forall key
        ensures key in a <==> key in b
        ensures key in a ==> a[key] == b[key]
      {
        assert key in q <==> key in a;
        assert key in q <==> key in b;
        if key in q {
          var k :| 0 <= k < |q| && q[k] == key;
        }
      }
    }
  }

  /** A newline in a value is enough to confuse two metadata. */
  lemma NewlineCollides()
    ensures map["a" := "1\nb=2"] != map["a" := "1", "b" := "2"]
    ensures Signature(map["a" := "1\nb=2"]) == Signature(map["a" := "1", "b" := "2"])
  {
    var one, two := map["a" := "1\nb=2"], map["a" := "1", "b" := "2"];
    assert "b" in two && "b" !in one;
    AscendingUnique(Order(one.Keys), ["a"]);
    AscendingUnique(Order(two.Keys), ["a", "b"]);
    assert ["a", "b"][1..] == ["b"] && ["b"][1..] == [] && ["a"][1..] == [];
    assert Render(["b"], two) == "b=2\n";
    assert Render(["a", "b"], two) == "a=1\n" + "b=2\n";
    assert Render(["a"], one) == "a=1\nb=2\n";
  }

  const ERROR: string := "error:"

  /** A failed start leaves a mark that some signature could equal exactly when the first key
      of the metadata begins with the mark. */
  lemma ErrorMarkIff(meta: map<string, string>)
    requires Clean(meta)
    ensures (exists e: string :: ERROR + e == Signature(meta))
       <==> meta.Keys != {} && ERROR <= Order(meta.Keys)[0]
  {
    var q := Order(meta.Keys);
    var s := Signature(meta);
    if q == [] {
      assert meta.Keys == {};
    } else {
      hide CleanKey;
      assert q[0] in meta.Keys;
      MarkInKey(q[0], "=" + meta[q[0]] + "\n" + Render(q[1..], meta));
      KeyFirst(q[0], meta[q[0]], Render(q[1..], meta));
    }
  }

  lemma KeyFirst(key: string, value: string, rest: string)
    ensures key + "=" + value + "\n" + rest == key + ("=" + value + "\n" + rest)
  {}

  lemma MarkInKey(key: string, rest: string)
    requires CleanKey(key) && rest != "" && rest[0] == '='
    ensures (exists e: string :: ERROR + e == key + rest) <==> ERROR <= key
  {
    var s := key + rest;
    if ERROR <= key {
      assert ERROR + s[|ERROR|..] == s;
    }
    if e: string :| ERROR + e == s {
      assert s[|key|] == '=';
      forall i | 0 <= i < |ERROR|
        ensures s[i] == ERROR[i] && ERROR[i] != '='
      {
        assert (ERROR + e)[i] == ERROR[i];
      }
      assert key[..|ERROR|] == s[..|ERROR|] == ERROR;
    }
  }
}
