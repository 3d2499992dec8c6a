/** Go's string functions, on byte strings: every `char` here stands for one byte. */
module Text {
  import opened Common

  // --- White space -----------------------------------------------------------------

  predicate AsciiSpace(c: char) {
    c == ' ' || 9 <= c as int <= 13
  }

  predicate WideSpace2(a: int, b: int) {
    a == 0xC2 && (b == 0x85 || b == 0xA0)
  }

  predicate WideSpace3(a: int, b: int, c: int) {
    || (a == 0xE1 && b == 0x9A && c == 0x80)
    || (a == 0xE2 && b == 0x80 && (0x80 <= c <= 0x8A || c == 0xA8 || c == 0xA9 || c == 0xAF))
    || (a == 0xE2 && b == 0x81 && c == 0x9F)
    || (a == 0xE3 && b == 0x80 && c == 0x80)
  }

  /** The length in bytes of the white-space character at the front; 0 if there is none. */
  function SpaceAtFront(s: string): (n: nat)
    ensures n <= |s|
  {
    if |s| >= 1 && AsciiSpace(s[0]) then 1
    else if |s| >= 2 && WideSpace2(s[0] as int, s[1] as int) then 2
    else if |s| >= 3 && WideSpace3(s[0] as int, s[1] as int, s[2] as int) then 3
    else 0
  }

  function SpaceAtBack(s: string): (n: nat)
    ensures n <= |s|
  {
    var n := |s|;
    if n >= 1 && AsciiSpace(s[n - 1]) then 1
    else if n >= 2 && WideSpace2(s[n - 2] as int, s[n - 1] as int) then 2
    else if n >= 3 && WideSpace3(s[n - 3] as int, s[n - 2] as int, s[n - 1] as int) then 3
    else 0
  }

  function TrimLeft(s: string): string {
    if SpaceAtFront(s) == 0 then s else TrimLeft(s[SpaceAtFront(s)..])
  }

  function TrimRight(s: string): string {
    if SpaceAtBack(s) == 0 then s else TrimRight(s[..|s| - SpaceAtBack(s)])
  }

  function TrimSpace(s: string): string {
    TrimRight(TrimLeft(s))
  }

  /** A printing ASCII character. */
  predicate Plain(c: char) {
    32 < c as int < 127
  }

  lemma TrimPlain(s: string)
    requires s == [] || (Plain(s[0]) && Plain(s[|s| - 1]))
    ensures TrimSpace(s) == s
  {}

  lemma {:induction false} TrimLeftNewline(s: string)
    ensures TrimLeft(s + "\n") == if TrimLeft(s) == [] then [] else TrimLeft(s) + "\n"
  {
    var n := SpaceAtFront(s);
    if s == [] {
      assert (s + "\n")[1..] == [];
    } else {
      assert SpaceAtFront(s + "\n") == n;
      if n > 0 {
        TrimLeftNewline(s[n..]);
        assert (s + "\n")[n..] == s[n..] + "\n";
      }
    }
  }

  /** A line reads the same with and without its newline. */
  lemma TrimNewline(s: string)
    ensures TrimSpace(s + "\n") == TrimSpace(s)
  {
    TrimLeftNewline(s);
    var t := TrimLeft(s);
    if t != [] {
      assert (t + "\n")[..|t|] == t;
      assert TrimRight(t + "\n") == TrimRight(t);
    } else {
      assert TrimRight(t) == [];
    }
  }

  // --- Splitting -------------------------------------------------------------------

  function IndexOf(s: string, c: char): (i: nat)
    ensures i <= |s| && (i < |s| ==> s[i] == c)
    ensures forall k :: 0 <= k < i ==> s[k] != c
  {
    if s == [] || s[0] == c then 0 else 1 + IndexOf(s[1..], c)
  }

  function Split(s: string, c: char): (r: seq<string>)
    ensures r != []
  {
    var i := IndexOf(s, c);
    if i == |s| then [s] else [s[..i]] + Split(s[i + 1..], c)
  }

  function SplitAfter(s: string, c: char): (r: seq<string>)
    ensures r != []
  {
    var i := IndexOf(s, c);
    if i == |s| then [s] else [s[..i + 1]] + SplitAfter(s[i + 1..], c)
  }

  function Join(items: seq<string>, sep: string): string {
    if items == [] then []
    else if |items| == 1 then items[0]
    else items[0] + sep + Join(items[1..], sep)
  }

  lemma IndexOfUnique(s: string, c: char, i: nat)
    requires i <= |s| && (i < |s| ==> s[i] == c) && forall k :: 0 <= k < i ==> s[k] != c
    ensures IndexOf(s, c) == i
  {}

  lemma SplitFront(a: string, b: string, c: char)
    requires c !in a
    ensures Split(a + [c] + b, c) == [a] + Split(b, c)
    ensures SplitAfter(a + [c] + b, c) == [a + [c]] + SplitAfter(b, c)
  {
    var s := a + [c] + b;
    IndexOfUnique(s, c, |a|);
    assert s[..|a|] == a && s[..|a| + 1] == a + [c] && s[|a| + 1..] == b;
  }

  lemma SplitNone(a: string, c: char)
    requires c !in a
    ensures Split(a, c) == [a] && SplitAfter(a, c) == [a]
  {
    IndexOfUnique(a, c, |a|);
  }

  /** What follows the last separator. */
  function Residue(s: string, c: char): string {
    var r := Split(s, c);
    r[|r| - 1]
  }

  /** The pieces that a separator ends. */
  function Pieces(s: string, c: char): seq<string> {
    var r := Split(s, c);
    r[..|r| - 1]
  }

  lemma {:induction false} ResidueFree(s: string, c: char)
    ensures c !in Residue(s, c) && |Residue(s, c)| <= |s|
    ensures forall k :: 0 <= k < |Split(s, c)| ==> |Split(s, c)[k]| <= |s|
  {
    var i := IndexOf(s, c);
    if i < |s| {
      ResidueFree(s[i + 1..], c);
      var r := Split(s[i + 1..], c);
      assert Split(s, c) == [s[..i]] + r;
    }
  }

  lemma PiecesFront(a: string, b: string, c: char)
    requires c !in a
    ensures Pieces(a + [c] + b, c) == [a] + Pieces(b, c)
    ensures Residue(a + [c] + b, c) == Residue(b, c)
  {
    SplitFront(a, b, c);
  }

  lemma PiecesNone(a: string, c: char)
    requires c !in a
    ensures Pieces(a, c) == [] && Residue(a, c) == a
  {
    SplitNone(a, c);
  }

  /** Splitting more text only re-splits the residue of what came before. */
  lemma {:induction false} SplitAppend(s: string, t: string, c: char)
    ensures Split(s + t, c) == Pieces(s, c) + Split(Residue(s, c) + t, c)
  {
    hide Split, Pieces, Residue;
    var i := IndexOf(s, c);
    if i == |s| {
      assert s[..i] == s;
      PiecesNone(s, c);
    } else {
      var a, rest := s[..i], s[i + 1..];
      assert s == a + [c] + rest;
      SplitAppend(rest, t, c);
      PiecesFront(a, rest, c);
      SplitFront(a, rest + t, c);
      assert s + t == a + [c] + (rest + t);
    }
  }

  // --- Searching -------------------------------------------------------------------

  predicate HasPrefix(s: string, p: string) {
    p <= s
  }

  predicate OccursAt(s: string, sub: string, k: nat) {
    k + |sub| <= |s| && s[k..k + |sub|] == sub
  }

  lemma OccursAtFront(s: string, sub: string)
    ensures OccursAt(s, sub, 0) <==> sub <= s
  {
    if |sub| <= |s| {
      assert s[0..|sub|] == s[..|sub|];
    }
  }

  /** Where `sub` first occurs. */
  function Index(s: string, sub: string): (r: Option<nat>)
    ensures r.Some? ==> r.value + |sub| <= |s|
  {
    if sub <= s then Some(0)
    else if s == [] then None
    else
      match Index(s[1..], sub)
      case None => None
      case Some(k) => Some(k + 1)
  }

  lemma OccursTail(s: string, sub: string, j: nat)
    requires s != []
    ensures OccursAt(s[1..], sub, j) <==> OccursAt(s, sub, j + 1)
  {
    if j + 1 + |sub| <= |s| {
      assert s[1..][j..j + |sub|] == s[j + 1..j + 1 + |sub|];
    }
  }

  lemma {:induction false} IndexFirst(s: string, sub: string, k: nat)
    requires OccursAt(s, sub, k) && forall j: nat :: j < k ==> !OccursAt(s, sub, j)
    ensures Index(s, sub) == Some(k)
  {
    OccursAtFront(s, sub);
    if k > 0 {
      assert !OccursAt(s, sub, 0);
      forall j: nat
        ensures OccursAt(s[1..], sub, j) <==> OccursAt(s, sub, j + 1)
      {
        OccursTail(s, sub, j);
      }
      IndexFirst(s[1..], sub, k - 1);
    }
  }

  lemma {:induction false} IndexSound(s: string, sub: string)
    ensures match Index(s, sub)
            case None => forall j: nat :: !OccursAt(s, sub, j)
            case Some(k) => OccursAt(s, sub, k) && forall j: nat :: j < k ==> !OccursAt(s, sub, j)
  {
    OccursAtFront(s, sub);
    if !(sub <= s) && s != [] {
      IndexSound(s[1..], sub);
      hide OccursAt;
      forall j: nat | j > 0
        ensures OccursAt(s, sub, j) <==> OccursAt(s[1..], sub, j - 1)
      {
        OccursTail(s, sub, j - 1);
      }
      match Index(s[1..], sub) {
        case None =>
        case Some(k) => OccursTail(s, sub, k);
      }
    }
  }

  predicate Contains(s: string, sub: string) {
    Index(s, sub).Some?
  }

  lemma ContainsIff(s: string, sub: string)
    ensures Contains(s, sub) <==> exists j: nat :: OccursAt(s, sub, j)
  {
    IndexSound(s, sub);
  }

  /** What contains a part of it that contains `sub`. */
  lemma ContainsPart(s: string, i: nat, j: nat, sub: string)
    requires i <= j <= |s| && Contains(s[i..j], sub)
    ensures Contains(s, sub)
  {
    ContainsIff(s[i..j], sub);
    ContainsIff(s, sub);
    var k: nat :| OccursAt(s[i..j], sub, k);
    OccursPart(s, i, j, sub, k);
  }

  lemma OccursPart(s: string, i: nat, j: nat, sub: string, k: nat)
    requires i <= j <= |s| && OccursAt(s[i..j], sub, k)
    ensures OccursAt(s, sub, i + k)
  {
    SliceOfSlice(s, i, j, k, k + |sub|);
  }

  lemma SliceOfSlice(s: string, i: nat, j: nat, a: nat, b: nat)
    requires i <= j <= |s| && a <= b <= j - i
    ensures s[i..j][a..b] == s[i + a..i + b]
  {
    var t, u := s[i..j][a..b], s[i + a..i + b];
    forall x | 0 <= x < |t|
      ensures t[x] == u[x]
    {}
  }

  lemma ContainsMiddle(a: string, sub: string, b: string)
    ensures Contains(a + sub + b, sub)
  {
    var s := a + sub + b;
    assert s[|a|..|a| + |sub|] == sub;
    assert OccursAt(s, sub, |a|);
    ContainsIff(s, sub);
  }

  // --- More on trimming --------------------------------------------------------------

  /** No white space at either end. */
  predicate Tight(s: string) {
    SpaceAtFront(s) == 0 && SpaceAtBack(s) == 0
  }

  lemma TrimTight(s: string)
    requires Tight(s)
    ensures TrimSpace(s) == s
  {}

  lemma {:induction false} TrimLeftSuffix(s: string) returns (i: nat)
    ensures i <= |s| && TrimLeft(s) == s[i..]
    decreases |s|
  {
    var n := SpaceAtFront(s);
    if n == 0 {
      i := 0;
    } else {
      i := TrimLeftSuffix(s[n..]);
      i := n + i;
    }
  }

  lemma {:induction false} TrimRightPrefix(s: string) returns (i: nat)
    ensures i <= |s| && TrimRight(s) == s[..i]
    decreases |s|
  {
    var n := SpaceAtBack(s);
    if n == 0 {
      i := |s|;
    } else {
      i := TrimRightPrefix(s[..|s| - n]);
    }
  }

  /** What is trimmed stands somewhere in the whole. */
  lemma TrimPart(s: string) returns (i: nat, j: nat)
    ensures i <= j <= |s| && TrimSpace(s) == s[i..j]
  {
    i := TrimLeftSuffix(s);
    var n := TrimRightPrefix(s[i..]);
    j := i + n;
  }

  /** Text that starts with a printing character stops the trimming from the left. */
  lemma {:induction false} TrimLeftInto(a: string, b: string)
    requires b != "" && Plain(b[0])
    ensures TrimLeft(a + b) == TrimLeft(a) + b
    decreases |a|
  {
    var n := SpaceAtFront(a);
    if a == "" {
      assert a + b == b;
    } else {
      assert SpaceAtFront(a + b) == n;
      if n > 0 {
        TrimLeftInto(a[n..], b);
        assert (a + b)[n..] == a[n..] + b;
      }
    }
  }

  lemma {:induction false} TrimRightInto(a: string, b: string)
    requires a != "" && Plain(a[|a| - 1])
    ensures TrimRight(a + b) == a + TrimRight(b)
    decreases |b|
  {
    var n := SpaceAtBack(b);
    if b == "" {
      assert a + b == a;
    } else {
      assert SpaceAtBack(a + b) == n;
      if n > 0 {
        TrimRightInto(a, b[..|b| - n]);
        assert (a + b)[..|a + b| - n] == a + b[..|b| - n];
      }
    }
  }

  /** A printing character is never trimmed away. */
  lemma TrimKeeps(s: string, k: nat)
    requires k < |s| && Plain(s[k])
    ensures TrimSpace(s) != ""
  {
    assert s == s[..k] + s[k..];
    TrimLeftInto(s[..k], s[k..]);
    var a := TrimLeft(s[..k]) + [s[k]];
    assert TrimLeft(s) == a + s[k + 1..];
    TrimRightInto(a, s[k + 1..]);
  }

  // --- Joining -----------------------------------------------------------------------

  /** Splitting undoes joining. */
  lemma {:induction false} SplitJoin(items: seq<string>, c: char)
    requires items != [] && forall k :: 0 <= k < |items| ==> c !in items[k]
    ensures Split(Join(items, [c]), c) == items
  {
    hide Split, SplitAfter;
    if |items| == 1 {
      SplitNone(items[0], c);
      assert items == [items[0]];
    } else {
      SplitJoin(items[1..], c);
      SplitFront(items[0], Join(items[1..], [c]), c);
      assert items == [items[0]] + items[1..];
    }
  }

  /** None of the characters of `bad`. */
  predicate Free(s: string, bad: string) {
    forall k :: 0 <= k < |s| ==> s[k] !in bad
  }

  lemma FreeOf(s: string, bad: string, ch: char)
    requires Free(s, bad) && ch in bad
    ensures ch !in s
  {}

  lemma FreeAppend(a: string, b: string, bad: string)
    ensures Free(a + b, bad) <==> Free(a, bad) && Free(b, bad)
  {
    if Free(a + b, bad) {
      forall k | 0 <= k < |a| ensures a[k] !in bad { assert (a + b)[k] == a[k]; }
      forall k | 0 <= k < |b| ensures b[k] !in bad { assert (a + b)[|a| + k] == b[k]; }
    }
  }

  lemma {:induction false} FreeJoin(items: seq<string>, sep: string, bad: string)
    requires Free(sep, bad) && forall k :: 0 <= k < |items| ==> Free(items[k], bad)
    ensures Free(Join(items, sep), bad)
  {
    if |items| > 1 {
      FreeJoin(items[1..], sep, bad);
      FreeAppend(items[0], sep, bad);
      FreeAppend(items[0] + sep, Join(items[1..], sep), bad);
    }
  }
}
