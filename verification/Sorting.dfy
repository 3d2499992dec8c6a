/** The library sort, as insertion into place. Any sort gives the same lists: see
    `Stats.SortIsUnique` for numbers and `Signature.AscendingUnique` for texts. */
module Sorting {
  function Insert<T>(before: (T, T) -> bool, x: T, s: seq<T>): seq<T> {
    if s != [] && before(s[0], x) then [s[0]] + Insert(before, x, s[1..]) else [x] + s
  }

  function Sort<T>(before: (T, T) -> bool, s: seq<T>): seq<T> {
    if s == [] then [] else Insert(before, s[0], Sort(before, s[1..]))
  }

  lemma {:induction false} InsertKeeps<T>(before: (T, T) -> bool, x: T, s: seq<T>)
    ensures multiset(Insert(before, x, s)) == multiset(s) + multiset{x}
  {
    if s != [] && before(s[0], x) {
      InsertKeeps(before, x, s[1..]);
      assert s == [s[0]] + s[1..];
    }
  }

  lemma {:induction false} SortKeeps<T>(before: (T, T) -> bool, s: seq<T>)
    ensures multiset(Sort(before, s)) == multiset(s) && |Sort(before, s)| == |s|
  {
    if s != [] {
      SortKeeps(before, s[1..]);
      InsertKeeps(before, s[0], Sort(before, s[1..]));
      assert s == [s[0]] + s[1..];
    }
    assert |multiset(Sort(before, s))| == |multiset(s)|;
  }
}
