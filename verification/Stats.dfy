/** The order statistics of a result record. */
module Stats {
  import Sorting

  ghost predicate Sorted(s: seq<int>) {
    forall i, j :: 0 <= i <= j < |s| ==> s[i] <= s[j]
  }

  predicate Below(a: int, b: int) {
    a < b
  }

  function Insert(x: int, s: seq<int>): seq<int> {
    Sorting.Insert(Below, x, s)
  }

  lemma {:induction false} InsertSorted(x: int, s: seq<int>, lo: int)
    requires Sorted(s) && lo <= x && (s != [] ==> lo <= s[0])
    ensures Sorted(Insert(x, s)) && Insert(x, s) != [] && lo <= Insert(x, s)[0]
  {
    if s != [] && x > s[0] {
      InsertSorted(x, s[1..], s[0]);
      var r := Insert(x, s[1..]);
      forall i, j | 0 <= i <= j < |[s[0]] + r|
        ensures ([s[0]] + r)[i] <= ([s[0]] + r)[j]
      {
        if 0 == i < j {
          assert r[0] <= r[j - 1];
        }
      }
    }
  }

  function Sort(s: seq<int>): (r: seq<int>)
    ensures Sorted(r) && multiset(r) == multiset(s) && |r| == |s|
  {
    SortSorted(s);
    Sorting.SortKeeps(Below, s);
    Sorting.Sort(Below, s)
  }

  lemma {:induction false} SortSorted(s: seq<int>)
    ensures Sorted(Sorting.Sort(Below, s))
  {
    if s != [] {
      var r := Sorting.Sort(Below, s[1..]);
      SortSorted(s[1..]);
      InsertSorted(s[0], r, if r == [] || s[0] <= r[0] then s[0] else r[0]);
    }
  }

  lemma LeastFirst(a: seq<int>, b: seq<int>)
    requires Sorted(b) && multiset(a) == multiset(b) && a != []
    ensures b != [] && b[0] <= a[0]
  {
    assert a[0] in multiset(b);
    var i :| 0 <= i < |b| && b[i] == a[0];
  }

  lemma {:induction false} SortIsUnique(a: seq<int>, b: seq<int>)
    requires Sorted(a) && Sorted(b) && multiset(a) == multiset(b)
    ensures a == b
  {
    if a == [] {
      assert |multiset(b)| == |b|;
    } else {
      LeastFirst(a, b);
      LeastFirst(b, a);
      TailMultiset(a);
      TailMultiset(b);
      SortIsUnique(a[1..], b[1..]);
    }
  }

  lemma TailMultiset(s: seq<int>)
    requires s != []
    ensures multiset(s[1..]) == multiset(s) - multiset{s[0]}
  {
    assert s == [s[0]] + s[1..];
  }

  /** The position picked for a percentile, clamped to the list. */
  function Rank(n: nat, percentile: nat): (k: nat)
    requires n > 0
    ensures k < n
  {
    var i := (n * percentile + 99) / 100;
    if i <= 0 then 0 else if i > n then n - 1 else i - 1
  }

  function PercentileDuration(values: seq<int>, percentile: nat): int {
    if values == [] then 0 else values[Rank(|values|, percentile)]
  }

  /** How many of the values are at most `v`. */
  function AtMost(s: seq<int>, v: int): nat {
    if s == [] then 0 else (if s[0] <= v then 1 else 0) + AtMost(s[1..], v)
  }

  lemma {:induction false} AtMostInsert(x: int, s: seq<int>, v: int)
    requires Sorted(s)
    ensures AtMost(Insert(x, s), v) == AtMost(s, v) + (if x <= v then 1 else 0)
  {
    if s == [] || x <= s[0] {
      assert ([x] + s)[1..] == s;
    } else {
      AtMostInsert(x, s[1..], v);
      assert ([s[0]] + Insert(x, s[1..]))[1..] == Insert(x, s[1..]);
    }
  }

  lemma {:induction false} AtMostSort(s: seq<int>, v: int)
    ensures AtMost(Sort(s), v) == AtMost(s, v)
  {
    if s != [] {
      AtMostSort(s[1..], v);
      AtMostInsert(s[0], Sort(s[1..]), v);
    }
  }

  lemma {:induction false} AtMostRank(s: seq<int>, k: nat, v: int)
    requires Sorted(s) && k <= |s|
    ensures (k > 0 ==> s[k - 1] <= v) ==> AtMost(s, v) >= k
    ensures (k < |s| ==> v < s[k]) ==> AtMost(s, v) <= k
  {
    if s != [] {
      AtMostRank(s[1..], if k == 0 then 0 else k - 1, v);
    }
  }

  /** The percentile of a record is the nearest-rank percentile of the round trips in any
      order: the least of them with at least `p` percent of them at or below it. */
  lemma NearestRank(rtt: seq<int>, p: nat)
    requires rtt != [] && 1 <= p <= 100
    ensures var v := PercentileDuration(Sort(rtt), p);
            && v in rtt
            && 100 * AtMost(rtt, v) >= |rtt| * p
            && (forall u :: u in rtt && u < v ==> 100 * AtMost(rtt, u) < |rtt| * p)
  {
    hide Sorted, AtMost, Rank, Sort;
    var s := Sort(rtt);
    var k, share := Rank(|rtt|, p), |rtt| * p;
    RankInRange(|rtt|, p);
    assert 100 * (k + 1) >= share && 100 * k < share;
    SameElements(s, rtt, k);
    RankAbove(rtt, k + 1);
    forall u | u in rtt && u < s[k]
      ensures 100 * AtMost(rtt, u) < share
    {
      RankBelow(rtt, k + 1, u);
    }
  }

  lemma SameElements(s: seq<int>, t: seq<int>, k: nat)
    requires multiset(s) == multiset(t) && k < |s|
    ensures s[k] in t
  {
    assert s[k] in multiset(t);
  }

  lemma RankAbove(rtt: seq<int>, i: nat)
    requires 1 <= i <= |rtt|
    ensures AtMost(rtt, Sort(rtt)[i - 1]) >= i
  {
    AtMostRank(Sort(rtt), i, Sort(rtt)[i - 1]);
    AtMostSort(rtt, Sort(rtt)[i - 1]);
  }

  lemma RankBelow(rtt: seq<int>, i: nat, u: int)
    requires 1 <= i <= |rtt| && u < Sort(rtt)[i - 1]
    ensures AtMost(rtt, u) <= i - 1
  {
    AtMostRank(Sort(rtt), i - 1, u);
    AtMostSort(rtt, u);
  }

  lemma RankInRange(n: nat, p: nat)
    requires n > 0 && 1 <= p <= 100
    ensures 100 * (Rank(n, p) + 1) >= n * p && 100 * Rank(n, p) < n * p
  {
    var x := n * p;
    Times(n, p);
    Hundreds(x);
    var i := (x + 99) / 100;
    assert 1 <= i <= n && Rank(n, p) == i - 1;
  }

  lemma Times(n: nat, p: nat)
    requires n > 0 && 1 <= p <= 100
    ensures 1 <= n * p <= 100 * n
  {
    if p > 1 {
      Times(n, p - 1);
      assert n * p == n * (p - 1) + n;
    }
    assert n * p <= n * 100;
  }

  /** Rounding up to hundreds. */
  lemma Hundreds(x: nat)
    ensures x <= 100 * ((x + 99) / 100) < x + 100
  {}

  function Total(s: seq<int>): int {
    if s == [] then 0 else Total(s[..|s| - 1]) + s[|s| - 1]
  }

  lemma {:induction false} TotalFront(s: seq<int>)
    requires s != []
    ensures Total(s) == s[0] + Total(s[1..])
  {
    if |s| > 1 {
      TotalFront(s[..|s| - 1]);
      assert s[..|s| - 1][1..] == s[1..][..|s| - 2];
    }
  }

  lemma {:induction false} TotalInsert(x: int, s: seq<int>)
    ensures Total(Insert(x, s)) == x + Total(s)
  {
    TotalFront(Insert(x, s));
    if s == [] || !Below(s[0], x) {
      assert ([x] + s)[1..] == s;
    } else {
      TotalInsert(x, s[1..]);
      TotalFront(s);
      assert ([s[0]] + Insert(x, s[1..]))[1..] == Insert(x, s[1..]);
    }
  }

  /** Sorting keeps the sum. */
  lemma {:induction false} TotalSort(s: seq<int>)
    ensures Total(Sort(s)) == Total(s)
  {
    if s != [] {
      TotalSort(s[1..]);
      TotalInsert(s[0], Sort(s[1..]));
      TotalFront(s);
    }
  }

  lemma {:induction false} TotalBounds(s: seq<int>, lo: int, hi: int)
    requires forall i :: 0 <= i < |s| ==> lo <= s[i] <= hi
    ensures |s| * lo <= Total(s) <= |s| * hi
  {
    if s != [] {
      TotalBounds(s[..|s| - 1], lo, hi);
      assert |s| * lo == (|s| - 1) * lo + lo;
      assert |s| * hi == (|s| - 1) * hi + hi;
    }
  }

  /** Integer division of a duration, which truncates toward zero. */
  function Quot(a: int, b: nat): int
    requires b > 0
  {
    if a >= 0 then a / b else -((-a) / b)
  }

  lemma QuotBounds(a: int, b: nat, lo: int, hi: int)
    requires b > 0 && b * lo <= a <= b * hi
    ensures lo <= Quot(a, b) <= hi
  {
    var q := Quot(a, b);
    QuotNear(a, b);
    if q < lo { Factor(b, q, lo); }
    if hi < q { Factor(b, hi, q); }
  }

  /** A truncated quotient is less than one divisor away, on the side of zero. */
  lemma QuotNear(a: int, b: nat)
    requires b > 0
    ensures var q := Quot(a, b);
            if a >= 0 then b * q <= a < b * q + b else b * q - b < a <= b * q
  {
    var n := if a >= 0 then a else -a;
    assert n == b * (n / b) + n % b;
    assert b * (-(n / b)) == -(b * (n / b));
  }

  lemma {:induction false} Factor(b: nat, x: int, y: int)
    requires x < y
    ensures b * x + b <= b * y
    decreases y - x
  {
    assert b * y == b * (y - 1) + b;
    if x < y - 1 {
      Factor(b, x, y - 1);
    }
  }
}
