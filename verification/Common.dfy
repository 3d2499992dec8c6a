/** Small types shared by the modules of this project. */
module Common {
  datatype Option<+T> = None | Some(value: T)

  datatype Result<+T, +E> = Ok(value: T) | Err(error: E)

  function Max(a: int, b: int): (m: int)
    ensures m >= a && m >= b && (m == a || m == b)
  {
    if a > b then a else b
  }

  lemma Regrouped<T>(before: seq<T>, x: T, rest: seq<T>)
    ensures (before + [x]) + rest == before + ([x] + rest)
  {}

  /** Two lists with the same elements still have the same ones when the first of `a` is taken
      out of both. */
  lemma TakeFirst<T>(a: seq<T>, b: seq<T>) returns (i: nat)
    requires a != [] && multiset(a) == multiset(b)
    ensures i < |b| && b[i] == a[0] && b == b[..i] + [a[0]] + b[i + 1..]
    ensures multiset(a[1..]) == multiset(b[..i] + b[i + 1..])
  {
    var x := a[0];
    assert x in multiset(b);
    i :| 0 <= i < |b| && b[i] == x;
    assert a == [x] + a[1..];
    assert b == b[..i] + [x] + b[i + 1..];
    assert multiset(a[1..]) == multiset(a) - multiset{x};
    assert multiset(b[..i] + b[i + 1..]) == multiset(b) - multiset{x};
  }

  function Min(a: int, b: int): (m: int)
    ensures m <= a && m <= b && (m == a || m == b)
  {
    if a < b then a else b
  }
}
