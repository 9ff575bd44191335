/** Sums over sequences, and their indifference to order. */
module Sums {

  function Sum<T>(xs: seq<T>, f: T -> int): int {
    if xs == [] then 0 else Sum(xs[..|xs| - 1], f) + f(xs[|xs| - 1])
  }

  function Map<S, T>(xs: seq<S>, f: S -> T): (ys: seq<T>)
    ensures |ys| == |xs| && forall i :: 0 <= i < |xs| ==> ys[i] == f(xs[i])
  {
    seq(|xs|, i requires 0 <= i < |xs| => f(xs[i]))
  }

  lemma SumStep<T>(xs: seq<T>, i: nat, f: T -> int)
    requires i < |xs|
    ensures Sum(xs[..i + 1], f) == Sum(xs[..i], f) + f(xs[i])
  {
    assert xs[..i + 1][..i] == xs[..i];
  }

  lemma {:induction false} SumRemove<T>(xs: seq<T>, j: nat, f: T -> int)
    requires j < |xs|
    ensures Sum(xs, f) == Sum(Without(xs, j), f) + f(xs[j])
  {
    var last := |xs| - 1;
    var rest := Without(xs, j);
    if j == last {
      assert rest == xs[..last];
    } else {
      SumRemove(xs[..last], j, f);
      assert Without(xs[..last], j) == rest[..|rest| - 1];
    }
  }

  function Without<T>(xs: seq<T>, j: nat): (ys: seq<T>)
    requires j < |xs|
    ensures |ys| == |xs| - 1 && forall y :: y in ys ==> y in xs
  {
    xs[..j] + xs[j + 1..]
  }

  lemma MapWithout<T, K>(xs: seq<T>, j: nat, key: T -> K)
    requires j < |xs|
    ensures multiset(Map(Without(xs, j), key)) == multiset(Map(xs, key)) - multiset{key(xs[j])}
  {
    var ks := Map(xs, key);
    assert Map(Without(xs, j), key) == ks[..j] + ks[j + 1..];
    assert ks == ks[..j] + [ks[j]] + ks[j + 1..];
  }

  /** The reduced element of one list is found in the other. */
  lemma KeyFound<T, K>(xs: seq<T>, ys: seq<T>, key: T -> K, x: T) returns (j: nat)
    requires multiset(Map(xs, key)) == multiset(Map(ys, key)) && x in xs
    ensures j < |ys| && key(ys[j]) == key(x)
  {
    var i :| 0 <= i < |xs| && xs[i] == x;
    assert Map(xs, key)[i] in multiset(Map(xs, key));
    assert key(x) in Map(ys, key);
    j :| 0 <= j < |ys| && Map(ys, key)[j] == key(x);
  }

  /** Two lists that are permutations of each other once each element is reduced to its key have the
      same sum, whenever the summand depends on the key alone. */
  lemma {:induction false} SumByKey<T, K>(xs: seq<T>, ys: seq<T>, key: T -> K, f: T -> int)
    requires multiset(Map(xs, key)) == multiset(Map(ys, key))
    requires forall x, y :: x in xs && y in ys && key(x) == key(y) ==> f(x) == f(y)
    ensures Sum(xs, f) == Sum(ys, f)
    decreases |xs|
  {
    if xs == [] {
      assert |Map(ys, key)| == |multiset(Map(ys, key))| == |multiset(Map(xs, key))| == 0;
    } else {
      var j := KeyFound(xs, ys, key, xs[0]);
      SumRemove(xs, 0, f);
      SumRemove(ys, j, f);
      MapWithout(xs, 0, key);
      MapWithout(ys, j, key);
      SumByKey(Without(xs, 0), Without(ys, j), key, f);
    }
  }

  lemma {:induction false} SumLeq<T>(xs: seq<T>, f: T -> int, g: T -> int)
    requires forall x :: x in xs ==> f(x) <= g(x)
    ensures Sum(xs, f) <= Sum(xs, g)
  {
    if xs != [] {
      assert forall x :: x in xs[..|xs| - 1] ==> x in xs;
      SumLeq(xs[..|xs| - 1], f, g);
    }
  }

  lemma {:induction false} SumEq<T>(xs: seq<T>, f: T -> int, g: T -> int)
    requires forall x :: x in xs ==> f(x) == g(x)
    ensures Sum(xs, f) == Sum(xs, g)
  {
    SumLeq(xs, f, g);
    SumLeq(xs, g, f);
  }

  lemma {:induction false} SumZero<T>(xs: seq<T>, f: T -> int)
    requires forall x :: x in xs ==> f(x) == 0
    ensures Sum(xs, f) == 0
  {
    if xs != [] {
      assert forall x :: x in xs[..|xs| - 1] ==> x in xs;
      SumZero(xs[..|xs| - 1], f);
    }
  }

  lemma {:induction false} SumOfMap<S, T>(xs: seq<S>, m: S -> T, f: T -> int, g: S -> int)
    requires forall x :: x in xs ==> g(x) == f(m(x))
    ensures Sum(Map(xs, m), f) == Sum(xs, g)
  {
    if xs != [] {
      var init := xs[..|xs| - 1];
      assert forall x :: x in init ==> x in xs;
      SumOfMap(init, m, f, g);
      assert Map(xs, m)[..|xs| - 1] == Map(init, m);
    }
  }

  lemma Relocated<T>(xs: seq<T>, ys: seq<T>, i: nat) returns (j: nat)
    requires multiset(xs) == multiset(ys) && i < |xs|
    ensures j < |ys| && ys[j] == xs[i]
  {
    assert xs[i] in multiset(xs);
    assert xs[i] in ys;
    j :| 0 <= j < |ys| && ys[j] == xs[i];
  }
}
