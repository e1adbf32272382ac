/** Sums over sequences, and the few laws the accounting proofs are built from. */
module Sums {

  function Sum<T>(s: seq<T>, f: T -> int): int {
    if s == [] then 0 else Sum(s[..|s| - 1], f) + f(s[|s| - 1])
  }

  lemma {:induction false} SumAppend<T>(s: seq<T>, t: seq<T>, f: T -> int)
    ensures Sum(s + t, f) == Sum(s, f) + Sum(t, f)
  {
    if t == [] {
      assert s + t == s;
    } else {
      var u := s + t;
      assert u[..|u| - 1] == s + t[..|t| - 1];
      SumAppend(s, t[..|t| - 1], f);
    }
  }

  lemma {:induction false} SumAdd<T>(s: seq<T>, f: T -> int, g: T -> int, h: T -> int)
    requires forall x | x in s :: h(x) == f(x) + g(x)
    ensures Sum(s, h) == Sum(s, f) + Sum(s, g)
  {
    if s != [] {
      assert s[|s| - 1] in s;
      SumAdd(s[..|s| - 1], f, g, h);
    }
  }

  lemma {:induction false} SumScaled<T>(s: seq<T>, f: T -> int, g: T -> int, k: int)
    requires forall x | x in s :: g(x) == f(x) * k
    ensures Sum(s, g) == Sum(s, f) * k
  {
    if s != [] {
      assert s[|s| - 1] in s;
      SumScaled(s[..|s| - 1], f, g, k);
    }
  }

  lemma {:induction false} SumMonotone<T>(s: seq<T>, f: T -> int, g: T -> int)
    requires forall x | x in s :: f(x) <= g(x)
    ensures Sum(s, f) <= Sum(s, g)
  {
    if s != [] {
      assert s[|s| - 1] in s;
      SumMonotone(s[..|s| - 1], f, g);
    }
  }

  lemma CancelTerm<T>(a: multiset<T>, b: multiset<T>, c: multiset<T>)
    requires a + c == b + c
    ensures a == b
  {
    forall x ensures a[x] == b[x] {
      assert (a + c)[x] == (b + c)[x];
    }
  }

  /** Takes the last term of `s` out of a permutation `t` of it. */
  lemma TakeOut<T>(s: seq<T>, t: seq<T>) returns (left: seq<T>, right: seq<T>)
    requires s != [] && multiset(s) == multiset(t)
    ensures t == left + ([s[|s| - 1]] + right)
    ensures multiset(s[..|s| - 1]) == multiset(left + right)
  {
    var x, rest := s[|s| - 1], s[..|s| - 1];
    assert s == rest + [x];
    assert x in multiset(t);
    var i :| 0 <= i < |t| && t[i] == x;
    left, right := t[..i], t[i + 1..];
    assert t == left + ([x] + right);
    assert multiset(s) == multiset(rest) + multiset([x]);
    assert multiset(t) == multiset(left) + (multiset([x]) + multiset(right));
    CancelTerm(multiset(rest), multiset(left) + multiset(right), multiset([x]));
    assert multiset(left) + multiset(right) == multiset(left + right);
  }

  lemma EmptyPermutation<T>(t: seq<T>)
    requires multiset(t) == multiset{}
    ensures t == []
  {
    assert |multiset(t)| == |t|;
  }

  /** A sum does not depend on the order of its terms. */
  lemma {:induction false} SumPermutation<T>(s: seq<T>, t: seq<T>, f: T -> int)
    requires multiset(s) == multiset(t)
    ensures Sum(s, f) == Sum(t, f)
  {
    if s == [] {
      EmptyPermutation(t);
    } else {
      var left, right := TakeOut(s, t);
      var x := s[|s| - 1];
      SumPermutation(s[..|s| - 1], left + right, f);
      SumAppend(left, right, f);
      SumAppend(left, [x] + right, f);
      SumAppend([x], right, f);
      assert [x][..0] == [];
    }
  }

  function Map<T, U>(s: seq<T>, f: T -> U): seq<U> {
    seq(|s|, i requires 0 <= i < |s| => f(s[i]))
  }

  lemma MapAppend<T, U>(s: seq<T>, t: seq<T>, f: T -> U)
    ensures Map(s + t, f) == Map(s, f) + Map(t, f)
  {
  }

  /** Mapping permuted lists gives permuted lists. */
  lemma {:induction false} MapPermutation<T, U>(s: seq<T>, t: seq<T>, f: T -> U)
    requires multiset(s) == multiset(t)
    ensures multiset(Map(s, f)) == multiset(Map(t, f))
  {
    if s == [] {
      EmptyPermutation(t);
    } else {
      var left, right := TakeOut(s, t);
      var x, rest := s[|s| - 1], s[..|s| - 1];
      assert s == rest + [x];
      MapPermutation(rest, left + right, f);
      MapAppend(rest, [x], f);
      MapAppend(left, right, f);
      MapAppend(left, [x] + right, f);
      MapAppend([x], right, f);
    }
  }

  predicate NoDuplicates<T(==)>(s: seq<T>) {
    forall i, j | 0 <= i < j < |s| :: s[i] != s[j]
  }

  /** Summing the indicator of `x` over a duplicate-free list that holds `x` gives one. */
  lemma {:induction false} SumIndicator(s: seq<nat>, x: nat, f: nat -> int)
    requires NoDuplicates(s)
    requires forall y | y in s :: f(y) == if y == x then 1 else 0
    ensures Sum(s, f) == if x in s then 1 else 0
  {
    if s != [] {
      var last, rest := s[|s| - 1], s[..|s| - 1];
      assert s == rest + [last];
      assert last in s;
      SumIndicator(rest, x, f);
    }
  }

  /** A duplicate-free list is determined, up to order, by the set of its members. */
  lemma {:induction false} DistinctMultiset<T>(s: seq<T>)
    requires NoDuplicates(s)
    ensures multiset(s) == multiset(set x | x in s)
  {
    if s != [] {
      var last, rest := s[|s| - 1], s[..|s| - 1];
      assert s == rest + [last];
      DistinctMultiset(rest);
      assert (set x | x in s) == (set x | x in rest) + {last};
      assert last !in rest;
    }
  }

  function Count(ids: seq<nat>, id: nat): nat {
    if ids == [] then 0
    else Count(ids[..|ids| - 1], id) + if ids[|ids| - 1] == id then 1 else 0
  }

  /** Counting every member of `ids` over a duplicate-free list that covers it counts `ids` itself. */
  lemma {:induction false} CountsCover(keys: seq<nat>, ids: seq<nat>, count: nat -> int)
    requires NoDuplicates(keys)
    requires forall id | id in ids :: id in keys
    requires forall k: nat :: count(k) == Count(ids, k)
    ensures Sum(keys, count) == |ids|
  {
    if ids == [] {
      SumScaled(keys, count, count, 0);
    } else {
      var last, rest := ids[|ids| - 1], ids[..|ids| - 1];
      assert ids == rest + [last];
      assert last in ids;
      var before := (k: nat) => Count(rest, k) as int;
      var here := (k: nat) => if k == last then 1 else 0;
      CountsCover(keys, rest, before);
      SumIndicator(keys, last, here);
      SumAdd(keys, before, here, count);
    }
  }
}
