/** A sort by an integer key, the shape of JavaScript's `Array.prototype.sort`
    with a numeric comparator and of SQL `ORDER BY` on a total key. Only the order
    of the keys and the permutation are stated, not the order of equal keys. */
module Sorting {

  predicate SortedBy<T>(s: seq<T>, key: T -> int) {
    forall i, j | 0 <= i < j < |s| :: key(s[i]) <= key(s[j])
  }

  /** Places `x` after every element whose key does not exceed its own, so equal
      keys keep their arrival order. */
  function Insert<T>(x: T, s: seq<T>, key: T -> int): (r: seq<T>)
    requires SortedBy(s, key)
    ensures SortedBy(r, key)
    ensures multiset(r) == multiset(s) + multiset{x}
    ensures |r| == |s| + 1
    ensures r[0] == x || (|s| > 0 && r[0] == s[0])
    decreases |s|
  {
    if |s| == 0 then [x]
    else if key(x) < key(s[0]) then
      ConsSorted(x, s, key);
      [x] + s
    else
      var rest := Insert(x, s[1..], key);
      assert s == [s[0]] + s[1..];
      ConsSorted(s[0], rest, key);
      [s[0]] + rest
  }

  /** A head no greater than a sorted tail's first key keeps the sequence sorted. */
  lemma ConsSorted<T>(h: T, t: seq<T>, key: T -> int)
    requires SortedBy(t, key)
    requires |t| > 0 ==> key(h) <= key(t[0])
    ensures SortedBy([h] + t, key)
  {
    var s := [h] + t;
    forall i, j | 0 <= i < j < |s| ensures key(s[i]) <= key(s[j]) {
      if i > 0 {
        assert s[i] == t[i - 1] && s[j] == t[j - 1];
      } else {
        assert s[j] == t[j - 1];
      }
    }
  }

  /** Insertion sort: the elements of `xs` in ascending key order, ties in their
      original order. */
  function SortBy<T>(xs: seq<T>, key: T -> int): (r: seq<T>)
    ensures SortedBy(r, key)
    ensures multiset(r) == multiset(xs)
    ensures |r| == |xs|
    decreases |xs|
  {
    if |xs| == 0 then []
    else
      assert xs == xs[..|xs| - 1] + [xs[|xs| - 1]];
      Insert(xs[|xs| - 1], SortBy(xs[..|xs| - 1], key), key)
  }

  /** Filtering keeps sortedness and is a sub-multiset. */
  function Filter<T>(s: seq<T>, keep: T -> bool): (r: seq<T>)
    ensures forall i | 0 <= i < |r| :: keep(r[i])
    ensures forall x | x in s && keep(x) :: x in r
    ensures multiset(r) <= multiset(s)
    ensures |r| <= |s|
    ensures forall x | x in s :: multiset(r)[x] == if keep(x) then multiset(s)[x] else 0
    decreases |s|
  {
    if |s| == 0 then []
    else
      var rest := Filter(s[1..], keep);
      assert s == [s[0]] + s[1..];
      if keep(s[0]) then [s[0]] + rest else rest
  }

  lemma {:induction false} FilterKeepsOrder<T>(s: seq<T>, keep: T -> bool, key: T -> int)
    requires SortedBy(s, key)
    ensures SortedBy(Filter(s, keep), key)
    decreases |s|
  {
    if |s| > 0 {
      FilterKeepsOrder(s[1..], keep, key);
      var rest := Filter(s[1..], keep);
      if keep(s[0]) {
        if |rest| > 0 {
          assert rest[0] in multiset(s[1..]);
          var j :| 0 <= j < |s[1..]| && s[1..][j] == rest[0];
          assert s[j + 1] == rest[0];
        }
        ConsSorted(s[0], rest, key);
      }
    }
  }

  /** Filtering sequences with the same elements gives sequences with the same
      elements. */
  lemma FilterSameMultiset<T>(s: seq<T>, t: seq<T>, keep: T -> bool)
    requires multiset(s) == multiset(t)
    ensures multiset(Filter(s, keep)) == multiset(Filter(t, keep))
  {
    var a, b := Filter(s, keep), Filter(t, keep);
    forall x ensures multiset(a)[x] == multiset(b)[x] {
      if x !in s {
        assert multiset(s)[x] == 0 && multiset(t)[x] == 0;
      } else {
        assert x in t;
      }
    }
    assert multiset(a) == multiset(b);
  }

  /** Filtering by a weaker test first changes nothing. */
  lemma {:induction false} FilterNarrow<T>(s: seq<T>, wide: T -> bool, narrow: T -> bool)
    requires forall x :: narrow(x) ==> wide(x)
    ensures Filter(Filter(s, wide), narrow) == Filter(s, narrow)
    decreases |s|
  {
    if |s| > 0 {
      FilterNarrow(s[1..], wide, narrow);
      var w := Filter(s, wide);
      if wide(s[0]) {
        assert w == [s[0]] + Filter(s[1..], wide);
        assert w[1..] == Filter(s[1..], wide);
      }
    }
  }

  /** The first `n` elements (all of them when there are fewer): `slice(0, n)` and
      SQL `LIMIT n`. */
  function Take<T>(s: seq<T>, n: nat): (r: seq<T>)
    ensures |r| == if n < |s| then n else |s|
    ensures r == s[..|r|]
  {
    if n < |s| then s[..n] else s
  }

  /** A prefix holds nothing the whole sequence does not. */
  lemma TakeFacts<T>(s: seq<T>, n: nat)
    ensures multiset(Take(s, n)) <= multiset(s)
    ensures forall x | x in Take(s, n) :: x in s
  {
    var r := Take(s, n);
    assert s == r + s[|r|..];
  }

  /** A prefix of a sorted sequence is sorted. */
  lemma TakeSorted<T>(s: seq<T>, n: nat, key: T -> int)
    requires SortedBy(s, key)
    ensures SortedBy(Take(s, n), key)
  {
    var t := Take(s, n);
    forall i, j | 0 <= i < j < |t| ensures key(t[i]) <= key(t[j]) {
      assert t[i] == s[i] && t[j] == s[j];
    }
  }

  /** In a sorted sequence, every element left out of a prefix has a key at least as
      large as every element kept. */
  lemma TakeIsTop<T>(s: seq<T>, n: nat, key: T -> int, x: T)
    requires SortedBy(s, key)
    requires x in s && x !in Take(s, n)
    ensures forall y | y in Take(s, n) :: key(y) <= key(x)
  {
    var t := Take(s, n);
    var j :| 0 <= j < |s| && s[j] == x;
    assert forall i | 0 <= i < |t| :: t[i] == s[i];
    forall y | y in t ensures key(y) <= key(x) {
      var i :| 0 <= i < |t| && t[i] == y;
      assert s[i] == y;
    }
  }
}
