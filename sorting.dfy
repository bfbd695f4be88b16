/**
 * Orderings used by the `ORDER BY` queries: a stable sort of a sequence by an
 * integer key, and a listing of a finite set in an unspecified order (the
 * order a table scan returns its rows in).
 */
module Sorting {
  /** `xs` is in non-decreasing order of `key`. */
  predicate SortedBy<T>(xs: seq<T>, key: T -> int) {
    forall i, j | 0 <= i < j < |xs| :: key(xs[i]) <= key(xs[j])
  }

  /** Inserts `x` before the first element with a larger key. */
  function Insert<T>(x: T, xs: seq<T>, key: T -> int): (r: seq<T>)
    requires SortedBy(xs, key)
    ensures SortedBy(r, key)
    ensures multiset(r) == multiset(xs) + multiset{x}
    ensures |r| == |xs| + 1
  {
    if xs == [] then [x]
    else if key(x) <= key(xs[0]) then [x] + xs
    else
      var rest := Insert(x, xs[1..], key);
      HeadBelowRest(x, xs, key, rest);
      assert xs == [xs[0]] + xs[1..];
      assert multiset(xs) == multiset{xs[0]} + multiset(xs[1..]);
      assert multiset([xs[0]] + rest) == multiset{xs[0]} + multiset(rest);
      [xs[0]] + rest
  }

  /** The first element of a sorted `xs` has a key no larger than any element of the insertion into the tail. */
  lemma HeadBelowRest<T>(x: T, xs: seq<T>, key: T -> int, rest: seq<T>)
    requires SortedBy(xs, key) && |xs| > 0 && key(xs[0]) < key(x)
    requires multiset(rest) == multiset(xs[1..]) + multiset{x}
    ensures forall i | 0 <= i < |rest| :: key(xs[0]) <= key(rest[i])
  {
    forall i | 0 <= i < |rest|
      ensures key(xs[0]) <= key(rest[i])
    {
      assert rest[i] in multiset(rest);
      if rest[i] != x {
        assert rest[i] in multiset(xs[1..]);
        var j :| 0 <= j < |xs[1..]| && xs[1..][j] == rest[i];
        assert xs[1..][j] == xs[j + 1];
      }
    }
  }

  /** The elements of `xs`, rearranged into non-decreasing order of `key`. */
  function SortBy<T>(xs: seq<T>, key: T -> int): (r: seq<T>)
    ensures SortedBy(r, key)
    ensures multiset(r) == multiset(xs)
    ensures |r| == |xs|
  {
    if xs == [] then []
    else
      assert xs == [xs[0]] + xs[1..];
      Insert(xs[0], SortBy(xs[1..], key), key)
  }

  /** Each element of `s` once, in some order. */
  ghost function Listing<K(!new)>(s: set<K>): (r: seq<K>)
    ensures |r| == |s|
    ensures forall k :: multiset(r)[k] == if k in s then 1 else 0
  {
    if s == {} then []
    else
      var k :| k in s;
      var rest := Listing(s - {k});
      [k] + rest
  }
}
