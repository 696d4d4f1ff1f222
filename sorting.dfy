/**
 * Descending sort by a numeric key, as `sort_values(ascending=False)` and
 * `value_counts()` order their rows. Equal keys keep their original order.
 */
module Sorting {

  predicate NonIncreasing<T>(s: seq<T>, key: T -> real)
  {
    forall i, j :: 0 <= i < j < |s| ==> key(s[i]) >= key(s[j])
  }

  /** Sum of the keys of `s`. */
  function KeySum<T>(s: seq<T>, key: T -> real): real
  {
    if s == [] then 0.0 else key(s[0]) + KeySum(s[1..], key)
  }

  /** Puts `x` in front of the first element whose key is not larger. */
  function Insert<T>(x: T, s: seq<T>, key: T -> real): (r: seq<T>)
    requires NonIncreasing(s, key)
    ensures NonIncreasing(r, key)
    ensures multiset(r) == multiset(s) + multiset{x}
    ensures |r| == |s| + 1
    ensures key(r[0]) == key(x) || (s != [] && r[0] == s[0])
    ensures KeySum(r, key) == key(x) + KeySum(s, key)
  {
    if s == [] || key(x) >= key(s[0]) then [x] + s
    else
      var rest := Insert(x, s[1..], key);
      assert s == [s[0]] + s[1..];
      [s[0]] + rest
  }

  /** The elements of `s` in non-increasing key order. */
  function SortDesc<T>(s: seq<T>, key: T -> real): (r: seq<T>)
    ensures NonIncreasing(r, key)
    ensures multiset(r) == multiset(s)
    ensures |r| == |s|
  {
    if s == [] then []
    else
      assert s == [s[0]] + s[1..];
      Insert(s[0], SortDesc(s[1..], key), key)
  }

  /** Sorting does not change the sum of the keys. */
  lemma {:induction false} SortDescKeySum<T>(s: seq<T>, key: T -> real)
    ensures KeySum(SortDesc(s, key), key) == KeySum(s, key)
  {
    if s != [] {
      SortDescKeySum(s[1..], key);
    }
  }

  /** The first element of a sorted sequence has the largest key of all of `s`. */
  lemma SortDescFirstIsMax<T>(s: seq<T>, key: T -> real, x: T)
    requires x in s
    ensures SortDesc(s, key) != []
    ensures key(SortDesc(s, key)[0]) >= key(x)
  {
    var r := SortDesc(s, key);
    assert x in multiset(s);
    assert x in r;
    var k :| 0 <= k < |r| && r[k] == x;
  }

  /** The first `n` elements, or all of them when there are fewer. */
  function Take<T>(s: seq<T>, n: nat): (r: seq<T>)
    ensures |r| == if |s| < n then |s| else n
    ensures r == s[..|r|]
  {
    if |s| < n then s else s[..n]
  }

  /** In a non-increasing sequence, a kept element's key is no smaller than the key of any later element. */
  lemma TakeKeepsLargest<T>(s: seq<T>, key: T -> real, n: nat, k: nat, l: nat)
    requires NonIncreasing(s, key)
    requires k < |Take(s, n)| && k < l < |s|
    ensures Take(s, n)[k] == s[k] && key(s[k]) >= key(s[l])
  {
  }
}
