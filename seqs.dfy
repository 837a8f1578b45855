/** The Array.prototype methods the store is written with: filter, findIndex
    and find, as functions on sequences, and their properties. */
module Seqs {

  /** A value or JavaScript's `undefined`. */
  datatype Option<T> = None | Some(value: T)

  /** Array.prototype.filter: the elements of s that satisfy keep, in order. */
  function Filter<T>(s: seq<T>, keep: T -> bool): (r: seq<T>)
    ensures |r| <= |s|
    ensures forall i :: 0 <= i < |r| ==> r[i] in s && keep(r[i])
    ensures forall i :: 0 <= i < |s| && keep(s[i]) ==> s[i] in r
  {
    if s == [] then []
    else (if keep(s[0]) then [s[0]] else []) + Filter(s[1..], keep)
  }

  /** Filtering distributes over concatenation: the kept elements stay in
      their original relative order. */
  lemma {:induction false} FilterAppend<T>(a: seq<T>, b: seq<T>, keep: T -> bool)
    ensures Filter(a + b, keep) == Filter(a, keep) + Filter(b, keep)
  {
    if a == [] {
      assert a + b == b;
    } else {
      assert (a + b)[1..] == a[1..] + b;
      FilterAppend(a[1..], b, keep);
    }
  }

  /** Filtering keeps everything exactly when every element satisfies keep. */
  lemma {:induction false} FilterKeepsAll<T>(s: seq<T>, keep: T -> bool)
    ensures Filter(s, keep) == s <==> forall i :: 0 <= i < |s| ==> keep(s[i])
    ensures |Filter(s, keep)| == |s| <==> forall i :: 0 <= i < |s| ==> keep(s[i])
  {
    if s != [] {
      FilterKeepsAll(s[1..], keep);
      if !keep(s[0]) {
        assert |Filter(s, keep)| < |s|;
      }
    }
  }

  /** The first element kept is the first element of s that satisfies keep:
      every element before it was dropped. */
  lemma {:induction false} FilterFirst<T>(s: seq<T>, keep: T -> bool)
    ensures Filter(s, keep) != [] ==>
      exists k :: 0 <= k < |s| && Filter(s, keep)[0] == s[k] && keep(s[k]) &&
        forall j :: 0 <= j < k ==> !keep(s[j])
  {
    if s != [] && !keep(s[0]) && Filter(s, keep) != [] {
      FilterFirst(s[1..], keep);
      var k :| 0 <= k < |s[1..]| && Filter(s[1..], keep)[0] == s[1..][k] && keep(s[1..][k]) &&
        forall j :: 0 <= j < k ==> !keep(s[1..][j]);
      assert Filter(s, keep)[0] == s[k + 1];
      forall j | 0 <= j < k + 1 ensures !keep(s[j]) {
        if j > 0 {
          assert s[j] == s[1..][j - 1];
        }
      }
    }
  }

  /** No two elements of s share a key. */
  predicate DistinctKeys<T, K(==)>(s: seq<T>, key: T -> K) {
    forall i, j :: 0 <= i < j < |s| ==> key(s[i]) != key(s[j])
  }

  /** Filtering never introduces two elements with the same key. */
  lemma {:induction false} FilterDistinctKeys<T, K>(s: seq<T>, keep: T -> bool, key: T -> K)
    ensures DistinctKeys(s, key) ==> DistinctKeys(Filter(s, keep), key)
  {
    if s != [] && DistinctKeys(s, key) {
      var rest := Filter(s[1..], keep);
      FilterDistinctKeys(s[1..], keep, key);
      if keep(s[0]) {
        forall j | 0 <= j < |rest| ensures key(s[0]) != key(rest[j]) {
          assert rest[j] in s[1..];
        }
        assert Filter(s, keep) == [s[0]] + rest;
      }
    }
  }

  /** Removing the elements whose key is k from a sequence with distinct keys
      that holds such an element shortens it by exactly one. */
  lemma {:induction false} FilterRemovesOne<T, K>(s: seq<T>, key: T -> K, k: K, keep: T -> bool)
    requires DistinctKeys(s, key)
    requires exists x :: x in s && key(x) == k
    requires forall x :: keep(x) <==> key(x) != k
    ensures |Filter(s, keep)| == |s| - 1
  {
    if key(s[0]) == k {
      forall j | 0 <= j < |s[1..]| ensures keep(s[1..][j]) {
        assert key(s[0]) != key(s[j + 1]);
      }
      FilterKeepsAll(s[1..], keep);
    } else {
      var x :| x in s && key(x) == k;
      assert x in s[1..];
      assert DistinctKeys(s[1..], key);
      FilterRemovesOne(s[1..], key, k, keep);
    }
  }

  /** Array.prototype.findIndex: the first index whose element satisfies p, or -1. */
  function FindIndex<T>(s: seq<T>, p: T -> bool): (i: int)
    ensures -1 <= i < |s|
    ensures 0 <= i ==> p(s[i]) && forall j :: 0 <= j < i ==> !p(s[j])
    ensures i == -1 <==> forall j :: 0 <= j < |s| ==> !p(s[j])
  {
    if s == [] then -1
    else if p(s[0]) then 0
    else
      var k := FindIndex(s[1..], p);
      if k == -1 then -1 else k + 1
  }

  /** Array.prototype.find: the first element satisfying p, or undefined. */
  function Find<T>(s: seq<T>, p: T -> bool): (r: Option<T>)
    ensures r.Some? <==> exists i :: 0 <= i < |s| && p(s[i])
    ensures r.Some? ==> r.value in s && p(r.value)
    ensures r.Some? ==> exists k :: 0 <= k < |s| && r.value == s[k] && p(s[k]) && forall j :: 0 <= j < k ==> !p(s[j])
  {
    var i := FindIndex(s, p);
    if i == -1 then None else Some(s[i])
  }
}
