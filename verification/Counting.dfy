/** Grouping a list by a key, as the components do with a plain object used
    as a dictionary: how often each key occurs, where it first occurs, and
    the distinct keys in the order they were first inserted. */
module Counting {

  /** Number of elements of `xs` whose key is `k`. */
  ghost function Occurrences<T, K>(xs: seq<T>, key: T -> K, k: K): (n: nat)
    ensures n <= |xs|
    ensures n == 0 <==> forall j :: 0 <= j < |xs| ==> key(xs[j]) != k
  {
    if xs == [] then 0
    else
      var init := xs[..|xs| - 1];
      assert forall j :: 0 <= j < |init| ==> init[j] == xs[j];
      Occurrences(init, key, k) + (if key(xs[|xs| - 1]) == k then 1 else 0)
  }

  /** `xs.findIndex(x => key(x) === k)`: the first position with key `k`, or -1. */
  ghost function IndexOfKey<T, K>(xs: seq<T>, key: T -> K, k: K): (i: int)
    ensures -1 <= i < |xs|
    ensures 0 <= i ==> key(xs[i]) == k && forall j :: 0 <= j < i ==> key(xs[j]) != k
    ensures i == -1 ==> forall j :: 0 <= j < |xs| ==> key(xs[j]) != k
  {
    if xs == [] then -1
    else
      var init := xs[..|xs| - 1];
      assert forall j :: 0 <= j < |init| ==> init[j] == xs[j];
      var i := IndexOfKey(init, key, k);
      if 0 <= i then i
      else if key(xs[|xs| - 1]) == k then |xs| - 1
      else -1
  }

  /** The distinct keys of `xs` in the order a dictionary first receives them. */
  ghost function FirstKeys<T, K>(xs: seq<T>, key: T -> K): (ks: seq<K>)
    ensures forall k :: k in ks ==> 0 <= IndexOfKey(xs, key, k)
  {
    if xs == [] then []
    else
      var init := xs[..|xs| - 1];
      assert forall j :: 0 <= j < |init| ==> init[j] == xs[j];
      var ks := FirstKeys(init, key);
      var last := key(xs[|xs| - 1]);
      if last in ks then ks else ks + [last]
  }

  /** Every key that occurs in `xs` is among `FirstKeys`. */
  lemma {:induction false} FirstKeysComplete<T, K>(xs: seq<T>, key: T -> K)
    ensures forall j :: 0 <= j < |xs| ==> key(xs[j]) in FirstKeys(xs, key)
  {
    if xs != [] {
      var init := xs[..|xs| - 1];
      FirstKeysComplete(init, key);
      assert forall j :: 0 <= j < |init| ==> init[j] == xs[j];
    }
  }

  /** `FirstKeys` lists the keys in the order of their first occurrence. */
  lemma {:induction false} FirstKeysOrdered<T, K>(xs: seq<T>, key: T -> K)
    ensures forall a, b :: 0 <= a < b < |FirstKeys(xs, key)| ==>
              IndexOfKey(xs, key, FirstKeys(xs, key)[a]) < IndexOfKey(xs, key, FirstKeys(xs, key)[b])
  {
    if xs != [] {
      var init := xs[..|xs| - 1];
      assert forall j :: 0 <= j < |init| ==> init[j] == xs[j];
      FirstKeysOrdered(init, key);
      var ks := FirstKeys(init, key);
      forall k | k in ks ensures IndexOfKey(xs, key, k) == IndexOfKey(init, key, k) {
      }
      var last := key(xs[|xs| - 1]);
      if last !in ks {
        FirstKeysComplete(init, key);
        assert IndexOfKey(xs, key, last) == |xs| - 1;
        var ks' := ks + [last];
        assert FirstKeys(xs, key) == ks';
        forall a, b | 0 <= a < b < |ks'| ensures IndexOfKey(xs, key, ks'[a]) < IndexOfKey(xs, key, ks'[b]) {
          assert ks'[a] == ks[a] && ks[a] in ks;
          if b < |ks| {
            assert ks'[b] == ks[b] && ks[b] in ks;
          }
        }
      } else {
        assert FirstKeys(xs, key) == ks;
        forall a, b | 0 <= a < b < |ks| ensures IndexOfKey(xs, key, ks[a]) < IndexOfKey(xs, key, ks[b]) {
          assert ks[a] in ks && ks[b] in ks;
        }
      }
    }
  }

  /** The keys `FirstKeys` lists are pairwise distinct. */
  lemma FirstKeysDistinct<T, K>(xs: seq<T>, key: T -> K)
    ensures forall a, b :: 0 <= a < b < |FirstKeys(xs, key)| ==> FirstKeys(xs, key)[a] != FirstKeys(xs, key)[b]
  {
    FirstKeysOrdered(xs, key);
  }

  /** Sum of the occurrence counts of the keys `ks`. */
  ghost function SumCounts<T, K>(xs: seq<T>, key: T -> K, ks: seq<K>): nat
  {
    if ks == [] then 0
    else SumCounts(xs, key, ks[..|ks| - 1]) + Occurrences(xs, key, ks[|ks| - 1])
  }

  /** Appending one element adds one to the sum exactly when its key is among distinct `ks`. */
  lemma {:induction false} SumCountsAppend<T, K>(xs: seq<T>, x: T, key: T -> K, ks: seq<K>)
    requires forall a, b :: 0 <= a < b < |ks| ==> ks[a] != ks[b]
    ensures SumCounts(xs + [x], key, ks) == SumCounts(xs, key, ks) + (if key(x) in ks then 1 else 0)
  {
    if ks != [] {
      var init := ks[..|ks| - 1];
      SumCountsAppend(xs, x, key, init);
      assert (xs + [x])[..|xs|] == xs;
      assert ks == init + [ks[|ks| - 1]];
    }
  }

  /** Every element is counted under exactly one of the distinct keys. */
  lemma {:induction false} CountsSumToLength<T, K>(xs: seq<T>, key: T -> K)
    ensures SumCounts(xs, key, FirstKeys(xs, key)) == |xs|
  {
    if xs != [] {
      var init := xs[..|xs| - 1];
      var x := xs[|xs| - 1];
      assert xs == init + [x];
      assert forall j :: 0 <= j < |init| ==> init[j] == xs[j];
      CountsSumToLength(init, key);
      var ks := FirstKeys(init, key);
      FirstKeysDistinct(init, key);
      SumCountsAppend(init, x, key, ks);
      if key(x) !in ks {
        FirstKeysComplete(init, key);
        var ks' := ks + [key(x)];
        assert ks'[..|ks|] == ks;
        assert Occurrences(init, key, key(x)) == 0;
      }
    }
  }
}
