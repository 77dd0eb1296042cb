/** Order-preserving list operations: the subsequence relation and the two
    `filter` shapes the components use to drop items from a list. */
module Seqs {

  /** `xs` is obtained from `ys` by deleting elements, keeping the order of the rest. */
  ghost predicate SubseqOf<T>(xs: seq<T>, ys: seq<T>)
    decreases |ys|
  {
    if xs == [] then true
    else if ys == [] then false
    else (xs[0] == ys[0] && SubseqOf(xs[1..], ys[1..])) || SubseqOf(xs, ys[1..])
  }

  /** Everything in a subsequence comes from the larger list. */
  lemma {:induction false} SubseqMembers<T>(xs: seq<T>, ys: seq<T>)
    requires SubseqOf(xs, ys)
    ensures forall x :: x in xs ==> x in ys
    decreases |ys|
  {
    if xs != [] {
      if xs[0] == ys[0] && SubseqOf(xs[1..], ys[1..]) {
        SubseqMembers(xs[1..], ys[1..]);
        assert xs == [xs[0]] + xs[1..];
      } else {
        SubseqMembers(xs, ys[1..]);
      }
      assert ys == [ys[0]] + ys[1..];
    }
  }

  /** Deleting from a list that was itself obtained by deleting is still deleting. */
  lemma {:induction false} SubseqTrans<T>(xs: seq<T>, ys: seq<T>, zs: seq<T>)
    requires SubseqOf(xs, ys) && SubseqOf(ys, zs)
    ensures SubseqOf(xs, zs)
    decreases |zs|
  {
    if xs != [] {
      if SubseqOf(ys, zs[1..]) {
        SubseqTrans(xs, ys, zs[1..]);
      } else if xs[0] == ys[0] && SubseqOf(xs[1..], ys[1..]) {
        SubseqTrans(xs[1..], ys[1..], zs[1..]);
      } else {
        SubseqTrans(xs, ys[1..], zs[1..]);
      }
    }
  }

  /** `xs.filter(y => y !== x)`: every occurrence of `x` goes, the rest stay in order. */
  function RemoveAll<T(==)>(xs: seq<T>, x: T): (r: seq<T>)
    ensures forall y :: y in r ==> y in xs && y != x
    ensures forall y :: y in xs && y != x ==> y in r
    ensures x !in r
    ensures SubseqOf(r, xs)
    ensures x !in xs ==> r == xs
    ensures x in xs ==> |r| < |xs|
  {
    if xs == [] then []
    else if xs[0] == x then RemoveAll(xs[1..], x)
    else [xs[0]] + RemoveAll(xs[1..], x)
  }

  /** Removal drops every copy of `x` and keeps every other element as many times as it occurs. */
  lemma {:induction false} RemoveAllMultiset<T>(xs: seq<T>, x: T)
    ensures multiset(RemoveAll(xs, x)) == multiset(xs)[x := 0]
  {
    if xs != [] {
      assert xs == [xs[0]] + xs[1..];
      RemoveAllMultiset(xs[1..], x);
    }
  }

  /** Appending an absent element and then removing it gives the list back. */
  lemma {:induction false} RemoveAppended<T>(xs: seq<T>, x: T)
    requires x !in xs
    ensures RemoveAll(xs + [x], x) == xs
  {
    if xs == [] {
      assert [x][1..] == [];
    } else {
      assert (xs + [x])[1..] == xs[1..] + [x];
      RemoveAppended(xs[1..], x);
    }
  }

  /** Removal distributes over concatenation. */
  lemma {:induction false} RemoveAllConcat<T>(a: seq<T>, b: seq<T>, x: T)
    ensures RemoveAll(a + b, x) == RemoveAll(a, x) + RemoveAll(b, x)
  {
    if a == [] {
      assert a + b == b;
    } else {
      assert (a + b)[0] == a[0] && (a + b)[1..] == a[1..] + b;
      RemoveAllConcat(a[1..], b, x);
      if a[0] != x {
        assert [a[0]] + (RemoveAll(a[1..], x) + RemoveAll(b, x)) ==
               ([a[0]] + RemoveAll(a[1..], x)) + RemoveAll(b, x);
      }
    }
  }

  /** Removing an element that occurs once, at `k`, cuts position `k` out. */
  lemma RemoveOnce<T>(xs: seq<T>, x: T, k: nat)
    requires k < |xs| && xs[k] == x
    requires forall j :: 0 <= j < |xs| && j != k ==> xs[j] != x
    ensures RemoveAll(xs, x) == xs[..k] + xs[k + 1..]
  {
    var before, after := xs[..k], xs[k + 1..];
    assert xs == before + [x] + after;
    assert x !in before && x !in after;
    RemoveAllConcat(before + [x], after, x);
    RemoveAllConcat(before, [x], x);
    assert RemoveAll([x], x) == [] by {
      assert [x][1..] == [];
    }
  }

  /** `xs.filter(y => !ys.includes(y))`: the elements of `xs` not in `ys`, in order. */
  function Without<T(==)>(xs: seq<T>, ys: seq<T>): (r: seq<T>)
    ensures forall y :: y in r ==> y in xs && y !in ys
    ensures forall y :: y in xs && y !in ys ==> y in r
    ensures SubseqOf(r, xs)
    ensures ys == [] ==> r == xs
  {
    if xs == [] then []
    else if xs[0] in ys then Without(xs[1..], ys)
    else [xs[0]] + Without(xs[1..], ys)
  }

  /** Every element outside `ys` is kept as many times as it occurs; every element of `ys` is gone. */
  lemma {:induction false} WithoutMultiset<T(!new)>(xs: seq<T>, ys: seq<T>)
    ensures forall y :: multiset(Without(xs, ys))[y] == if y in ys then 0 else multiset(xs)[y]
  {
    if xs != [] {
      assert xs == [xs[0]] + xs[1..];
      WithoutMultiset(xs[1..], ys);
    }
  }
}
