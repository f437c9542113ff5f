/**
 * Keep-first de-duplication, as pandas `drop_duplicates(keep='first')`,
 * `Series.unique()` and `dict.fromkeys` do it: an element is kept exactly when
 * no earlier element has the same key.
 */
module Dedup {

  function Id<T>(x: T): T { x }

  /** The key of every element, in order. */
  function Keys<T, K>(xs: seq<T>, key: T -> K): (ks: seq<K>)
    ensures |ks| == |xs|
    ensures forall i :: 0 <= i < |xs| ==> ks[i] == key(xs[i])
  {
    if xs == [] then [] else Keys(xs[..|xs| - 1], key) + [key(xs[|xs| - 1])]
  }

  /** Element `i` repeats the key of an earlier element (pandas `duplicated(keep='first')`). */
  predicate Duplicated<T, K(==)>(xs: seq<T>, key: T -> K, i: int)
    requires 0 <= i < |xs|
  {
    key(xs[i]) in Keys(xs[..i], key)
  }

  /** The elements that are not duplicates of an earlier one, in their original order. */
  function KeepFirstBy<T, K(==)>(xs: seq<T>, key: T -> K): seq<T>
  {
    if xs == [] then []
    else
      var n := |xs| - 1;
      KeepFirstBy(xs[..n], key) + (if Duplicated(xs, key, n) then [] else [xs[n]])
  }

  /** How many elements repeat an earlier key. */
  function DuplicateCount<T, K(==)>(xs: seq<T>, key: T -> K): nat
  {
    if xs == [] then 0
    else
      var n := |xs| - 1;
      DuplicateCount(xs[..n], key) + (if Duplicated(xs, key, n) then 1 else 0)
  }

  /** Distinct values in first-occurrence order (`Series.unique()`, `dict.fromkeys`). */
  function Unique<T(==)>(xs: seq<T>): seq<T>
  {
    KeepFirstBy(xs, Id)
  }

  predicate DistinctKeys<T, K(==)>(xs: seq<T>, key: T -> K) {
    forall i, j :: 0 <= i < j < |xs| ==> key(xs[i]) != key(xs[j])
  }

  predicate Distinct<T(==)>(xs: seq<T>) {
    forall i, j :: 0 <= i < j < |xs| ==> xs[i] != xs[j]
  }

  lemma {:induction false} KeysPrefix<T, K>(xs: seq<T>, key: T -> K, n: nat)
    requires n <= |xs|
    ensures Keys(xs[..n], key) == Keys(xs, key)[..n]
  {
  }

  lemma {:induction false} KeysId<T>(xs: seq<T>)
    ensures Keys(xs, Id) == xs
  {
  }

  /** Keeping the first element of each key loses no key and adds none. */
  lemma {:induction false} KeepFirstByKeys<T, K>(xs: seq<T>, key: T -> K)
    ensures forall k :: k in Keys(KeepFirstBy(xs, key), key) <==> k in Keys(xs, key)
  {
    if xs != [] {
      var n := |xs| - 1;
      KeepFirstByKeys(xs[..n], key);
      assert xs[..n + 1] == xs;
      assert Keys(xs, key) == Keys(xs[..n], key) + [key(xs[n])];
      var r := KeepFirstBy(xs[..n], key);
      if !Duplicated(xs, key, n) {
        assert Keys(r + [xs[n]], key) == Keys(r, key) + [key(xs[n])];
      }
    }
  }

  lemma {:induction false} KeptKeyIn<T, K>(xs: seq<T>, key: T -> K, k: K)
    requires k in Keys(KeepFirstBy(xs, key), key)
    ensures k in Keys(xs, key)
  {
    KeepFirstByKeys(xs, key);
  }

  /** No two kept elements share a key. */
  lemma {:induction false} KeepFirstByDistinct<T, K>(xs: seq<T>, key: T -> K)
    ensures DistinctKeys(KeepFirstBy(xs, key), key)
  {
    if xs != [] {
      var n := |xs| - 1;
      KeepFirstByDistinct(xs[..n], key);
      KeepFirstByKeys(xs[..n], key);
      var r := KeepFirstBy(xs[..n], key);
      if !Duplicated(xs, key, n) {
        forall i | 0 <= i < |r| ensures key(r[i]) != key(xs[n]) {
          assert key(r[i]) == Keys(r, key)[i];
          var k := key(r[i]);
          assert k in Keys(r, key);
          KeptKeyIn(xs[..n], key, k);
          assert key(xs[n]) !in Keys(xs[..n], key);
        }
        assert KeepFirstBy(xs, key) == r + [xs[n]];
      }
    }
  }

  /** Every element is either kept or counted as a duplicate. */
  lemma {:induction false} KeepFirstByCount<T, K>(xs: seq<T>, key: T -> K)
    ensures |KeepFirstBy(xs, key)| + DuplicateCount(xs, key) == |xs|
  {
    if xs != [] {
      KeepFirstByCount(xs[..|xs| - 1], key);
    }
  }

  /** Elements with pairwise distinct keys are all kept. */
  lemma {:induction false} KeepFirstByNoDuplicates<T, K>(xs: seq<T>, key: T -> K)
    requires DistinctKeys(xs, key)
    ensures KeepFirstBy(xs, key) == xs && DuplicateCount(xs, key) == 0
  {
    if xs != [] {
      var n := |xs| - 1;
      KeepFirstByNoDuplicates(xs[..n], key);
      assert !Duplicated(xs, key, n) by {
        var ks := Keys(xs[..n], key);
        assert forall i :: 0 <= i < n ==> ks[i] == key(xs[i]) != key(xs[n]);
      }
      assert xs[..n] + [xs[n]] == xs;
    }
  }

  /** `unique()` keeps exactly the values present, each once. */
  lemma {:induction false} UniqueSpec<T>(xs: seq<T>)
    ensures forall x :: x in Unique(xs) <==> x in xs
    ensures Distinct(Unique(xs))
  {
    KeepFirstByKeys(xs, Id);
    KeepFirstByDistinct(xs, Id);
    KeysId(xs);
    KeysId(Unique(xs));
  }

  /** One more value: `unique()` lists it last if it is new, and is unchanged otherwise. */
  lemma {:induction false} UniqueSnoc<T>(xs: seq<T>, x: T)
    ensures Unique(xs + [x]) == if x in xs then Unique(xs) else Unique(xs) + [x]
  {
    var ys := xs + [x];
    assert ys[..|xs|] == xs;
    KeysId(xs);
  }

  /** Distinct input comes out of `unique()` unchanged. */
  lemma {:induction false} UniqueOfDistinct<T>(xs: seq<T>)
    requires Distinct(xs)
    ensures Unique(xs) == xs
  {
    KeepFirstByNoDuplicates(xs, Id);
  }

  /** Nothing dropped means nothing changed. */
  lemma {:induction false} KeepFirstByFull<T, K>(xs: seq<T>, key: T -> K)
    requires |KeepFirstBy(xs, key)| == |xs|
    ensures KeepFirstBy(xs, key) == xs
  {
    if xs != [] {
      var n := |xs| - 1;
      KeepFirstByCount(xs[..n], key);
      KeepFirstByFull(xs[..n], key);
      assert xs[..n] + [xs[n]] == xs;
    }
  }

  /** A rearrangement of a list without repeats has no repeats and the same elements. */
  lemma {:induction false} DistinctPermutation<T>(a: seq<T>, b: seq<T>)
    requires Distinct(a) && multiset(a) == multiset(b)
    ensures Distinct(b) && forall x :: x in a <==> x in b
  {
    forall x ensures x in a <==> x in b {
      assert x in a <==> x in multiset(a);
      assert x in b <==> x in multiset(b);
    }
    DistinctCounts(a);
    forall i, j | 0 <= i < j < |b| ensures b[i] != b[j] {
      if b[i] == b[j] {
        TwiceCounted(b, i, j);
        assert false;
      }
    }
  }

  /** In a list without repeats every element occurs once. */
  lemma {:induction false} DistinctCounts<T>(a: seq<T>)
    requires Distinct(a)
    ensures forall x :: multiset(a)[x] <= 1
  {
    if a != [] {
      var n := |a| - 1;
      DistinctCounts(a[..n]);
      assert a == a[..n] + [a[n]];
      assert a[n] !in a[..n];
      assert multiset(a) == multiset(a[..n]) + multiset{a[n]};
    }
  }

  lemma {:induction false} TwiceCounted<T>(b: seq<T>, i: nat, j: nat)
    requires i < j < |b| && b[i] == b[j]
    ensures multiset(b)[b[i]] >= 2
  {
    var x := b[i];
    assert b == b[..i] + [x] + b[i + 1..j] + [x] + b[j + 1..];
    assert multiset(b) == multiset(b[..i]) + multiset{x} + multiset(b[i + 1..j]) + multiset{x} + multiset(b[j + 1..]);
  }

  lemma {:induction false} DistinctSlice<T>(xs: seq<T>, i: nat, j: nat)
    requires Distinct(xs) && i <= j <= |xs|
    ensures Distinct(xs[i..j]) && forall k :: i <= k < j ==> xs[k] !in xs[..i]
  {
    forall k | i <= k < j ensures xs[k] !in xs[..i] {
      assert forall m :: 0 <= m < i ==> xs[..i][m] != xs[k];
    }
  }

  /** The elements satisfying `p`, in order (a list comprehension with an `if`). */
  function Filter<T(!new)>(xs: seq<T>, p: T -> bool): (r: seq<T>)
    ensures |r| <= |xs|
    ensures forall x :: x in r <==> x in xs && p(x)
  {
    if xs == [] then [] else Filter(xs[..|xs| - 1], p) + (if p(xs[|xs| - 1]) then [xs[|xs| - 1]] else [])
  }

  /** The first `n` elements, or all of them when there are fewer (`xs[:n]`). */
  function Take<T>(xs: seq<T>, n: nat): (r: seq<T>)
    ensures |r| <= n && |r| <= |xs| && r == xs[..|r|]
    ensures |xs| >= n ==> |r| == n
    ensures |xs| < n ==> r == xs
  {
    if |xs| <= n then xs else xs[..n]
  }

  /**
   * Concatenation regroups; stated out of line because an append loop's step
   * is far cheaper to check through this lemma than inline.
   */
  lemma {:induction false} AppendAssoc<T>(a: seq<T>, b: seq<T>, c: seq<T>)
    ensures a + b + c == a + (b + c)
  {
  }

  /** One more element of a prefix; out of line for the same reason. */
  lemma {:induction false} PrefixStep<T>(xs: seq<T>, i: nat)
    requires i < |xs|
    ensures xs[..i + 1] == xs[..i] + [xs[i]]
  {
  }
}
