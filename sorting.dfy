/**
 * Stable sorting by a key. `Sort` is the reference definition (insertion
 * sort: each element goes after every element whose key it is not strictly
 * less than), and `SortInPlace` is the in-place array algorithm proved to
 * compute it. `less` is the strict order on keys that the comparator encodes.
 */
module Sorting {

  /** `less` never holds both ways (so in particular never of equal keys). */
  ghost predicate Asymmetric<K(!new)>(less: (K, K) -> bool)
  {
    forall a, b :: less(a, b) ==> !less(b, a)
  }

  /** Inserts `x` into `s` after the last element whose key is not strictly above `x`'s. */
  function Insert<T, K>(s: seq<T>, x: T, key: T -> K, less: (K, K) -> bool): seq<T>
  {
    if |s| == 0 then [x]
    else if less(key(x), key(s[|s| - 1])) then Insert(s[..|s| - 1], x, key, less) + [s[|s| - 1]]
    else s + [x]
  }

  function Sort<T, K>(xs: seq<T>, key: T -> K, less: (K, K) -> bool): seq<T>
  {
    if |xs| == 0 then []
    else Insert(Sort(xs[..|xs| - 1], key, less), xs[|xs| - 1], key, less)
  }

  /** No element's key is strictly less than its predecessor's. */
  ghost predicate Ordered<T, K>(s: seq<T>, key: T -> K, less: (K, K) -> bool)
  {
    forall i :: 0 < i < |s| ==> !less(key(s[i]), key(s[i - 1]))
  }

  /** The elements of `s` whose key is `k`, in their order in `s`. */
  function WithKey<T, K(==)>(s: seq<T>, key: T -> K, k: K): seq<T>
  {
    if |s| == 0 then []
    else WithKey(s[..|s| - 1], key, k) + (if key(s[|s| - 1]) == k then [s[|s| - 1]] else [])
  }

  lemma {:induction false} InsertPermutation<T, K>(s: seq<T>, x: T, key: T -> K, less: (K, K) -> bool)
    ensures multiset(Insert(s, x, key, less)) == multiset(s) + multiset{x}
  {
    if |s| > 0 && less(key(x), key(s[|s| - 1])) {
      InsertPermutation(s[..|s| - 1], x, key, less);
      assert s == s[..|s| - 1] + [s[|s| - 1]];
    }
  }

  lemma {:induction false} SortPermutation<T, K>(xs: seq<T>, key: T -> K, less: (K, K) -> bool)
    ensures multiset(Sort(xs, key, less)) == multiset(xs)
    ensures |Sort(xs, key, less)| == |xs|
  {
    if |xs| > 0 {
      var init := xs[..|xs| - 1];
      SortPermutation(init, key, less);
      InsertPermutation(Sort(init, key, less), xs[|xs| - 1], key, less);
      assert xs == init + [xs[|xs| - 1]];
    }
  }

  lemma {:induction false} InsertOrdered<T, K(!new)>(s: seq<T>, x: T, key: T -> K, less: (K, K) -> bool)
    requires Asymmetric(less)
    requires Ordered(s, key, less)
    ensures Ordered(Insert(s, x, key, less), key, less)
  {
    if |s| > 0 && less(key(x), key(s[|s| - 1])) {
      var init := s[..|s| - 1];
      InsertOrdered(init, x, key, less);
      var r := Insert(init, x, key, less);
      InsertPermutation(init, x, key, less);
      assert |r| == |init| + 1 by {
        assert |multiset(r)| == |multiset(init)| + 1;
      }
      // The element just before s's last one is either x or init's last element.
      if |init| > 0 && less(key(x), key(init[|init| - 1])) {
        assert r[|r| - 1] == init[|init| - 1];
      } else {
        assert r[|r| - 1] == x;
      }
    }
  }

  lemma {:induction false} SortOrdered<T, K(!new)>(xs: seq<T>, key: T -> K, less: (K, K) -> bool)
    requires Asymmetric(less)
    ensures Ordered(Sort(xs, key, less), key, less)
  {
    if |xs| > 0 {
      SortOrdered(xs[..|xs| - 1], key, less);
      InsertOrdered(Sort(xs[..|xs| - 1], key, less), xs[|xs| - 1], key, less);
    }
  }

  lemma {:induction false} WithKeyAppend<T, K>(s: seq<T>, y: T, key: T -> K, k: K)
    ensures WithKey(s + [y], key, k) == WithKey(s, key, k) + (if key(y) == k then [y] else [])
  {
    assert (s + [y])[..|s|] == s;
  }

  lemma {:induction false} InsertWithKey<T, K(!new)>(s: seq<T>, x: T, key: T -> K, less: (K, K) -> bool, k: K)
    requires Asymmetric(less)
    ensures WithKey(Insert(s, x, key, less), key, k) == WithKey(s, key, k) + (if key(x) == k then [x] else [])
  {
    if |s| == 0 {
      WithKeyAppend([], x, key, k);
    } else if less(key(x), key(s[|s| - 1])) {
      var init, y := s[..|s| - 1], s[|s| - 1];
      InsertWithKey(init, x, key, less, k);
      WithKeyAppend(Insert(init, x, key, less), y, key, k);
      // x and y cannot both have key k: that would make less(k, k) hold.
      assert !(key(x) == k && key(y) == k);
    } else {
      WithKeyAppend(s, x, key, k);
    }
  }

  lemma {:induction false} SortStable<T, K(!new)>(xs: seq<T>, key: T -> K, less: (K, K) -> bool, k: K)
    requires Asymmetric(less)
    ensures WithKey(Sort(xs, key, less), key, k) == WithKey(xs, key, k)
  {
    if |xs| > 0 {
      SortStable(xs[..|xs| - 1], key, less, k);
      InsertWithKey(Sort(xs[..|xs| - 1], key, less), xs[|xs| - 1], key, less, k);
    }
  }

  lemma {:induction false} SortOfOrdered<T, K>(s: seq<T>, key: T -> K, less: (K, K) -> bool)
    requires Ordered(s, key, less)
    ensures Sort(s, key, less) == s
  {
    if |s| > 0 {
      var init := s[..|s| - 1];
      assert Ordered(init, key, less);
      SortOfOrdered(init, key, less);
      if |init| > 0 {
        assert !less(key(s[|s| - 1]), key(init[|init| - 1]));
      }
      assert s == init + [s[|s| - 1]];
    }
  }

  lemma SortIdempotent<T, K(!new)>(xs: seq<T>, key: T -> K, less: (K, K) -> bool)
    requires Asymmetric(less)
    ensures Sort(Sort(xs, key, less), key, less) == Sort(xs, key, less)
  {
    SortOrdered(xs, key, less);
    SortOfOrdered(Sort(xs, key, less), key, less);
  }

  ghost predicate Transitive<K(!new)>(less: (K, K) -> bool)
  {
    forall a, b, c :: less(a, b) && less(b, c) ==> less(a, c)
  }

  /** Any two keys of elements of `s` are equal or ordered one way. */
  ghost predicate TotalOn<T, K>(s: seq<T>, key: T -> K, less: (K, K) -> bool)
  {
    forall x, y :: x in s && y in s ==> key(x) == key(y) || less(key(x), key(y)) || less(key(y), key(x))
  }

  /** In an ordered sequence no later key is below an earlier one. */
  lemma {:induction false} OrderedLeq<T, K(!new)>(s: seq<T>, key: T -> K, less: (K, K) -> bool, i: nat, j: nat)
    requires Transitive(less) && TotalOn(s, key, less)
    requires Ordered(s, key, less)
    requires i <= j < |s|
    ensures key(s[i]) == key(s[j]) || less(key(s[i]), key(s[j]))
    decreases j - i
  {
    if i < j {
      OrderedLeq(s, key, less, i, j - 1);
      assert s[j - 1] in s && s[j] in s;
    }
  }

  lemma {:induction false} WithKeyMembers<T, K>(s: seq<T>, key: T -> K, k: K, x: T)
    requires x in WithKey(s, key, k)
    ensures x in s && key(x) == k
  {
    if |s| > 0 {
      var init := s[..|s| - 1];
      if x in WithKey(init, key, k) {
        WithKeyMembers(init, key, k, x);
        assert x in init;
      }
    }
  }

  lemma TotalOnPermutation<T, K>(s: seq<T>, t: seq<T>, key: T -> K, less: (K, K) -> bool)
    requires TotalOn(s, key, less)
    requires multiset(t) <= multiset(s)
    ensures TotalOn(t, key, less)
  {
    forall x, y | x in t && y in t
      ensures key(x) == key(y) || less(key(x), key(y)) || less(key(y), key(x))
    {
      assert x in multiset(s) && y in multiset(s);
    }
  }

  /** The last element of `t` has no key above the last key of `s`. */
  lemma LastKeyNotBelow<T, K(!new)>(s: seq<T>, t: seq<T>, key: T -> K, less: (K, K) -> bool)
    requires Asymmetric(less) && Transitive(less) && TotalOn(s, key, less)
    requires Ordered(s, key, less)
    requires 0 < |s| && 0 < |t|
    requires forall k :: WithKey(s, key, k) == WithKey(t, key, k)
    ensures !less(key(s[|s| - 1]), key(t[|t| - 1]))
  {
    var tLast := t[|t| - 1];
    var kt := key(tLast);
    assert tLast in WithKey(t, key, kt);
    WithKeyMembers(s, key, kt, tLast);
    var i :| 0 <= i < |s| && s[i] == tLast;
    OrderedLeq(s, key, less, i, |s| - 1);
  }

  /** Ordered sequences with the same elements, ordered alike within each key, end in the same key. */
  lemma SameLastKey<T, K(!new)>(s: seq<T>, t: seq<T>, key: T -> K, less: (K, K) -> bool)
    requires Asymmetric(less) && Transitive(less) && TotalOn(s, key, less)
    requires Ordered(s, key, less) && Ordered(t, key, less)
    requires multiset(s) == multiset(t)
    requires forall k :: WithKey(s, key, k) == WithKey(t, key, k)
    requires 0 < |s| && 0 < |t|
    ensures key(s[|s| - 1]) == key(t[|t| - 1])
  {
    TotalOnPermutation(s, t, key, less);
    LastKeyNotBelow(s, t, key, less);
    LastKeyNotBelow(t, s, key, less);
    assert t[|t| - 1] in multiset(s);
    assert s[|s| - 1] in s;
  }

  /** Sequences agreeing key by key whose last elements share a key end in the same element. */
  lemma SameLast<T, K>(s: seq<T>, t: seq<T>, key: T -> K)
    requires forall k :: WithKey(s, key, k) == WithKey(t, key, k)
    requires 0 < |s| && 0 < |t|
    requires key(s[|s| - 1]) == key(t[|t| - 1])
    ensures s[|s| - 1] == t[|t| - 1]
  {
    var k := key(s[|s| - 1]);
    var w := WithKey(s, key, k);
    assert w == WithKey(s[..|s| - 1], key, k) + [s[|s| - 1]];
    assert WithKey(t, key, k) == WithKey(t[..|t| - 1], key, k) + [t[|t| - 1]];
    assert w[|w| - 1] == s[|s| - 1];
  }

  /** Dropping a common last element keeps what `OrderedUnique` requires. */
  lemma DropLast<T, K>(a: seq<T>, b: seq<T>, x: T, key: T -> K, less: (K, K) -> bool)
    requires TotalOn(a + [x], key, less)
    requires Ordered(a + [x], key, less) && Ordered(b + [x], key, less)
    requires multiset(a + [x]) == multiset(b + [x])
    requires forall k :: WithKey(a + [x], key, k) == WithKey(b + [x], key, k)
    ensures TotalOn(a, key, less)
    ensures Ordered(a, key, less) && Ordered(b, key, less)
    ensures multiset(a) == multiset(b)
    ensures forall k :: WithKey(a, key, k) == WithKey(b, key, k)
  {
    AgreeOnInits(a, b, x, key);
    MultisetCancel(a, b, x);
    TotalOnPermutation(a + [x], a, key, less);
    assert forall i :: 0 <= i < |a| ==> (a + [x])[i] == a[i];
    assert forall i :: 0 <= i < |b| ==> (b + [x])[i] == b[i];
  }

  /** Ordered sequences with the same elements, ordered alike within each key, are equal. */
  lemma {:induction false} OrderedUnique<T, K(!new)>(s: seq<T>, t: seq<T>, key: T -> K, less: (K, K) -> bool)
    requires Asymmetric(less) && Transitive(less) && TotalOn(s, key, less)
    requires Ordered(s, key, less) && Ordered(t, key, less)
    requires multiset(s) == multiset(t)
    requires forall k :: WithKey(s, key, k) == WithKey(t, key, k)
    ensures s == t
    decreases |s|
  {
    assert |s| == |multiset(s)| == |t|;
    if |s| > 0 {
      var sInit, tInit, x := s[..|s| - 1], t[..|t| - 1], s[|s| - 1];
      SameLastKey(s, t, key, less);
      SameLast(s, t, key);
      assert s == sInit + [x] && t == tInit + [x];
      DropLast(sInit, tInit, x, key, less);
      OrderedUnique(sInit, tInit, key, less);
    }
  }

  lemma MultisetCancel<T>(a: seq<T>, b: seq<T>, x: T)
    requires multiset(a + [x]) == multiset(b + [x])
    ensures multiset(a) == multiset(b)
  {
    assert multiset(a + [x]) == multiset(a) + multiset{x};
    assert multiset(b + [x]) == multiset(b) + multiset{x};
    forall y
      ensures multiset(a)[y] == multiset(b)[y]
    {
      assert multiset(a + [x])[y] == multiset(b + [x])[y];
    }
  }

  /** Sequences ending in the same element and agreeing key by key agree key by key without it. */
  lemma AgreeOnInits<T, K>(a: seq<T>, b: seq<T>, x: T, key: T -> K)
    requires forall k :: WithKey(a + [x], key, k) == WithKey(b + [x], key, k)
    ensures forall k :: WithKey(a, key, k) == WithKey(b, key, k)
  {
    forall k
      ensures WithKey(a, key, k) == WithKey(b, key, k)
    {
      WithKeyAppend(a, x, key, k);
      WithKeyAppend(b, x, key, k);
      var wa, wb := WithKey(a, key, k), WithKey(b, key, k);
      var tail := if key(x) == k then [x] else [];
      assert wa + tail == wb + tail;
      assert wa == (wa + tail)[..|wa|] && wb == (wb + tail)[..|wb|];
    }
  }

  /**
   * Any stable sort computes `Sort`: a permutation of `xs` that is ordered and
   * keeps the order of each key's elements is `Sort(xs)`.
   */
  lemma SortUnique<T, K(!new)>(xs: seq<T>, r: seq<T>, key: T -> K, less: (K, K) -> bool)
    requires Asymmetric(less) && Transitive(less) && TotalOn(xs, key, less)
    requires multiset(r) == multiset(xs)
    requires Ordered(r, key, less)
    requires forall k :: WithKey(r, key, k) == WithKey(xs, key, k)
    ensures r == Sort(xs, key, less)
  {
    SortPermutation(xs, key, less);
    SortOrdered(xs, key, less);
    forall k
      ensures WithKey(r, key, k) == WithKey(Sort(xs, key, less), key, k)
    {
      SortStable(xs, key, less, k);
    }
    assert TotalOn(r, key, less) by {
      forall x, y | x in r && y in r
        ensures key(x) == key(y) || less(key(x), key(y)) || less(key(y), key(x))
      {
        assert x in multiset(xs) && y in multiset(xs);
      }
    }
    OrderedUnique(r, Sort(xs, key, less), key, less);
  }

  /** Insertion sort of `a` in place; what it leaves in `a` is `Sort` of the old contents. */
  method SortInPlace<T, K>(a: array<T>, key: T -> K, less: (K, K) -> bool)
    modifies a
    ensures a[..] == Sort(old(a[..]), key, less)
  {
    ghost var input := a[..];
    var i := 0;
    while i < a.Length
      invariant 0 <= i <= a.Length
      invariant a[..i] == Sort(input[..i], key, less)
      invariant a[i..] == input[i..]
    {
      assert input[..i + 1] == input[..i] + [input[i]];
      InsertAt(a, i, key, less);
      i := i + 1;
    }
    assert a[..] == a[..a.Length] && input == input[..a.Length];
  }

  /** Inserting `x` into `s` when it goes before the `j`-th element moves that element past it. */
  lemma InsertPastLast<T, K>(s: seq<T>, j: nat, x: T, key: T -> K, less: (K, K) -> bool)
    requires 0 < j <= |s| && less(key(x), key(s[j - 1]))
    ensures Insert(s[..j], x, key, less) + s[j..] == Insert(s[..j - 1], x, key, less) + s[j - 1..]
  {
    assert s[..j][..j - 1] == s[..j - 1];
    assert s[j - 1..] == [s[j - 1]] + s[j..];
  }

  /**
   * `q` is `s` with `x` placed at `j`, where `x` is not strictly below the
   * element before it: `q` is `Insert(s, x)` once the elements after `j` are
   * the ones `x` goes before.
   */
  lemma InsertedAt<T, K>(q: seq<T>, s: seq<T>, j: nat, x: T, key: T -> K, less: (K, K) -> bool)
    requires j <= |s| && |q| == |s| + 1
    requires forall k {:trigger q[k]} :: 0 <= k < j ==> q[k] == s[k]
    requires q[j] == x
    requires forall k :: j < k < |q| ==> q[k] == s[k - 1]
    requires Insert(s, x, key, less) == Insert(s[..j], x, key, less) + s[j..]
    requires !(j > 0 && less(key(x), key(s[j - 1])))
    ensures q == Insert(s, x, key, less)
  {
    var r := s[..j] + [x] + s[j..];
    if j > 0 {
      assert s[..j][j - 1] == s[j - 1];
    }
    assert Insert(s[..j], x, key, less) + s[j..] == r;
    forall k | 0 <= k < |q|
      ensures q[k] == r[k]
    {
      if k < j {
        assert r[k] == s[..j][k];
      } else if j < k {
        assert r[k] == s[j..][k - j - 1];
      }
    }
  }

  /** One pass of insertion sort: shifts the larger elements of `a[..i]` right and puts `a[i]` in the gap. */
  method InsertAt<T, K>(a: array<T>, i: nat, key: T -> K, less: (K, K) -> bool)
    requires i < a.Length
    modifies a
    ensures a[..i + 1] == Insert(old(a[..i]), old(a[i]), key, less)
    ensures a[i + 1..] == old(a[i + 1..])
  {
    ghost var sorted := a[..i];
    var x := a[i];
    var j := i;
    assert sorted[..j] == sorted && sorted[j..] == [];
    while j > 0 && less(key(x), key(a[j - 1]))
      invariant 0 <= j <= i
      invariant forall k {:trigger a[k]} :: 0 <= k < j ==> a[k] == sorted[k]
      invariant forall k :: j < k <= i ==> a[k] == sorted[k - 1]
      invariant forall k :: i < k < a.Length ==> a[k] == old(a[k])
      invariant Insert(sorted, x, key, less) == Insert(sorted[..j], x, key, less) + sorted[j..]
    {
      InsertPastLast(sorted, j, x, key, less);
      a[j] := a[j - 1];
      j := j - 1;
    }
    a[j] := x;
    InsertedAt(a[..i + 1], sorted, j, x, key, less);
  }
}
