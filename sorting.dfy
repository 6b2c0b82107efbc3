/** Python's `sorted(xs, key=..., reverse=...)` and `list.sort`, for keys whose
    comparison is a strict total order: a stable sort, specified here by
    insertion (each element, in input order, goes in front of the first element
    whose key is greater). With `reverse=True` the order of the keys is flipped
    and equal keys still keep their input order. */
module Sorting {

  /** `less` is irreflexive, transitive and total on distinct keys. */
  ghost predicate StrictTotalOrder<K(!new)>(less: (K, K) -> bool) {
    && Irreflexive(less)
    && (forall a, b, c :: less(a, b) && less(b, c) ==> less(a, c))
    && (forall a, b :: a != b ==> less(a, b) || less(b, a))
  }

  ghost predicate Irreflexive<K(!new)>(less: (K, K) -> bool) {
    forall a :: !less(a, a)
  }

  /** The order with its sides swapped, as `reverse=True` compares. */
  function Flip<K>(less: (K, K) -> bool): (K, K) -> bool {
    (a, b) => less(b, a)
  }

  lemma FlipIsStrictTotalOrder<K(!new)>(less: (K, K) -> bool)
    requires StrictTotalOrder(less)
    ensures StrictTotalOrder(Flip(less))
  {
  }

  /** No element has a key smaller than that of an element before it. */
  predicate Sorted<T, K(==)>(s: seq<T>, key: T -> K, less: (K, K) -> bool) {
    forall i, j :: 0 <= i < j < |s| ==> !less(key(s[j]), key(s[i]))
  }

  /** x placed in front of the first element of s whose key is greater than its own. */
  function Insert<T, K(==)>(x: T, s: seq<T>, key: T -> K, less: (K, K) -> bool): seq<T> {
    if s == [] || less(key(x), key(s[0])) then [x] + s
    else [s[0]] + Insert(x, s[1..], key, less)
  }

  /** Inserting adds x and loses nothing. */
  lemma {:induction false} InsertPermutes<T, K>(x: T, s: seq<T>, key: T -> K, less: (K, K) -> bool)
    ensures multiset(Insert(x, s, key, less)) == multiset(s) + multiset{x}
  {
    if s != [] && !less(key(x), key(s[0])) {
      var rest := Insert(x, s[1..], key, less);
      InsertPermutes(x, s[1..], key, less);
      assert Insert(x, s, key, less) == [s[0]] + rest;
      assert multiset([s[0]] + rest) == multiset{s[0]} + multiset(rest);
      assert s == [s[0]] + s[1..];
      assert multiset(s) == multiset{s[0]} + multiset(s[1..]);
    }
  }

  /** `sorted(xs, key=key)` under the order `less`. */
  function Sort<T, K(==)>(xs: seq<T>, key: T -> K, less: (K, K) -> bool): seq<T> {
    if xs == [] then []
    else Insert(xs[|xs| - 1], Sort(xs[..|xs| - 1], key, less), key, less)
  }

  /** The sort's result is a permutation of its input. */
  lemma {:induction false} SortPermutes<T, K>(xs: seq<T>, key: T -> K, less: (K, K) -> bool)
    ensures multiset(Sort(xs, key, less)) == multiset(xs)
  {
    if xs != [] {
      SortPermutes(xs[..|xs| - 1], key, less);
      InsertPermutes(xs[|xs| - 1], Sort(xs[..|xs| - 1], key, less), key, less);
      assert xs == xs[..|xs| - 1] + [xs[|xs| - 1]];
    }
  }

  /** The elements of s whose key is k, in the order of s. */
  function Having<T, K(==)>(s: seq<T>, key: T -> K, k: K): seq<T> {
    if s == [] then []
    else (if key(s[0]) == k then [s[0]] else []) + Having(s[1..], key, k)
  }

  lemma {:induction false} HavingAppend<T, K>(a: seq<T>, b: seq<T>, key: T -> K, k: K)
    ensures Having(a + b, key, k) == Having(a, key, k) + Having(b, key, k)
  {
    if a != [] {
      var ab := a + b;
      assert ab[0] == a[0];
      assert ab[1..] == a[1..] + b;
      HavingAppend(a[1..], b, key, k);
      assert Having(ab, key, k) == (if key(a[0]) == k then [a[0]] else []) + Having(a[1..] + b, key, k);
      assert Having(a, key, k) == (if key(a[0]) == k then [a[0]] else []) + Having(a[1..], key, k);
    } else {
      assert a + b == b;
    }
  }

  lemma {:induction false} HavingNone<T, K>(s: seq<T>, key: T -> K, k: K)
    requires forall i :: 0 <= i < |s| ==> key(s[i]) != k
    ensures Having(s, key, k) == []
  {
    if s != [] {
      HavingNone(s[1..], key, k);
    }
  }

  /** Inserting into a sorted sequence keeps it sorted. */
  lemma {:induction false} InsertSorted<T, K(!new)>(x: T, s: seq<T>, key: T -> K, less: (K, K) -> bool)
    requires StrictTotalOrder(less) && Sorted(s, key, less)
    ensures Sorted(Insert(x, s, key, less), key, less)
  {
    if s != [] && !less(key(x), key(s[0])) {
      var rest := Insert(x, s[1..], key, less);
      InsertSorted(x, s[1..], key, less);
      InsertPermutes(x, s[1..], key, less);
      forall j | 0 <= j < |rest|
        ensures !less(key(rest[j]), key(s[0]))
      {
        assert rest[j] in multiset(rest);
        if rest[j] != x {
          assert rest[j] in multiset(s[1..]);
          var i :| 0 <= i < |s[1..]| && s[1..][i] == rest[j];
          assert s[i + 1] == rest[j];
        }
      }
      assert Insert(x, s, key, less) == [s[0]] + rest;
    }
  }

  /** The sort's result is sorted. */
  lemma {:induction false} SortSorted<T, K(!new)>(xs: seq<T>, key: T -> K, less: (K, K) -> bool)
    requires StrictTotalOrder(less)
    ensures Sorted(Sort(xs, key, less), key, less)
  {
    if xs != [] {
      SortSorted(xs[..|xs| - 1], key, less);
      InsertSorted(xs[|xs| - 1], Sort(xs[..|xs| - 1], key, less), key, less);
    }
  }

  /** In a sorted sequence, the new element lands after every element with the same key. */
  lemma {:induction false} InsertHaving<T, K(!new)>(x: T, s: seq<T>, key: T -> K, less: (K, K) -> bool, k: K)
    requires Irreflexive(less) && Sorted(s, key, less)
    ensures Having(Insert(x, s, key, less), key, k)
            == Having(s, key, k) + (if key(x) == k then [x] else [])
    decreases |s|, 1
  {
    if s == [] {
    } else if less(key(x), key(s[0])) {
      assert Insert(x, s, key, less) == [x] + s;
      HavingCons(x, s, key, k);
      if key(x) == k {
        NoneEqualBelow(x, s, key, less);
      }
    } else {
      InsertHavingLater(x, s, key, less, k);
    }
  }

  /** The case where x goes after the first element of s. */
  lemma {:induction false} InsertHavingLater<T, K(!new)>(x: T, s: seq<T>, key: T -> K, less: (K, K) -> bool, k: K)
    requires Irreflexive(less) && Sorted(s, key, less)
    requires s != [] && !less(key(x), key(s[0]))
    ensures Having(Insert(x, s, key, less), key, k)
            == Having(s, key, k) + (if key(x) == k then [x] else [])
    decreases |s|, 0
  {
    var rest := Insert(x, s[1..], key, less);
    var head := if key(s[0]) == k then [s[0]] else [];
    var tail := if key(x) == k then [x] else [];
    calc {
      Having(Insert(x, s, key, less), key, k);
      { assert Insert(x, s, key, less) == [s[0]] + rest; }
      Having([s[0]] + rest, key, k);
      { HavingCons(s[0], rest, key, k); }
      head + Having(rest, key, k);
      { assert Sorted(s[1..], key, less); InsertHaving(x, s[1..], key, less, k); }
      head + (Having(s[1..], key, k) + tail);
      (head + Having(s[1..], key, k)) + tail;
      { HavingCons(s[0], s[1..], key, k); assert s == [s[0]] + s[1..]; }
      Having(s, key, k) + tail;
    }
  }

  lemma HavingCons<T, K>(y: T, r: seq<T>, key: T -> K, k: K)
    ensures Having([y] + r, key, k) == (if key(y) == k then [y] else []) + Having(r, key, k)
  {
    assert ([y] + r)[1..] == r;
  }

  /** A sorted sequence that starts above x holds nothing with the key of x. */
  lemma NoneEqualBelow<T, K(!new)>(x: T, s: seq<T>, key: T -> K, less: (K, K) -> bool)
    requires Irreflexive(less) && Sorted(s, key, less)
    requires s != [] && less(key(x), key(s[0]))
    ensures Having(s, key, key(x)) == []
  {
    forall i | 0 <= i < |s|
      ensures key(s[i]) != key(x)
    {
      if i > 0 {
        assert !less(key(s[i]), key(s[0]));
      }
    }
    HavingNone(s, key, key(x));
  }

  /** Stability: for every key, the elements with that key keep their input order. */
  lemma {:induction false} SortStable<T, K(!new)>(xs: seq<T>, key: T -> K, less: (K, K) -> bool, k: K)
    requires StrictTotalOrder(less)
    ensures Having(Sort(xs, key, less), key, k) == Having(xs, key, k)
  {
    if xs != [] {
      var init, last := xs[..|xs| - 1], xs[|xs| - 1];
      SortStable(init, key, less, k);
      SortSorted(init, key, less);
      InsertHaving(last, Sort(init, key, less), key, less, k);
      assert xs == init + [last];
      HavingAppend(init, [last], key, k);
    }
  }

  /** An element whose key is not smaller than any key of s goes at the end. */
  lemma {:induction false} InsertAtEnd<T, K>(x: T, s: seq<T>, key: T -> K, less: (K, K) -> bool)
    requires forall i :: 0 <= i < |s| ==> !less(key(x), key(s[i]))
    ensures Insert(x, s, key, less) == s + [x]
  {
    if s != [] {
      InsertAtEnd(x, s[1..], key, less);
      assert s == [s[0]] + s[1..];
    }
  }

  /** Sorting what is already sorted changes nothing. */
  lemma {:induction false} SortOfSorted<T, K>(xs: seq<T>, key: T -> K, less: (K, K) -> bool)
    requires Sorted(xs, key, less)
    ensures Sort(xs, key, less) == xs
  {
    if xs != [] {
      var init, last := xs[..|xs| - 1], xs[|xs| - 1];
      assert Sorted(init, key, less);
      SortOfSorted(init, key, less);
      InsertAtEnd(last, init, key, less);
      assert xs == init + [last];
    }
  }

  /** A prefix of a sorted sequence is sorted, and no element left out of it is
      smaller than an element kept. */
  lemma SortedPrefix<T, K>(s: seq<T>, n: nat, key: T -> K, less: (K, K) -> bool)
    requires Sorted(s, key, less) && n <= |s|
    ensures Sorted(s[..n], key, less)
    ensures forall i, j :: 0 <= i < n <= j < |s| ==> !less(key(s[j]), key(s[i]))
  {
    assert forall i :: 0 <= i < n ==> s[..n][i] == s[i];
  }

  // ---------------------------------------------------------------------------
  // Python's comparison of two strings: code point by code point.

  /** a < b for Python strings. */
  predicate StrLess(a: string, b: string) {
    if a == [] then b != []
    else if b == [] then false
    else if a[0] != b[0] then a[0] < b[0]
    else StrLess(a[1..], b[1..])
  }

  lemma {:induction false} StrLessIrreflexive(a: string)
    ensures !StrLess(a, a)
  {
    if a != [] {
      StrLessIrreflexive(a[1..]);
    }
  }

  lemma {:induction false} StrLessTransitive(a: string, b: string, c: string)
    requires StrLess(a, b) && StrLess(b, c)
    ensures StrLess(a, c)
  {
    if a != [] && a[0] == b[0] && b[0] == c[0] {
      StrLessTransitive(a[1..], b[1..], c[1..]);
    }
  }

  lemma {:induction false} StrLessTotal(a: string, b: string)
    requires a != b
    ensures StrLess(a, b) || StrLess(b, a)
  {
    if a != [] && b != [] && a[0] == b[0] {
      assert a == [a[0]] + a[1..] && b == [b[0]] + b[1..];
      StrLessTotal(a[1..], b[1..]);
    }
  }

  /** Python's string order is a strict total order. */
  lemma StrLessIsStrictTotalOrder()
    ensures StrictTotalOrder(StrLess)
  {
    forall a ensures !StrLess(a, a) {
      StrLessIrreflexive(a);
    }
    forall a, b, c | StrLess(a, b) && StrLess(b, c) ensures StrLess(a, c) {
      StrLessTransitive(a, b, c);
    }
    forall a, b | a != b ensures StrLess(a, b) || StrLess(b, a) {
      StrLessTotal(a, b);
    }
  }
}
