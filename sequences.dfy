/**
  The three list operations the dashboard and the list views are built from, with
  their laws: a left-to-right sum (`Array.prototype.reduce` with `+` from 0), a
  filter (`Array.prototype.filter`) and a stable sort by an integer key
  (`Array.prototype.sort` with a comparator `(a, b) => key(a) - key(b)`; that sort is
  stable since ECMAScript 2019). All three read their input from the front, and are
  defined here by peeling off the last element.
 */
module Sequences {

  // ---------------------------------------------------------------------------
  // Sums

  /** `xs.reduce((acc, x) => acc + f(x), 0)`. */
  function SumBy<T>(xs: seq<T>, f: T -> int): (r: int)
    ensures |xs| == 1 ==> r == f(xs[0])
    ensures (forall i :: 0 <= i < |xs| ==> f(xs[i]) >= 0) ==> r >= 0
  {
    if xs == [] then 0 else SumBy(xs[..|xs| - 1], f) + f(xs[|xs| - 1])
  }

  lemma {:induction false} SumByAppend<T>(a: seq<T>, b: seq<T>, f: T -> int)
    ensures SumBy(a + b, f) == SumBy(a, f) + SumBy(b, f)
  {
    if b == [] {
      assert a + b == a;
    } else {
      assert (a + b)[..|a + b| - 1] == a + b[..|b| - 1];
      SumByAppend(a, b[..|b| - 1], f);
    }
  }

  /** Taking one term out of a sum leaves the rest of the sum. */
  lemma SumByWithout<T>(front: seq<T>, x: T, back: seq<T>, f: T -> int)
    ensures SumBy(front + [x] + back, f) == SumBy(front + back, f) + f(x)
  {
    SumByAppend(front + [x], back, f);
    SumByAppend(front, [x], f);
    SumByAppend(front, back, f);
  }

  lemma MultisetWithout<T>(a: seq<T>, x: T, front: seq<T>, back: seq<T>)
    requires multiset(a + [x]) == multiset(front + [x] + back)
    ensures multiset(a) == multiset(front + back)
  {
    calc {
      multiset(a);
      multiset(a + [x]) - multiset{x};
      multiset(front + [x] + back) - multiset{x};
      multiset(front) + multiset{x} + multiset(back) - multiset{x};
      multiset(front + back);
    }
  }

  /** A sum does not depend on the order of its terms. */
  lemma {:induction false} SumByPermutation<T>(a: seq<T>, b: seq<T>, f: T -> int)
    requires multiset(a) == multiset(b)
    ensures SumBy(a, f) == SumBy(b, f)
  {
    if a == [] {
      assert |b| == |multiset(b)| == 0;
    } else {
      var x, a' := a[|a| - 1], a[..|a| - 1];
      assert a == a' + [x];
      assert x in b by {
        assert x in multiset(a);
      }
      var k :| 0 <= k < |b| && b[k] == x;
      var front, back := b[..k], b[k + 1..];
      assert b == front + [x] + back;
      MultisetWithout(a', x, front, back);
      SumByPermutation(a', front + back, f);
      SumByWithout(front, x, back, f);
      SumByAppend(a', [x], f);
    }
  }

  // ---------------------------------------------------------------------------
  // Filters

  /** `xs.filter(keep)`. */
  function Filter<T>(xs: seq<T>, keep: T -> bool): (r: seq<T>)
    ensures |r| <= |xs|
    ensures forall i :: 0 <= i < |r| ==> keep(r[i])
  {
    if xs == [] then []
    else
      var last := xs[|xs| - 1];
      Filter(xs[..|xs| - 1], keep) + (if keep(last) then [last] else [])
  }

  /** The filter keeps every passing element as often as it occurs, and nothing else. */
  lemma {:induction false} FilterCounts<T>(xs: seq<T>, keep: T -> bool)
    ensures multiset(Filter(xs, keep)) <= multiset(xs)
    ensures forall x :: x in xs ==>
      multiset(Filter(xs, keep))[x] == if keep(x) then multiset(xs)[x] else 0
  {
    if xs != [] {
      var xs', last := xs[..|xs| - 1], xs[|xs| - 1];
      FilterCounts(xs', keep);
      assert xs == xs' + [last];
      assert Filter(xs, keep) == Filter(xs', keep) + (if keep(last) then [last] else []);
    }
  }

  /** Filtering keeps the original order: what comes from `a` precedes what comes from `b`. */
  lemma {:induction false} FilterAppend<T>(a: seq<T>, b: seq<T>, keep: T -> bool)
    ensures Filter(a + b, keep) == Filter(a, keep) + Filter(b, keep)
  {
    if b == [] {
      assert a + b == a;
    } else {
      assert (a + b)[..|a + b| - 1] == a + b[..|b| - 1];
      FilterAppend(a, b[..|b| - 1], keep);
    }
  }

  /** A list whose every element passes is left exactly as it is. */
  lemma {:induction false} FilterKeepsAll<T>(xs: seq<T>, keep: T -> bool)
    requires forall i :: 0 <= i < |xs| ==> keep(xs[i])
    ensures Filter(xs, keep) == xs
  {
    if xs != [] {
      var xs' := xs[..|xs| - 1];
      FilterKeepsAll(xs', keep);
      assert Filter(xs, keep) == Filter(xs', keep) + [xs[|xs| - 1]];
      assert xs == xs' + [xs[|xs| - 1]];
    }
  }

  // ---------------------------------------------------------------------------
  // Stable sort by an integer key

  /** The elements of `xs` whose key is `k`, in their order in `xs`. */
  function WithKey<T>(xs: seq<T>, key: T -> int, k: int): (r: seq<T>)
    ensures forall i :: 0 <= i < |r| ==> key(r[i]) == k && r[i] in xs
  {
    if xs == [] then []
    else
      WithKey(xs[..|xs| - 1], key, k)
      + (if key(xs[|xs| - 1]) == k then [xs[|xs| - 1]] else [])
  }

  ghost predicate SortedBy<T>(xs: seq<T>, key: T -> int) {
    forall i, j :: 0 <= i < j < |xs| ==> key(xs[i]) <= key(xs[j])
  }

  /**
    `ys` is what a stable sort of `xs` by `key` must return: sorted, and for every
    key the elements carrying it appear in the order they had in `xs`.
   */
  ghost predicate StablySortedFrom<T>(ys: seq<T>, xs: seq<T>, key: T -> int) {
    && SortedBy(ys, key)
    && forall k :: WithKey(ys, key, k) == WithKey(xs, key, k)
  }

  /** Places `x` after every element of `t` whose key is not larger than its own. */
  function Insert<T>(t: seq<T>, x: T, key: T -> int): (r: seq<T>)
    ensures |r| == |t| + 1 && x in r
    ensures forall i :: 0 <= i < |r| ==> r[i] == x || r[i] in t
  {
    if t == [] || key(t[|t| - 1]) <= key(x) then t + [x]
    else Insert(t[..|t| - 1], x, key) + [t[|t| - 1]]
  }

  function SortBy<T>(xs: seq<T>, key: T -> int): (r: seq<T>)
    ensures |r| == |xs|
    ensures forall i :: 0 <= i < |r| ==> r[i] in xs
  {
    if xs == [] then [] else Insert(SortBy(xs[..|xs| - 1], key), xs[|xs| - 1], key)
  }

  lemma {:induction false} WithKeyAppend<T>(a: seq<T>, b: seq<T>, key: T -> int, k: int)
    ensures WithKey(a + b, key, k) == WithKey(a, key, k) + WithKey(b, key, k)
  {
    if b == [] {
      assert a + b == a;
    } else {
      assert (a + b)[..|a + b| - 1] == a + b[..|b| - 1];
      WithKeyAppend(a, b[..|b| - 1], key, k);
    }
  }

  /** Two keys that pick out the same elements select the same subsequence. */
  lemma {:induction false} WithKeySameSelection<T>(xs: seq<T>, key: T -> int, k: int, key': T -> int, k': int)
    requires forall x :: key(x) == k <==> key'(x) == k'
    ensures WithKey(xs, key, k) == WithKey(xs, key', k')
  {
    if xs != [] {
      WithKeySameSelection(xs[..|xs| - 1], key, k, key', k');
    }
  }

  lemma {:induction false} InsertPermutes<T>(t: seq<T>, x: T, key: T -> int)
    ensures multiset(Insert(t, x, key)) == multiset(t) + multiset{x}
  {
    if !(t == [] || key(t[|t| - 1]) <= key(x)) {
      InsertPermutes(t[..|t| - 1], x, key);
      assert t == t[..|t| - 1] + [t[|t| - 1]];
    }
  }

  lemma {:induction false} InsertSorted<T>(t: seq<T>, x: T, key: T -> int)
    requires SortedBy(t, key)
    ensures SortedBy(Insert(t, x, key), key)
    ensures |Insert(t, x, key)| == |t| + 1
    ensures forall i :: 0 <= i < |Insert(t, x, key)| ==>
      Insert(t, x, key)[i] == x || Insert(t, x, key)[i] in t
  {
    if !(t == [] || key(t[|t| - 1]) <= key(x)) {
      var t', last := t[..|t| - 1], t[|t| - 1];
      InsertSorted(t', x, key);
      var r' := Insert(t', x, key);
      forall i | 0 <= i < |r'| ensures key(r'[i]) <= key(last) {
        if r'[i] != x {
          assert r'[i] in t';
          var j :| 0 <= j < |t'| && t'[j] == r'[i];
          assert t[j] == r'[i];
        }
      }
    }
  }

  lemma {:induction false} InsertStable<T>(t: seq<T>, x: T, key: T -> int, k: int)
    ensures WithKey(Insert(t, x, key), key, k)
         == WithKey(t, key, k) + (if key(x) == k then [x] else [])
  {
    if t == [] || key(t[|t| - 1]) <= key(x) {
      WithKeyAppend(t, [x], key, k);
    } else {
      var t', last := t[..|t| - 1], t[|t| - 1];
      InsertStable(t', x, key, k);
      WithKeyAppend(Insert(t', x, key), [last], key, k);
    }
  }

  /** `SortBy` returns a permutation of its input. */
  lemma {:induction false} SortByPermutes<T>(xs: seq<T>, key: T -> int)
    ensures multiset(SortBy(xs, key)) == multiset(xs)
  {
    if xs != [] {
      SortByPermutes(xs[..|xs| - 1], key);
      InsertPermutes(SortBy(xs[..|xs| - 1], key), xs[|xs| - 1], key);
      assert xs == xs[..|xs| - 1] + [xs[|xs| - 1]];
    }
  }

  /** `SortBy` is a stable sort: sorted by key, ties in their original order. */
  lemma {:induction false} SortByIsStableSort<T>(xs: seq<T>, key: T -> int)
    ensures StablySortedFrom(SortBy(xs, key), xs, key)
  {
    if xs != [] {
      var xs', last := xs[..|xs| - 1], xs[|xs| - 1];
      SortByIsStableSort(xs', key);
      InsertSorted(SortBy(xs', key), last, key);
      forall k ensures WithKey(SortBy(xs, key), key, k) == WithKey(xs, key, k) {
        InsertStable(SortBy(xs', key), last, key, k);
      }
    }
  }

  lemma SortedLastIsLargest<T>(zs: seq<T>, key: T -> int, e: T)
    requires SortedBy(zs, key) && e in zs
    ensures key(e) <= key(zs[|zs| - 1])
  {
    var i :| 0 <= i < |zs| && zs[i] == e;
    if i < |zs| - 1 {
      assert key(zs[i]) <= key(zs[|zs| - 1]);
    }
  }

  /** A non-empty list has some element with the key of its last element. */
  lemma WithKeyOfLast<T>(xs: seq<T>, key: T -> int)
    requires xs != []
    ensures WithKey(xs, key, key(xs[|xs| - 1]))
         == WithKey(xs[..|xs| - 1], key, key(xs[|xs| - 1])) + [xs[|xs| - 1]]
  {
  }

  lemma AgreeingListsEmptyTogether<T>(ys: seq<T>, zs: seq<T>, key: T -> int)
    requires forall k :: WithKey(ys, key, k) == WithKey(zs, key, k)
    ensures ys == [] <==> zs == []
  {
    if ys != [] {
      WithKeyOfLast(ys, key);
      assert WithKey(zs, key, key(ys[|ys| - 1])) != [];
    }
    if zs != [] {
      WithKeyOfLast(zs, key);
      assert WithKey(ys, key, key(zs[|zs| - 1])) != [];
    }
  }

  /**
    Two sorted lists that agree on the elements carrying the key of either last
    element end with the same element.
   */
  lemma SortedAgreeingListsEndAlike<T>(ys: seq<T>, zs: seq<T>, key: T -> int)
    requires ys != [] && zs != []
    requires SortedBy(ys, key) && SortedBy(zs, key)
    requires WithKey(ys, key, key(ys[|ys| - 1])) == WithKey(zs, key, key(ys[|ys| - 1]))
    requires WithKey(ys, key, key(zs[|zs| - 1])) == WithKey(zs, key, key(zs[|zs| - 1]))
    ensures ys[|ys| - 1] == zs[|zs| - 1]
  {
    var y, z := ys[|ys| - 1], zs[|zs| - 1];
    // Each last element has the largest key of its list, and the other list holds
    // an element with that key, so both keys are equal.
    WithKeyOfLast(ys, key);
    var wy := WithKey(zs, key, key(y));
    assert key(wy[0]) == key(y) && wy[0] in zs;
    SortedLastIsLargest(zs, key, wy[0]);
    WithKeyOfLast(zs, key);
    var wz := WithKey(ys, key, key(z));
    assert key(wz[0]) == key(z) && wz[0] in ys;
    SortedLastIsLargest(ys, key, wz[0]);
    assert y == wy[|wy| - 1] == z;
  }

  /** Dropping the same last element keeps two lists in key-by-key agreement. */
  lemma AgreeingListsAgreeWithoutLast<T>(ys: seq<T>, zs: seq<T>, ys': seq<T>, zs': seq<T>, key: T -> int)
    requires ys != [] && zs != [] && ys[|ys| - 1] == zs[|zs| - 1]
    requires ys' == ys[..|ys| - 1] && zs' == zs[..|zs| - 1]
    requires forall k :: WithKey(ys, key, k) == WithKey(zs, key, k)
    ensures forall k :: WithKey(ys', key, k) == WithKey(zs', key, k)
  {
    var y := ys[|ys| - 1];
    forall k ensures WithKey(ys', key, k) == WithKey(zs', key, k) {
      var a, b := WithKey(ys', key, k), WithKey(zs', key, k);
      var tail := if key(y) == k then [y] else [];
      assert a + tail == WithKey(ys, key, k) == WithKey(zs, key, k) == b + tail;
      assert a == (a + tail)[..|a|] && b == (b + tail)[..|b|];
    }
  }

  /**
    A stable sort has only one possible answer: two sorted lists that agree, key by
    key, on the order of their elements are the same list.
   */
  lemma {:induction false} SortedAgreeingListsAreEqual<T>(ys: seq<T>, zs: seq<T>, key: T -> int)
    requires SortedBy(ys, key) && SortedBy(zs, key)
    requires forall k :: WithKey(ys, key, k) == WithKey(zs, key, k)
    ensures ys == zs
    decreases |ys|
  {
    AgreeingListsEmptyTogether(ys, zs, key);
    if ys != [] {
      var ys', zs' := ys[..|ys| - 1], zs[..|zs| - 1];
      SortedAgreeingListsEndAlike(ys, zs, key);
      AgreeingListsAgreeWithoutLast(ys, zs, ys', zs', key);
      SortedAgreeingListsAreEqual(ys', zs', key);
      assert ys == ys' + [ys[|ys| - 1]];
      assert zs == zs' + [zs[|zs| - 1]];
    }
  }

  /** Every stable sort of `xs` by `key` returns exactly `SortBy(xs, key)`. */
  lemma StableSortIsSortBy<T>(ys: seq<T>, xs: seq<T>, key: T -> int)
    requires StablySortedFrom(ys, xs, key)
    ensures ys == SortBy(xs, key)
  {
    SortByIsStableSort(xs, key);
    SortedAgreeingListsAreEqual(ys, SortBy(xs, key), key);
  }
}
