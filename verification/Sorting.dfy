/** Sorting by a strict order that is total on the elements at hand, and why its result is unique. */
module Sorting {

  ghost predicate StrictOrder<T(!new)>(less: (T, T) -> bool)
  {
    && (forall x :: !less(x, x))
    && (forall x, y, z :: less(x, y) && less(y, z) ==> less(x, z))
  }

  /** Any two different positions are comparable, so no key occurs twice. */
  ghost predicate Comparable<T>(less: (T, T) -> bool, s: seq<T>)
  {
    forall i, j :: 0 <= i < |s| && 0 <= j < |s| && i != j ==> less(s[i], s[j]) || less(s[j], s[i])
  }

  predicate Sorted<T>(less: (T, T) -> bool, s: seq<T>)
  {
    forall i, j :: 0 <= i < j < |s| ==> less(s[i], s[j])
  }

  function Insert<T>(less: (T, T) -> bool, x: T, s: seq<T>): (r: seq<T>)
    ensures multiset(r) == multiset(s) + multiset{x}
  {
    if s == [] then [x]
    else if less(x, s[0]) then [x] + s
    else
      assert s == [s[0]] + s[1..];
      [s[0]] + Insert(less, x, s[1..])
  }

  function Sort<T>(less: (T, T) -> bool, s: seq<T>): (r: seq<T>)
    ensures multiset(r) == multiset(s)
    ensures |r| == |s|
  {
    if s == [] then []
    else
      assert s == [s[0]] + s[1..];
      var r := Insert(less, s[0], Sort(less, s[1..]));
      assert |multiset(r)| == |multiset(s)|;
      r
  }

  lemma {:induction false} InsertSorted<T(!new)>(less: (T, T) -> bool, x: T, s: seq<T>)
    requires StrictOrder(less)
    requires Sorted(less, s)
    requires forall y :: y in s ==> less(x, y) || less(y, x)
    ensures Sorted(less, Insert(less, x, s))
  {
    if s != [] && !less(x, s[0]) {
      InsertSorted(less, x, s[1..]);
      var r := Insert(less, x, s[1..]);
      forall k | 0 <= k < |r| ensures less(s[0], r[k]) {
        assert r[k] in multiset(r);
        assert r[k] == x || r[k] in s[1..];
      }
    }
  }

  lemma {:induction false} SortSorted<T(!new)>(less: (T, T) -> bool, s: seq<T>)
    requires StrictOrder(less)
    requires Comparable(less, s)
    ensures Sorted(less, Sort(less, s))
  {
    if s != [] {
      var rest := Sort(less, s[1..]);
      SortSorted(less, s[1..]);
      forall y | y in rest ensures less(s[0], y) || less(y, s[0]) {
        assert y in multiset(rest);
        assert y in s[1..];
      }
      InsertSorted(less, s[0], rest);
    }
  }

  /** There is one sorted order of given elements: the largest comes last, and the others in their one order before it. */
  lemma {:induction false} OneSortedOrder<T(!new)>(less: (T, T) -> bool, a: seq<T>, b: seq<T>)
    requires StrictOrder(less)
    requires Sorted(less, a) && Sorted(less, b)
    requires multiset(a) == multiset(b)
    ensures a == b
  {
    hide StrictOrder, Sorted;
    assert |a| == |multiset(a)| == |multiset(b)| == |b|;
    if a != [] {
      var n := |a| - 1;
      SortedFront(less, a);
      SortedFront(less, b);
      LargestLast(less, a, b);
      WithoutLast(a);
      WithoutLast(b);
      OneSortedOrder(less, a[..n], b[..n]);
      assert a == a[..n] + [a[n]] && b == b[..n] + [b[n]];
    }
  }

  lemma SortedFront<T(!new)>(less: (T, T) -> bool, s: seq<T>)
    requires Sorted(less, s) && s != []
    ensures Sorted(less, s[..|s| - 1])
  {
  }

  lemma WithoutLast<T>(s: seq<T>)
    requires s != []
    ensures multiset(s[..|s| - 1]) == multiset(s) - multiset{s[|s| - 1]}
  {
    assert s == s[..|s| - 1] + [s[|s| - 1]];
  }

  lemma LargestLast<T(!new)>(less: (T, T) -> bool, a: seq<T>, b: seq<T>)
    requires StrictOrder(less) && Sorted(less, a) && Sorted(less, b) && multiset(a) == multiset(b) && |a| == |b| > 0
    ensures a[|a| - 1] == b[|b| - 1]
  {
    var x, y := a[|a| - 1], b[|b| - 1];
    assert x in multiset(b) && y in multiset(a);
    var i :| 0 <= i < |b| && b[i] == x;
    var j :| 0 <= j < |a| && a[j] == y;
  }

  /** What a sort computes depends only on the elements, not on the order they arrive in. */
  lemma SortCanonical<T(!new)>(less: (T, T) -> bool, a: seq<T>, b: seq<T>)
    requires StrictOrder(less)
    requires Comparable(less, a) && Comparable(less, b)
    requires multiset(a) == multiset(b)
    ensures Sort(less, a) == Sort(less, b)
  {
    SortSorted(less, a);
    SortSorted(less, b);
    OneSortedOrder(less, Sort(less, a), Sort(less, b));
  }

  lemma SortFixesSorted<T(!new)>(less: (T, T) -> bool, s: seq<T>)
    requires StrictOrder(less)
    requires Sorted(less, s)
    ensures Sort(less, s) == s
  {
    SortSorted(less, s);
    OneSortedOrder(less, Sort(less, s), s);
  }

  /** Lexicographic comparison of sequences whose elements are ranked by `rank`. */
  predicate LexLess<E(==)>(rank: E -> int, a: seq<E>, b: seq<E>)
  {
    |b| > 0 &&
    (|a| == 0 || rank(a[0]) < rank(b[0]) || (a[0] == b[0] && LexLess(rank, a[1..], b[1..])))
  }

  lemma {:induction false} LexIrreflexive<E>(rank: E -> int, a: seq<E>)
    ensures !LexLess(rank, a, a)
  {
    if a != [] {
      LexIrreflexive(rank, a[1..]);
    }
  }

  lemma {:induction false} LexTransitive<E>(rank: E -> int, a: seq<E>, b: seq<E>, c: seq<E>)
    requires LexLess(rank, a, b) && LexLess(rank, b, c)
    ensures LexLess(rank, a, c)
  {
    if a != [] && a[0] == b[0] && b[0] == c[0] {
      if LexLess(rank, a[1..], b[1..]) && LexLess(rank, b[1..], c[1..]) {
        LexTransitive(rank, a[1..], b[1..], c[1..]);
      }
    }
  }

  lemma {:induction false} LexTotal<E(!new)>(rank: E -> int, a: seq<E>, b: seq<E>)
    requires forall x, y :: rank(x) == rank(y) ==> x == y
    requires a != b
    ensures LexLess(rank, a, b) || LexLess(rank, b, a)
  {
    if a != [] && b != [] && a[0] == b[0] {
      assert a == [a[0]] + a[1..] && b == [b[0]] + b[1..];
      LexTotal(rank, a[1..], b[1..]);
    }
  }

  /** Up to `k` the sequences agree, and there the first one ends or has the lower element. */
  predicate LowerAt<E(==)>(rank: E -> int, a: seq<E>, b: seq<E>, k: nat)
  {
    k <= |a| && k < |b| && a[..k] == b[..k] && (k == |a| || rank(a[k]) < rank(b[k]))
  }

  /** The order is decided where the sequences first differ. */
  lemma {:induction false} LexMeans<E(!new)>(rank: E -> int, a: seq<E>, b: seq<E>)
    ensures LexLess(rank, a, b) <==> exists k: nat :: LowerAt(rank, a, b, k)
  {
    if |b| > 0 && |a| > 0 && a[0] == b[0] {
      LexMeans(rank, a[1..], b[1..]);
      if LexLess(rank, a[1..], b[1..]) {
        var k: nat :| LowerAt(rank, a[1..], b[1..], k);
        assert a[..k + 1] == [a[0]] + a[1..][..k] && b[..k + 1] == [b[0]] + b[1..][..k];
        assert LowerAt(rank, a, b, k + 1);
      }
      if k: nat :| LowerAt(rank, a, b, k) && k > 0 {
        assert a[1..][..k - 1] == a[..k][1..] && b[1..][..k - 1] == b[..k][1..];
        assert LowerAt(rank, a[1..], b[1..], k - 1);
      }
    } else if LexLess(rank, a, b) {
      assert LowerAt(rank, a, b, 0);
    }
  }

  lemma {:induction false} LexAfterPrefix<E>(rank: E -> int, p: seq<E>, a: seq<E>, b: seq<E>)
    requires LexLess(rank, a, b)
    ensures LexLess(rank, p + a, p + b)
  {
    if p == [] {
      assert p + a == a && p + b == b;
    } else {
      LexAfterPrefix(rank, p[1..], a, b);
      assert (p + a)[1..] == p[1..] + a && (p + b)[1..] == p[1..] + b;
    }
  }
}
