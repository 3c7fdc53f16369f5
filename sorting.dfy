/**
 * Sorting by a comparator that is a total order (the `sorted(comparator)`
 * stream step), as an insertion sort, with the fact that a sorted
 * permutation is unique, so that the choice of algorithm does not matter.
 */
module Sorting {

  /** `leq` is total, transitive and antisymmetric. */
  ghost predicate IsTotalOrder<T(!new)>(leq: (T, T) -> bool) {
    && (forall a, b :: leq(a, b) || leq(b, a))
    && (forall a, b, c :: leq(a, b) && leq(b, c) ==> leq(a, c))
    && (forall a, b :: leq(a, b) && leq(b, a) ==> a == b)
  }

  ghost predicate SortedBy<T>(s: seq<T>, leq: (T, T) -> bool) {
    forall i, j :: 0 <= i < j < |s| ==> leq(s[i], s[j])
  }

  /** Inserts `x` before the first element it does not follow. */
  function Insert<T>(s: seq<T>, x: T, leq: (T, T) -> bool): (r: seq<T>)
    ensures multiset(r) == multiset(s) + multiset{x}
  {
    if s == [] then [x]
    else if leq(x, s[0]) then [x] + s
    else
      assert s == [s[0]] + s[1..];
      [s[0]] + Insert(s[1..], x, leq)
  }

  lemma {:induction false} InsertSorted<T(!new)>(s: seq<T>, x: T, leq: (T, T) -> bool)
    requires IsTotalOrder(leq) && SortedBy(s, leq)
    ensures SortedBy(Insert(s, x, leq), leq)
    decreases |s|
  {
    if s != [] {
      if leq(x, s[0]) {
        var r := [x] + s;
        forall i, j | 0 <= i < j < |r| ensures leq(r[i], r[j]) {
          if i == 0 {
            if j > 1 { assert leq(s[0], s[j - 1]); }
          } else {
            assert r[i] == s[i - 1] && r[j] == s[j - 1];
          }
        }
      } else {
        var tail := Insert(s[1..], x, leq);
        InsertSorted(s[1..], x, leq);
        forall y | y in tail ensures leq(s[0], y) {
          assert y in multiset(tail);
          assert y in multiset(s[1..]) || y == x;
        }
        var r := [s[0]] + tail;
        forall i, j | 0 <= i < j < |r| ensures leq(r[i], r[j]) {
          if i > 0 {
            assert r[i] == tail[i - 1] && r[j] == tail[j - 1];
          } else {
            assert r[j] == tail[j - 1];
          }
        }
      }
    }
  }

  /** Insertion sort: a sorted permutation of `s`. */
  function Sort<T(!new)>(s: seq<T>, leq: (T, T) -> bool): (r: seq<T>)
    requires IsTotalOrder(leq)
    ensures multiset(r) == multiset(s)
    ensures SortedBy(r, leq)
  {
    if s == [] then []
    else
      var front := Sort(s[..|s| - 1], leq);
      assert s == s[..|s| - 1] + [s[|s| - 1]];
      InsertSorted(front, s[|s| - 1], leq);
      Insert(front, s[|s| - 1], leq)
  }

  lemma SortedTail<T>(s: seq<T>, leq: (T, T) -> bool)
    requires s != [] && SortedBy(s, leq)
    ensures SortedBy(s[1..], leq)
  {
    forall i, j | 0 <= i < j < |s| - 1 ensures leq(s[1..][i], s[1..][j]) {
      assert s[1..][i] == s[i + 1] && s[1..][j] == s[j + 1];
    }
  }

  /** The head of a sorted sequence precedes every element of it. */
  lemma SortedHeadLeast<T(!new)>(s: seq<T>, x: T, leq: (T, T) -> bool)
    requires IsTotalOrder(leq) && SortedBy(s, leq) && x in s
    ensures leq(s[0], x)
  {
    var i :| 0 <= i < |s| && s[i] == x;
    if i == 0 {
      assert leq(x, x) || leq(x, x);
    }
  }

  lemma SameTails<T>(a: seq<T>, b: seq<T>)
    requires a != [] && b != [] && a[0] == b[0] && multiset(a) == multiset(b)
    ensures multiset(a[1..]) == multiset(b[1..])
  {
    assert a == [a[0]] + a[1..] && b == [b[0]] + b[1..];
    assert multiset(a[1..]) == multiset(a) - multiset{a[0]};
    assert multiset(b[1..]) == multiset(b) - multiset{b[0]};
  }

  /** Two sorted permutations of the same elements are equal. */
  lemma {:induction false} SortedUnique<T(!new)>(a: seq<T>, b: seq<T>, leq: (T, T) -> bool)
    requires IsTotalOrder(leq) && SortedBy(a, leq) && SortedBy(b, leq) && multiset(a) == multiset(b)
    ensures a == b
    decreases |a|
  {
    assert |b| == |a| by { assert |multiset(a)| == |multiset(b)|; }
    if a != [] {
      assert a[0] in multiset(b) && b[0] in multiset(a);
      SortedHeadLeast(a, b[0], leq);
      SortedHeadLeast(b, a[0], leq);
      assert a[0] == b[0];
      SameTails(a, b);
      SortedTail(a, leq);
      SortedTail(b, leq);
      SortedUnique(a[1..], b[1..], leq);
    }
  }
}
