/**
 * Order-preserving selection from a sequence: the `stream().filter(...)`
 * pipelines of the services, and the subsequence relation they establish.
 */
module Seqs {
  import opened Wrappers

  /** `a` is obtained from `b` by deleting elements, keeping the order of the rest. */
  ghost predicate IsSubsequence<T>(a: seq<T>, b: seq<T>)
    decreases |b|
  {
    if b == [] then a == []
    else (a != [] && a[0] == b[0] && IsSubsequence(a[1..], b[1..])) || IsSubsequence(a, b[1..])
  }

  lemma {:induction false} SubsequenceReflexive<T>(a: seq<T>)
    ensures IsSubsequence(a, a)
    decreases |a|
  {
    if a != [] {
      SubsequenceReflexive(a[1..]);
    }
  }

  lemma {:induction false} SubsequenceTransitive<T>(a: seq<T>, b: seq<T>, c: seq<T>)
    requires IsSubsequence(a, b) && IsSubsequence(b, c)
    ensures IsSubsequence(a, c)
    decreases |c|
  {
    if c == [] {
    } else if IsSubsequence(b, c[1..]) {
      SubsequenceTransitive(a, b, c[1..]);
    } else {
      assert b != [] && b[0] == c[0] && IsSubsequence(b[1..], c[1..]);
      if a != [] && a[0] == b[0] && IsSubsequence(a[1..], b[1..]) {
        SubsequenceTransitive(a[1..], b[1..], c[1..]);
      } else {
        assert IsSubsequence(a, b[1..]);
        SubsequenceTransitive(a, b[1..], c[1..]);
      }
    }
  }

  /** Every element of a subsequence is an element of the sequence. */
  lemma {:induction false} SubsequenceMembers<T>(a: seq<T>, b: seq<T>)
    requires IsSubsequence(a, b)
    ensures forall x :: x in a ==> x in b
    decreases |b|
  {
    if b != [] {
      if a != [] && a[0] == b[0] && IsSubsequence(a[1..], b[1..]) {
        SubsequenceMembers(a[1..], b[1..]);
        assert forall x :: x in a ==> x == a[0] || x in a[1..];
      } else {
        SubsequenceMembers(a, b[1..]);
      }
    }
  }

  /** The elements of `s` that satisfy `p`, in their order in `s` (Java `stream().filter(p)`). */
  function Filter<T>(s: seq<T>, p: T -> bool): (r: seq<T>)
    ensures |r| <= |s|
    ensures forall i :: 0 <= i < |r| ==> p(r[i])
    ensures forall i :: 0 <= i < |s| && p(s[i]) ==> s[i] in r
    ensures forall i :: 0 <= i < |r| ==> r[i] in s
    ensures IsSubsequence(r, s)
  {
    if s == [] then []
    else if p(s[0]) then [s[0]] + Filter(s[1..], p)
    else Filter(s[1..], p)
  }

  /** Membership in a filtered sequence. */
  lemma FilterMembership<T>(s: seq<T>, p: T -> bool)
    ensures forall x :: x in Filter(s, p) <==> x in s && p(x)
  {
  }

  /** Filtering a sequence whose every element passes changes nothing. */
  lemma {:induction false} FilterAllPass<T>(s: seq<T>, p: T -> bool)
    requires forall i :: 0 <= i < |s| ==> p(s[i])
    ensures Filter(s, p) == s
  {
    if s != [] {
      FilterAllPass(s[1..], p);
    }
  }

  /** Applying the same filter twice is applying it once. */
  lemma FilterIdempotent<T>(s: seq<T>, p: T -> bool)
    ensures Filter(Filter(s, p), p) == Filter(s, p)
  {
    FilterAllPass(Filter(s, p), p);
  }

  /** Filters that agree on the elements of `s` select the same subsequence. */
  lemma {:induction false} FilterAgree<T>(s: seq<T>, p: T -> bool, q: T -> bool)
    requires forall i :: 0 <= i < |s| ==> p(s[i]) == q(s[i])
    ensures Filter(s, p) == Filter(s, q)
  {
    if s != [] {
      FilterAgree(s[1..], p, q);
    }
  }

  /** Two filters in a row select what their conjunction `pq` selects. */
  lemma {:induction false} FilterThenFilter<T>(s: seq<T>, p: T -> bool, q: T -> bool, pq: T -> bool)
    requires forall i :: 0 <= i < |s| ==> pq(s[i]) == (p(s[i]) && q(s[i]))
    ensures Filter(Filter(s, p), q) == Filter(s, pq)
  {
    if s != [] {
      FilterThenFilter(s[1..], p, q, pq);
    }
  }

  /** A filter that rejects every element selects nothing. */
  lemma {:induction false} FilterNone<T>(s: seq<T>, p: T -> bool)
    requires forall i :: 0 <= i < |s| ==> !p(s[i])
    ensures Filter(s, p) == []
  {
    if s != [] {
      FilterNone(s[1..], p);
    }
  }

  /** Filtering distributes over concatenation. */
  lemma {:induction false} FilterConcat<T>(a: seq<T>, b: seq<T>, p: T -> bool)
    ensures Filter(a + b, p) == Filter(a, p) + Filter(b, p)
  {
    if a == [] {
      assert a + b == b;
    } else {
      assert (a + b)[1..] == a[1..] + b;
      FilterConcat(a[1..], b, p);
    }
  }

  /** Filtering a sequence extended by one element. */
  lemma FilterSnoc<T>(s: seq<T>, x: T, p: T -> bool)
    ensures Filter(s + [x], p) == Filter(s, p) + (if p(x) then [x] else [])
  {
    FilterConcat(s, [x], p);
  }

  // ------------------------------------------------ skipping missing values

  /** The present values of a sequence of optional values, in order (a loop that skips `null`s). */
  function Somes<T>(opts: seq<Option<T>>): (r: seq<T>)
    ensures |r| <= |opts|
  {
    if opts == [] then []
    else Somes(opts[..|opts| - 1]) + (if opts[|opts| - 1].Some? then [opts[|opts| - 1].value] else [])
  }

  /** The index in `opts` of each value `Somes(opts)` keeps. */
  ghost function SomeIndices<T>(opts: seq<Option<T>>): (ix: seq<nat>)
    ensures |ix| == |Somes(opts)|
  {
    if opts == [] then []
    else SomeIndices(opts[..|opts| - 1]) + (if opts[|opts| - 1].Some? then [|opts| - 1] else [])
  }

  /** One more element of a prefix: the loop step of a skipping loop. */
  lemma SomesPrefix<T>(opts: seq<Option<T>>, k: nat)
    requires k < |opts|
    ensures Somes(opts[..k + 1]) == Somes(opts[..k]) + (if opts[k].Some? then [opts[k].value] else [])
  {
    assert opts[..k + 1][..k] == opts[..k];
  }

  /**
   * The `j`-th kept value is the value at index `SomeIndices(opts)[j]`, and
   * these indices strictly increase: the values keep their order.
   */
  lemma SomesOrigin<T>(opts: seq<Option<T>>)
    ensures forall j :: 0 <= j < |SomeIndices(opts)| ==>
      SomeIndices(opts)[j] < |opts| && opts[SomeIndices(opts)[j]] == Some(Somes(opts)[j])
    ensures forall j, k :: 0 <= j < k < |SomeIndices(opts)| ==> SomeIndices(opts)[j] < SomeIndices(opts)[k]
  {
    SomesAtIndices(opts);
    SomeIndicesIncrease(opts);
  }

  lemma {:induction false} SomesAtIndices<T>(opts: seq<Option<T>>)
    ensures forall j :: 0 <= j < |SomeIndices(opts)| ==>
      SomeIndices(opts)[j] < |opts| && opts[SomeIndices(opts)[j]] == Some(Somes(opts)[j])
  {
    if opts != [] {
      var front := opts[..|opts| - 1];
      SomesAtIndices(front);
      var last := opts[|opts| - 1];
      if last.Some? {
        var vs := Somes(front) + [last.value];
        var ix := SomeIndices(front) + [|opts| - 1];
        assert Somes(opts) == vs && SomeIndices(opts) == ix;
        forall j | 0 <= j < |ix| ensures ix[j] < |opts| && opts[ix[j]] == Some(vs[j]) {
          if j < |SomeIndices(front)| {
            assert ix[j] == SomeIndices(front)[j] && vs[j] == Somes(front)[j];
            assert opts[ix[j]] == front[ix[j]];
          }
        }
      } else {
        assert Somes(opts) == Somes(front) && SomeIndices(opts) == SomeIndices(front);
        forall j | 0 <= j < |SomeIndices(front)|
          ensures opts[SomeIndices(front)[j]] == front[SomeIndices(front)[j]]
        {
        }
      }
    }
  }

  lemma {:induction false} SomeIndicesIncrease<T>(opts: seq<Option<T>>)
    ensures forall j :: 0 <= j < |SomeIndices(opts)| ==> SomeIndices(opts)[j] < |opts|
    ensures forall j, k :: 0 <= j < k < |SomeIndices(opts)| ==> SomeIndices(opts)[j] < SomeIndices(opts)[k]
  {
    if opts != [] {
      var front := opts[..|opts| - 1];
      SomeIndicesIncrease(front);
      if opts[|opts| - 1].Some? {
        var ix := SomeIndices(front) + [|opts| - 1];
        assert SomeIndices(opts) == ix;
        forall j | 0 <= j < |ix| ensures ix[j] < |opts| {
          if j < |SomeIndices(front)| {
            assert ix[j] == SomeIndices(front)[j];
          }
        }
        forall j, k | 0 <= j < k < |ix| ensures ix[j] < ix[k] {
          assert ix[j] == SomeIndices(front)[j];
          if k < |SomeIndices(front)| {
            assert ix[k] == SomeIndices(front)[k];
          }
        }
      } else {
        assert SomeIndices(opts) == SomeIndices(front);
      }
    }
  }

  /** Every present value is kept. */
  lemma {:induction false} SomesComplete<T>(opts: seq<Option<T>>)
    ensures forall i :: 0 <= i < |opts| && opts[i].Some? ==> opts[i].value in Somes(opts)
  {
    if opts != [] {
      var front := opts[..|opts| - 1];
      SomesComplete(front);
      forall i | 0 <= i < |opts| && opts[i].Some? ensures opts[i].value in Somes(opts) {
        if i < |front| {
          assert opts[i] == front[i];
        }
      }
    }
  }

  // ------------------------------------------------------- concatenation

  /** The parts laid end to end (repeated `addAll`). */
  function Concat<T>(parts: seq<seq<T>>): seq<T> {
    if parts == [] then [] else Concat(parts[..|parts| - 1]) + parts[|parts| - 1]
  }

  /** One more part of a prefix: the loop step of an `addAll` loop. */
  lemma ConcatPrefix<T>(parts: seq<seq<T>>, k: nat)
    requires k < |parts|
    ensures Concat(parts[..k + 1]) == Concat(parts[..k]) + parts[k]
  {
    assert parts[..k + 1][..k] == parts[..k];
  }

  /** An element is in the concatenation exactly when it is in one of the parts. */
  lemma {:induction false} ConcatMembers<T>(parts: seq<seq<T>>, x: T)
    ensures x in Concat(parts) <==> exists k :: 0 <= k < |parts| && x in parts[k]
  {
    if parts != [] {
      var front := parts[..|parts| - 1];
      ConcatMembers(front, x);
      if x in Concat(parts) && x !in parts[|parts| - 1] {
        var k :| 0 <= k < |front| && x in front[k];
        assert parts[k] == front[k];
      }
      if exists k :: 0 <= k < |parts| && x in parts[k] {
        var k :| 0 <= k < |parts| && x in parts[k];
        if k < |front| {
          assert parts[k] == front[k];
        }
      }
    }
  }
}
