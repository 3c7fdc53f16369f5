/**
 * The histogram builder of GraphService: the present values of one stat
 * over the gathered season records, `binCount` equal-width bins between the
 * smallest and the largest value, each half-open except the closed last
 * one, and the records that fall into each bin.
 *
 * Values are exact reals; the Java code uses doubles (see README).
 */
module Histogram {
  import opened Wrappers
  import opened Seqs
  import opened Records
  import opened StatAccessor

  /** A Java `double` as far as the histogram needs one: a number, or NaN from `0 * (x / 0)`. */
  datatype Double = Finite(value: real) | NaN

  /** The stat value of a record, as `getValueForStat(stat, name)`. */
  function StatValue(stat: Option<string>): SeasonRecord -> Option<real> {
    (r: SeasonRecord) => ValueForStat(r, stat)
  }

  /** The present values of `data`, in record order (the `filter(Objects::nonNull)` stream). */
  function ValidValues(data: seq<SeasonRecord>, value: SeasonRecord -> Option<real>): (vs: seq<real>)
    ensures |vs| <= |data|
    ensures forall i :: 0 <= i < |data| && value(data[i]).Some? ==> value(data[i]).value in vs
  {
    if data == [] then []
    else
      var front := data[..|data| - 1];
      assert forall i :: 0 <= i < |front| ==> data[i] == front[i];
      ValidValues(front, value)
      + (if value(data[|data| - 1]).Some? then [value(data[|data| - 1]).value] else [])
  }

  /** Every valid value is the value of some record. */
  lemma {:induction false} ValidValuesSound(data: seq<SeasonRecord>, value: SeasonRecord -> Option<real>)
    ensures forall v :: v in ValidValues(data, value) ==> exists i :: 0 <= i < |data| && value(data[i]) == Some(v)
  {
    if data != [] {
      var front := data[..|data| - 1];
      ValidValuesSound(front, value);
      forall v | v in ValidValues(data, value)
        ensures exists i :: 0 <= i < |data| && value(data[i]) == Some(v)
      {
        if v in ValidValues(front, value) {
          var i :| 0 <= i < |front| && value(front[i]) == Some(v);
          assert data[i] == front[i];
        } else {
          assert value(data[|data| - 1]) == Some(v);
        }
      }
    }
  }

  /** There are no valid values exactly when no record has a value. */
  lemma ValidValuesEmptyIff(data: seq<SeasonRecord>, value: SeasonRecord -> Option<real>)
    ensures ValidValues(data, value) == [] <==> forall i :: 0 <= i < |data| ==> value(data[i]).None?
  {
    var vs := ValidValues(data, value);
    if vs != [] {
      ValidValuesSound(data, value);
      assert vs[0] in vs;
    }
  }

  /** The stream `min()`: the smallest value. */
  function MinOf(vs: seq<real>): (m: real)
    requires vs != []
    ensures m in vs
    ensures forall v :: v in vs ==> m <= v
  {
    if |vs| == 1 then vs[0]
    else
      var rest := MinOf(vs[1..]);
      assert forall v :: v in vs ==> v == vs[0] || v in vs[1..];
      if vs[0] <= rest then vs[0] else rest
  }

  /** The stream `max()`: the largest value. */
  function MaxOf(vs: seq<real>): (m: real)
    requires vs != []
    ensures m in vs
    ensures forall v :: v in vs ==> v <= m
  {
    if |vs| == 1 then vs[0]
    else
      var rest := MaxOf(vs[1..]);
      assert forall v :: v in vs ==> v == vs[0] || v in vs[1..];
      if vs[0] >= rest then vs[0] else rest
  }

  // ------------------------------------------------------------- binning

  /** `min + i * binWidth` with `binWidth = (max - min) / binCount`. */
  function Edge(lo: real, hi: real, n: nat, i: nat): real
    requires n > 0
  {
    lo + (i as real) * ((hi - lo) / (n as real))
  }

  /** The first edge is the minimum and the last one the maximum. */
  lemma EdgeEnds(lo: real, hi: real, n: nat)
    requires n > 0
    ensures Edge(lo, hi, n, 0) == lo
    ensures Edge(lo, hi, n, n) == hi
  {
    var w := (hi - lo) / (n as real);
    assert (n as real) * w == hi - lo;
  }

  /** With `lo <= hi` the edges never decrease. */
  lemma EdgeMonotone(lo: real, hi: real, n: nat, a: nat, b: nat)
    requires n > 0 && lo <= hi && a <= b
    ensures Edge(lo, hi, n, a) <= Edge(lo, hi, n, b)
  {
    var w := (hi - lo) / (n as real);
    assert w >= 0.0;
    assert ((b - a) as real) * w >= 0.0;
    assert (b as real) * w == (a as real) * w + ((b - a) as real) * w;
  }

  /** `v` is in `[lower, upper)`, or in `[lower, upper]` when the bin is closed. */
  predicate InRange(v: real, lower: real, upper: real, closed: bool) {
    lower <= v && (if closed then v <= upper else v < upper)
  }

  /** Bin `i` of `n`: between edges `i` and `i + 1`, closed only for the last bin. */
  predicate InBin(v: real, lo: real, hi: real, n: nat, i: nat) {
    0 < n && i < n && InRange(v, Edge(lo, hi, n, i), Edge(lo, hi, n, i + 1), i == n - 1)
  }

  /** The bin a value between `lo` and `hi` falls into. */
  function BinIndex(lo: real, hi: real, n: nat, v: real): (k: nat)
    requires n > 0 && lo <= v <= hi
    ensures k < n
  {
    if lo == hi then n - 1
    else
      var q := (v - lo) / ((hi - lo) / (n as real));
      assert q >= 0.0;
      if q.Floor >= n then n - 1 else q.Floor
  }

  /** Bins are disjoint: no value lies in two of them. */
  lemma BinsDisjoint(v: real, lo: real, hi: real, n: nat, i: nat, j: nat)
    requires lo <= hi && InBin(v, lo, hi, n, i) && InBin(v, lo, hi, n, j)
    ensures i == j
  {
    if i < j {
      EdgeMonotone(lo, hi, n, i + 1, j);
    } else if j < i {
      EdgeMonotone(lo, hi, n, j + 1, i);
    }
  }

  lemma MulMonotone(a: real, b: real, w: real)
    requires w > 0.0 && a <= b
    ensures a * w <= b * w
  {
  }

  lemma MulStrict(a: real, b: real, w: real)
    requires w > 0.0 && a < b
    ensures a * w < b * w
  {
  }

  /** The offset of `v` from `lo` in widths `w` has integer part `k`. */
  lemma FloorBounds(v: real, lo: real, w: real, k: int)
    requires w > 0.0 && k == ((v - lo) / w).Floor
    ensures lo + (k as real) * w <= v < lo + ((k + 1) as real) * w
  {
    var q := (v - lo) / w;
    assert q * w == v - lo;
    assert (k as real) <= q < (k + 1) as real;
    MulMonotone(k as real, q, w);
    assert (k as real) * w <= v - lo;
    MulStrict(q, (k + 1) as real, w);
    assert v - lo < ((k + 1) as real) * w;
  }

  /** The quotient of a value's offset by the bin width lies in `[0, n]`. */
  lemma QuotientRange(v: real, lo: real, hi: real, n: nat)
    requires n > 0 && lo <= v <= hi && lo < hi
    ensures var w := (hi - lo) / (n as real);
      w > 0.0 && (v - lo) / w * w == v - lo && 0.0 <= (v - lo) / w <= n as real
  {
    var w := (hi - lo) / (n as real);
    var q := (v - lo) / w;
    assert (n as real) * w == hi - lo;
    if q > n as real {
      MulStrict(n as real, q, w);
    }
  }

  /** Every value between `lo` and `hi` lies in the bin `BinIndex` names. */
  lemma BinIndexCovers(v: real, lo: real, hi: real, n: nat)
    requires n > 0 && lo <= v <= hi
    ensures InBin(v, lo, hi, n, BinIndex(lo, hi, n, v))
  {
    EdgeEnds(lo, hi, n);
    var k := BinIndex(lo, hi, n, v);
    if lo == hi {
      assert Edge(lo, hi, n, k) == lo;
    } else {
      QuotientRange(v, lo, hi, n);
      var w := (hi - lo) / (n as real);
      var q := (v - lo) / w;
      if q.Floor >= n {
        assert q == n as real;
        assert v == hi;
        EdgeMonotone(lo, hi, n, n - 1, n);
      } else {
        assert k == q.Floor;
        FloorBounds(v, lo, w, k);
        assert Edge(lo, hi, n, k) == lo + (k as real) * w;
        assert Edge(lo, hi, n, k + 1) == lo + ((k + 1) as real) * w;
        assert InRange(v, Edge(lo, hi, n, k), Edge(lo, hi, n, k + 1), k == n - 1);
      }
    }
  }

  /** In exact arithmetic every value between `lo` and `hi` lies in exactly one bin. */
  lemma BinExactlyOne(v: real, lo: real, hi: real, n: nat, i: nat)
    requires n > 0 && lo <= v <= hi
    ensures InBin(v, lo, hi, n, i) <==> i == BinIndex(lo, hi, n, v)
  {
    BinIndexCovers(v, lo, hi, n);
    if InBin(v, lo, hi, n, i) {
      BinsDisjoint(v, lo, hi, n, i, BinIndex(lo, hi, n, v));
    }
  }

  /** When every value is the same, all of them fall into the last bin. */
  lemma FlatBins(v: real, n: nat, i: nat)
    requires n > 0 && i < n
    ensures InBin(v, v, v, n, i) <==> i == n - 1
  {
    assert Edge(v, v, n, i) == v && Edge(v, v, n, i + 1) == v;
  }

  // ---------------------------------------------------------- bin contents

  /** The records whose present value lies between two bounds (the bin filters of `generateHistogram`). */
  function BinFilter(value: SeasonRecord -> Option<real>, lower: real, upper: real, closed: bool): SeasonRecord -> bool {
    (r: SeasonRecord) => value(r).Some? && InRange(value(r).value, lower, upper, closed)
  }

  /** The records of bin `i`. */
  function BinData(data: seq<SeasonRecord>, value: SeasonRecord -> Option<real>, lo: real, hi: real, n: nat, i: nat): seq<SeasonRecord>
    requires i < n
  {
    Filter(data, BinFilter(value, Edge(lo, hi, n, i), Edge(lo, hi, n, i + 1), i == n - 1))
  }

  /** The records of each bin. */
  function Bins(data: seq<SeasonRecord>, value: SeasonRecord -> Option<real>, lo: real, hi: real, n: nat): (bs: seq<seq<SeasonRecord>>)
    ensures |bs| == n
    ensures forall i :: 0 <= i < n ==> bs[i] == BinData(data, value, lo, hi, n, i)
  {
    seq(n, i requires 0 <= i < n => BinData(data, value, lo, hi, n, i))
  }

  /** The size of each bin. */
  function Counts(data: seq<SeasonRecord>, value: SeasonRecord -> Option<real>, lo: real, hi: real, n: nat): (cs: seq<int>)
    ensures |cs| == n
    ensures forall i :: 0 <= i < n ==> cs[i] == |BinData(data, value, lo, hi, n, i)|
  {
    seq(n, i requires 0 <= i < n => |BinData(data, value, lo, hi, n, i)|)
  }

  function Sum(s: seq<int>): int {
    if s == [] then 0 else Sum(s[..|s| - 1]) + s[|s| - 1]
  }

  /** The sum of a pointwise sum is the sum of the sums. */
  lemma {:induction false} SumPointwise(a: seq<int>, b: seq<int>, c: seq<int>)
    requires |a| == |b| == |c|
    requires forall i :: 0 <= i < |c| ==> c[i] == a[i] + b[i]
    ensures Sum(c) == Sum(a) + Sum(b)
  {
    if c != [] {
      var m := |c| - 1;
      SumPointwise(a[..m], b[..m], c[..m]);
    }
  }

  /** A sequence that is zero except possibly at `k` sums to its element at `k`. */
  lemma {:induction false} SumSingle(s: seq<int>, k: nat)
    requires k < |s|
    requires forall i :: 0 <= i < |s| && i != k ==> s[i] == 0
    ensures Sum(s) == s[k]
  {
    var m := |s| - 1;
    if k < m {
      SumSingle(s[..m], k);
    } else {
      SumZero(s[..m]);
    }
  }

  lemma {:induction false} SumZero(s: seq<int>)
    requires forall i :: 0 <= i < |s| ==> s[i] == 0
    ensures Sum(s) == 0
  {
    if s != [] {
      SumZero(s[..|s| - 1]);
    }
  }

  /** Whether record `x` is in each bin, as 0 or 1. */
  function Hits(x: SeasonRecord, value: SeasonRecord -> Option<real>, lo: real, hi: real, n: nat): (hs: seq<int>)
    ensures |hs| == n
    ensures forall i :: 0 <= i < n ==>
      hs[i] == if BinFilter(value, Edge(lo, hi, n, i), Edge(lo, hi, n, i + 1), i == n - 1)(x) then 1 else 0
  {
    seq(n, i requires 0 <= i < n => if BinFilter(value, Edge(lo, hi, n, i), Edge(lo, hi, n, i + 1), i == n - 1)(x) then 1 else 0)
  }

  /** A record with a value between `lo` and `hi` is in exactly one bin; one without a value in none. */
  lemma HitsSum(x: SeasonRecord, value: SeasonRecord -> Option<real>, lo: real, hi: real, n: nat)
    requires n > 0 && lo <= hi
    requires value(x).Some? ==> lo <= value(x).value <= hi
    ensures Sum(Hits(x, value, lo, hi, n)) == if value(x).Some? then 1 else 0
  {
    var hs := Hits(x, value, lo, hi, n);
    if value(x).Some? {
      var v := value(x).value;
      var k := BinIndex(lo, hi, n, v);
      forall i | 0 <= i < n ensures hs[i] == if i == k then 1 else 0 {
        BinExactlyOne(v, lo, hi, n, i);
      }
      SumSingle(hs, k);
    } else {
      SumZero(hs);
    }
  }

  /**
   * In exact arithmetic the bins partition the present values: with every
   * present value between `lo` and `hi`, the counts add up to the number of
   * present values.
   */
  lemma {:induction false} CountsSum(data: seq<SeasonRecord>, value: SeasonRecord -> Option<real>, lo: real, hi: real, n: nat)
    requires n > 0 && lo <= hi
    requires forall i :: 0 <= i < |data| && value(data[i]).Some? ==> lo <= value(data[i]).value <= hi
    ensures Sum(Counts(data, value, lo, hi, n)) == |ValidValues(data, value)|
  {
    if data == [] {
      SumZero(Counts(data, value, lo, hi, n));
    } else {
      var m := |data| - 1;
      var front := data[..m];
      var x := data[m];
      assert data == front + [x];
      forall i | 0 <= i < |front| && value(front[i]).Some?
        ensures lo <= value(front[i]).value <= hi
      {
        assert front[i] == data[i];
      }
      CountsSum(front, value, lo, hi, n);
      var hs := Hits(x, value, lo, hi, n);
      forall i | 0 <= i < n
        ensures Counts(data, value, lo, hi, n)[i] == Counts(front, value, lo, hi, n)[i] + hs[i]
      {
        FilterSnoc(front, x, BinFilter(value, Edge(lo, hi, n, i), Edge(lo, hi, n, i + 1), i == n - 1));
      }
      SumPointwise(Counts(front, value, lo, hi, n), hs, Counts(data, value, lo, hi, n));
      HitsSum(x, value, lo, hi, n);
    }
  }

  // ------------------------------------------------------------ response

  datatype HistogramMetadata = HistogramMetadata(binPlayers: seq<seq<SeasonRecord>>, stat: Option<string>)

  datatype HistogramData = HistogramData(binEdges: seq<Double>, binCounts: seq<int>, metadata: Option<HistogramMetadata>)

  /** `binCount`, 20 when the request has none. */
  function BinCountOr(binCount: Option<int>): int {
    if binCount.Some? then binCount.value else 20
  }

  /** The edges of `n` bins between `lo` and `hi`. */
  function Edges(lo: real, hi: real, n: nat): (es: seq<Double>)
    requires n > 0
    ensures |es| == n + 1
    ensures forall i :: 0 <= i <= n ==> es[i] == Finite(Edge(lo, hi, n, i))
  {
    seq(n + 1, i requires 0 <= i <= n => Finite(Edge(lo, hi, n, i)))
  }

  /**
   * The histogram of `generateHistogram` for the gathered records, `value`
   * being the requested stat: nothing when no value is present; otherwise
   * the edges (a single NaN for zero bins, none for a negative count), the
   * bin sizes and the bin members.
   */
  function HistogramOf(data: seq<SeasonRecord>, value: SeasonRecord -> Option<real>, stat: Option<string>, binCount: Option<int>): HistogramData {
    var vs := ValidValues(data, value);
    if vs == [] then HistogramData([], [], None)
    else
      var n := BinCountOr(binCount);
      if n < 0 then HistogramData([], [], Some(HistogramMetadata([], stat)))
      else if n == 0 then HistogramData([NaN], [], Some(HistogramMetadata([], stat)))
      else
        var lo := MinOf(vs);
        var hi := MaxOf(vs);
        HistogramData(Edges(lo, hi, n), Counts(data, value, lo, hi, n), Some(HistogramMetadata(Bins(data, value, lo, hi, n), stat)))
  }

  /** The edge loop of `generateHistogram`. */
  method BuildEdges(lo: real, hi: real, n: nat) returns (binEdges: seq<Double>)
    requires n > 0
    ensures binEdges == Edges(lo, hi, n)
  {
    binEdges := [];
    for i := 0 to n + 1
      invariant binEdges == Edges(lo, hi, n)[..i]
    {
      assert Edges(lo, hi, n)[..i + 1] == Edges(lo, hi, n)[..i] + [Finite(Edge(lo, hi, n, i))];
      binEdges := binEdges + [Finite(Edge(lo, hi, n, i))];
    }
    assert Edges(lo, hi, n)[..n + 1] == Edges(lo, hi, n);
  }

  /** The bin loop of `generateHistogram`: each bin's records between its two edges. */
  method FillBins(data: seq<SeasonRecord>, value: SeasonRecord -> Option<real>, binEdges: seq<Double>, lo: real, hi: real, n: nat)
    returns (binCounts: seq<int>, binPlayers: seq<seq<SeasonRecord>>)
    requires n > 0 && binEdges == Edges(lo, hi, n)
    ensures binCounts == Counts(data, value, lo, hi, n)
    ensures binPlayers == Bins(data, value, lo, hi, n)
  {
    binCounts := [];
    binPlayers := [];
    for i := 0 to n
      invariant binCounts == Counts(data, value, lo, hi, n)[..i]
      invariant binPlayers == Bins(data, value, lo, hi, n)[..i]
    {
      var lowerBound := binEdges[i].value;
      var upperBound := binEdges[i + 1].value;
      var binData := Filter(data, BinFilter(value, lowerBound, upperBound, i == n - 1));
      assert binData == BinData(data, value, lo, hi, n, i);
      assert Counts(data, value, lo, hi, n)[..i + 1] == Counts(data, value, lo, hi, n)[..i] + [|binData|];
      assert Bins(data, value, lo, hi, n)[..i + 1] == Bins(data, value, lo, hi, n)[..i] + [binData];
      binCounts := binCounts + [|binData|];
      binPlayers := binPlayers + [binData];
    }
    assert Counts(data, value, lo, hi, n)[..n] == Counts(data, value, lo, hi, n);
    assert Bins(data, value, lo, hi, n)[..n] == Bins(data, value, lo, hi, n);
  }

  /** `generateHistogram` after the records are gathered. */
  method BuildHistogram(data: seq<SeasonRecord>, stat: Option<string>, binCount: Option<int>) returns (h: HistogramData)
    ensures h == HistogramOf(data, StatValue(stat), stat, binCount)
  {
    var value := StatValue(stat);
    var values := ValidValues(data, value);
    if values == [] {
      return HistogramData([], [], None);
    }
    var n := BinCountOr(binCount);
    var binEdges: seq<Double> := [];
    var binCounts: seq<int> := [];
    var binPlayers: seq<seq<SeasonRecord>> := [];
    if n == 0 {
      // 0 * ((max - min) / 0) is NaN in Java
      binEdges := [NaN];
    } else if n > 0 {
      var lo := MinOf(values);
      var hi := MaxOf(values);
      binEdges := BuildEdges(lo, hi, n);
      binCounts, binPlayers := FillBins(data, value, binEdges, lo, hi, n);
    }
    h := HistogramData(binEdges, binCounts, Some(HistogramMetadata(binPlayers, stat)));
  }

  // --------------------------------------------------------- properties

  /** Without a present value there are no edges, no counts and no metadata. */
  lemma HistogramEmpty(data: seq<SeasonRecord>, value: SeasonRecord -> Option<real>, stat: Option<string>, binCount: Option<int>)
    ensures (forall i :: 0 <= i < |data| ==> value(data[i]).None?) <==>
      HistogramOf(data, value, stat, binCount) == HistogramData([], [], None)
  {
    ValidValuesEmptyIff(data, value);
  }

  /**
   * With some present value and `n > 0` bins (20 by default) there are
   * n + 1 edges, n counts and the members of each of the n bins.
   */
  lemma HistogramShape(data: seq<SeasonRecord>, value: SeasonRecord -> Option<real>, stat: Option<string>, binCount: Option<int>)
    requires ValidValues(data, value) != [] && BinCountOr(binCount) > 0
    ensures binCount.None? ==> |HistogramOf(data, value, stat, binCount).binCounts| == 20
    ensures var h := HistogramOf(data, value, stat, binCount);
      var n := BinCountOr(binCount);
      var vs := ValidValues(data, value);
      && |h.binEdges| == n + 1 && |h.binCounts| == n
      && h.metadata == Some(HistogramMetadata(Bins(data, value, MinOf(vs), MaxOf(vs), n), stat))
  {
  }

  /**
   * The edges run from the minimum to the maximum value, edge i at
   * `Edge(min, max, n, i)`.
   */
  lemma HistogramEdges(data: seq<SeasonRecord>, value: SeasonRecord -> Option<real>, stat: Option<string>, binCount: Option<int>)
    requires ValidValues(data, value) != [] && BinCountOr(binCount) > 0
    ensures var es := HistogramOf(data, value, stat, binCount).binEdges;
      var n := BinCountOr(binCount);
      var lo := MinOf(ValidValues(data, value));
      var hi := MaxOf(ValidValues(data, value));
      && |es| == n + 1 && es[0] == Finite(lo) && es[n] == Finite(hi)
      && (forall i :: 0 <= i <= n ==> es[i] == Finite(Edge(lo, hi, n, i)))
  {
    var vs := ValidValues(data, value);
    EdgeEnds(MinOf(vs), MaxOf(vs), BinCountOr(binCount));
  }

  /** The edges ascend. */
  lemma HistogramEdgesAscending(data: seq<SeasonRecord>, value: SeasonRecord -> Option<real>, stat: Option<string>, binCount: Option<int>, i: nat, j: nat)
    requires ValidValues(data, value) != [] && 0 < BinCountOr(binCount) && i <= j <= BinCountOr(binCount)
    ensures var es := HistogramOf(data, value, stat, binCount).binEdges;
      es[i].value <= es[j].value
  {
    var vs := ValidValues(data, value);
    EdgeMonotone(MinOf(vs), MaxOf(vs), BinCountOr(binCount), i, j);
  }

  /** Zero bins give one NaN edge and no count; a negative bin count gives neither. */
  lemma HistogramDegenerate(data: seq<SeasonRecord>, value: SeasonRecord -> Option<real>, stat: Option<string>, binCount: Option<int>)
    requires ValidValues(data, value) != [] && binCount.Some? && binCount.value <= 0
    ensures HistogramOf(data, value, stat, binCount).binEdges == (if binCount.value == 0 then [NaN] else [])
    ensures HistogramOf(data, value, stat, binCount).binCounts == []
  {
  }

  /** A record with a present value is a member of bin `i` exactly when its value falls into that bin. */
  lemma BinMembers(data: seq<SeasonRecord>, value: SeasonRecord -> Option<real>, lo: real, hi: real, n: nat, r: SeasonRecord, i: nat)
    requires i < n && r in data && value(r).Some? && lo <= value(r).value <= hi
    ensures r in BinData(data, value, lo, hi, n, i) <==> i == BinIndex(lo, hi, n, value(r).value)
  {
    BinExactlyOne(value(r).value, lo, hi, n, i);
    FilterMembership(data, BinFilter(value, Edge(lo, hi, n, i), Edge(lo, hi, n, i + 1), i == n - 1));
  }

  /**
   * Each record with a present value is a member of exactly the bin its
   * value falls into; the members of every bin are a subsequence of the
   * records, as many as the bin's count.
   */
  lemma HistogramMembers(data: seq<SeasonRecord>, value: SeasonRecord -> Option<real>, stat: Option<string>, binCount: Option<int>, k: nat, i: nat)
    requires 0 <= i < BinCountOr(binCount) && k < |data| && value(data[k]).Some?
    ensures var h := HistogramOf(data, value, stat, binCount);
      var vs := ValidValues(data, value);
      var n := BinCountOr(binCount);
      && IsSubsequence(h.metadata.value.binPlayers[i], data)
      && |h.metadata.value.binPlayers[i]| == h.binCounts[i]
      && (data[k] in h.metadata.value.binPlayers[i] <==> i == BinIndex(MinOf(vs), MaxOf(vs), n, value(data[k]).value))
  {
    var vs := ValidValues(data, value);
    BinMembers(data, value, MinOf(vs), MaxOf(vs), BinCountOr(binCount), data[k], i);
  }

  /** In exact arithmetic the counts add up to the number of present values. */
  lemma HistogramCountsSum(data: seq<SeasonRecord>, value: SeasonRecord -> Option<real>, stat: Option<string>, binCount: Option<int>)
    requires BinCountOr(binCount) > 0
    ensures Sum(HistogramOf(data, value, stat, binCount).binCounts) == |ValidValues(data, value)|
  {
    var vs := ValidValues(data, value);
    if vs != [] {
      CountsSum(data, value, MinOf(vs), MaxOf(vs), BinCountOr(binCount));
    }
  }

  /** When every value is the same, every bin but the last is empty. */
  lemma FlatBinEmpty(data: seq<SeasonRecord>, value: SeasonRecord -> Option<real>, v: real, n: nat, j: nat)
    requires j < n - 1
    ensures BinData(data, value, v, v, n, j) == []
  {
    var p := BinFilter(value, Edge(v, v, n, j), Edge(v, v, n, j + 1), false);
    FlatBins(v, n, j);
    FilterNone(data, p);
  }

  /** When the smallest and largest values coincide, the last bin holds every present value. */
  lemma HistogramFlat(data: seq<SeasonRecord>, value: SeasonRecord -> Option<real>, stat: Option<string>, binCount: Option<int>, i: nat)
    requires ValidValues(data, value) != [] && 0 <= i < BinCountOr(binCount)
    requires MinOf(ValidValues(data, value)) == MaxOf(ValidValues(data, value))
    ensures HistogramOf(data, value, stat, binCount).binCounts[i] ==
      if i == BinCountOr(binCount) - 1 then |ValidValues(data, value)| else 0
  {
    var vs := ValidValues(data, value);
    var n := BinCountOr(binCount);
    var lo := MinOf(vs);
    HistogramCountsSum(data, value, stat, binCount);
    var cs := HistogramOf(data, value, stat, binCount).binCounts;
    forall j | 0 <= j < n && j != n - 1 ensures cs[j] == 0 {
      FlatBinEmpty(data, value, lo, n, j);
    }
    SumSingle(cs, n - 1);
  }

  /** With four bins over 0..100 the maximum 100 lands in the last, closed bin and 25 in bin 1, not bin 0. */
  lemma EdgeInclusionExample()
    ensures InBin(100.0, 0.0, 100.0, 4, 3) && BinIndex(0.0, 100.0, 4, 100.0) == 3
    ensures InBin(25.0, 0.0, 100.0, 4, 1) && !InBin(25.0, 0.0, 100.0, 4, 0)
    ensures BinIndex(0.0, 100.0, 4, 25.0) == 1
  {
    BinExactlyOne(25.0, 0.0, 100.0, 4, 1);
  }
}
