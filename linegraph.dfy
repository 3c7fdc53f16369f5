/**
 * The line-chart builder of GraphService: per requested player, the (x, y)
 * pairs of the records where both values are present, stably sorted by x,
 * and unzipped into one dataset per player that has at least one point.
 */
module LineGraph {
  import opened Wrappers
  import opened Seqs
  import opened Records
  import opened StatAccessor
  import opened PlayerStore

  type Pair = (real, real)

  /** The (x, y) pair of a record, when both values are present. */
  function PairOf(r: SeasonRecord, xName: Option<string>, yName: Option<string>): Option<Pair> {
    var x := ValueForStat(r, xName);
    var y := ValueForStat(r, yName);
    if x.Some? && y.Some? then Some((x.value, y.value)) else None
  }

  /** The optional pair of each record, in record order. */
  function PairOptions(data: seq<SeasonRecord>, xName: Option<string>, yName: Option<string>): (os: seq<Option<Pair>>)
    ensures |os| == |data|
    ensures forall i :: 0 <= i < |data| ==> os[i] == PairOf(data[i], xName, yName)
  {
    seq(|data|, i requires 0 <= i < |data| => PairOf(data[i], xName, yName))
  }

  /** The pairs of the records, in record order, skipping records with a missing value. */
  function AxisPairs(data: seq<SeasonRecord>, xName: Option<string>, yName: Option<string>): (ps: seq<Pair>)
    ensures |ps| <= |data|
  {
    Somes(PairOptions(data, xName, yName))
  }

  /** Every record with both values contributes its pair. */
  lemma AxisPairsComplete(data: seq<SeasonRecord>, xName: Option<string>, yName: Option<string>)
    ensures forall i :: 0 <= i < |data| && PairOf(data[i], xName, yName).Some? ==>
      PairOf(data[i], xName, yName).value in AxisPairs(data, xName, yName)
  {
    SomesComplete(PairOptions(data, xName, yName));
  }

  /** Every pair comes from a record with both values. */
  lemma AxisPairsSound(data: seq<SeasonRecord>, xName: Option<string>, yName: Option<string>)
    ensures forall p :: p in AxisPairs(data, xName, yName) ==>
      exists i :: 0 <= i < |data| && PairOf(data[i], xName, yName) == Some(p)
  {
    var opts := PairOptions(data, xName, yName);
    SomesOrigin(opts);
    forall p | p in AxisPairs(data, xName, yName)
      ensures exists i :: 0 <= i < |data| && PairOf(data[i], xName, yName) == Some(p)
    {
      var j :| 0 <= j < |Somes(opts)| && Somes(opts)[j] == p;
      var i := SomeIndices(opts)[j];
      assert PairOf(data[i], xName, yName) == Some(p);
    }
  }

  // ------------------------------------------------------------- sorting

  predicate SortedByKey(ps: seq<Pair>) {
    forall i, j :: 0 <= i < j < |ps| ==> ps[i].0 <= ps[j].0
  }

  /** Inserts `p` into a key-sorted sequence after every pair whose key is at most its own. */
  function InsertByKey(s: seq<Pair>, p: Pair): (r: seq<Pair>)
    ensures multiset(r) == multiset(s) + multiset{p}
  {
    if s == [] then [p]
    else if p.0 < s[0].0 then [p] + s
    else
      assert s == [s[0]] + s[1..];
      [s[0]] + InsertByKey(s[1..], p)
  }

  /** The stable sort of `List.sort(Map.Entry.comparingByKey())`, as an insertion sort. */
  function SortByKey(ps: seq<Pair>): (r: seq<Pair>)
    ensures multiset(r) == multiset(ps)
    ensures SortedByKey(r)
  {
    if ps == [] then []
    else
      var front := SortByKey(ps[..|ps| - 1]);
      assert ps == ps[..|ps| - 1] + [ps[|ps| - 1]];
      InsertSorted(front, ps[|ps| - 1]);
      InsertByKey(front, ps[|ps| - 1])
  }

  lemma {:induction false} InsertSorted(s: seq<Pair>, p: Pair)
    requires SortedByKey(s)
    ensures SortedByKey(InsertByKey(s, p))
    decreases |s|
  {
    if s == [] {
    } else if p.0 < s[0].0 {
      forall x | x in s ensures p.0 <= x.0 {
        var i :| 0 <= i < |s| && s[i] == x;
        assert s[0].0 <= s[i].0;
      }
      PrependSorted(p, s);
    } else {
      var tail := InsertByKey(s[1..], p);
      SortedTailByKey(s);
      InsertSorted(s[1..], p);
      forall x | x in tail ensures s[0].0 <= x.0 {
        assert x in multiset(tail);
        assert x in multiset(s[1..]) || x == p;
      }
      PrependSorted(s[0], tail);
    }
  }

  lemma SortedTailByKey(s: seq<Pair>)
    requires s != [] && SortedByKey(s)
    ensures SortedByKey(s[1..])
  {
    forall i, j | 0 <= i < j < |s| - 1 ensures s[1..][i].0 <= s[1..][j].0 {
      assert s[1..][i] == s[i + 1] && s[1..][j] == s[j + 1];
    }
  }

  /** A pair whose key is at most every key of a sorted sequence can go in front of it. */
  lemma PrependSorted(p: Pair, s: seq<Pair>)
    requires SortedByKey(s) && forall x :: x in s ==> p.0 <= x.0
    ensures SortedByKey([p] + s)
  {
    var r := [p] + s;
    forall i, j | 0 <= i < j < |r| ensures r[i].0 <= r[j].0 {
      assert r[j] == s[j - 1];
      if i > 0 {
        assert r[i] == s[i - 1];
      }
    }
  }

  /** The pairs with key `k`. */
  function KeyIs(k: real): Pair -> bool {
    (p: Pair) => p.0 == k
  }

  /** A key smaller than every key of a sorted sequence selects nothing from it. */
  lemma NoSmallerKey(s: seq<Pair>, k: real)
    requires SortedByKey(s) && s != [] && k < s[0].0
    ensures Filter(s, KeyIs(k)) == []
  {
  }

  /** Insertion puts `p` after every pair with the same key. */
  lemma {:induction false} InsertWithKey(s: seq<Pair>, p: Pair, k: real)
    requires SortedByKey(s)
    ensures Filter(InsertByKey(s, p), KeyIs(k)) == Filter(s, KeyIs(k)) + (if p.0 == k then [p] else [])
    decreases |s|
  {
    if s == [] {
    } else if p.0 < s[0].0 {
      assert ([p] + s)[1..] == s;
      if p.0 == k { NoSmallerKey(s, k); }
    } else {
      var tail := InsertByKey(s[1..], p);
      InsertWithKey(s[1..], p, k);
      assert ([s[0]] + tail)[1..] == tail;
    }
  }

  /** The sort is stable: the pairs with any one key keep their relative order. */
  lemma {:induction false} SortStable(ps: seq<Pair>, k: real)
    ensures Filter(SortByKey(ps), KeyIs(k)) == Filter(ps, KeyIs(k))
    decreases |ps|
  {
    if ps != [] {
      var front := ps[..|ps| - 1];
      var last := ps[|ps| - 1];
      var extra := if last.0 == k then [last] else [];
      calc {
        Filter(SortByKey(ps), KeyIs(k));
        Filter(InsertByKey(SortByKey(front), last), KeyIs(k));
        { InsertWithKey(SortByKey(front), last, k); }
        Filter(SortByKey(front), KeyIs(k)) + extra;
        { SortStable(front, k); }
        Filter(front, KeyIs(k)) + extra;
        { FilterSnoc(front, last, KeyIs(k)); assert ps == front + [last]; }
        Filter(ps, KeyIs(k));
      }
    }
  }

  // ------------------------------------------------------------- series

  function Keys(ps: seq<Pair>): (xs: seq<real>)
    ensures |xs| == |ps|
    ensures forall i :: 0 <= i < |ps| ==> xs[i] == ps[i].0
  {
    seq(|ps|, i requires 0 <= i < |ps| => ps[i].0)
  }

  function Values(ps: seq<Pair>): (ys: seq<real>)
    ensures |ys| == |ps|
    ensures forall i :: 0 <= i < |ps| ==> ys[i] == ps[i].1
  {
    seq(|ps|, i requires 0 <= i < |ps| => ps[i].1)
  }

  lemma KeysSnoc(ps: seq<Pair>, p: Pair)
    ensures Keys(ps + [p]) == Keys(ps) + [p.0]
    ensures Values(ps + [p]) == Values(ps) + [p.1]
  {
  }

  predicate Ascending(xs: seq<real>) {
    forall i, j :: 0 <= i < j < |xs| ==> xs[i] <= xs[j]
  }

  /** The sorted pairs of one player's records. */
  function Series(data: seq<SeasonRecord>, xName: Option<string>, yName: Option<string>): seq<Pair> {
    SortByKey(AxisPairs(data, xName, yName))
  }

  /** The collecting loop of `generateLineGraph`: the present x and y values, in record order. */
  method CollectValues(data: seq<SeasonRecord>, xName: Option<string>, yName: Option<string>)
    returns (xValues: seq<real>, yValues: seq<real>)
    ensures xValues == Keys(AxisPairs(data, xName, yName))
    ensures yValues == Values(AxisPairs(data, xName, yName))
  {
    ghost var opts := PairOptions(data, xName, yName);
    xValues := [];
    yValues := [];
    for k := 0 to |data|
      invariant xValues == Keys(Somes(opts[..k]))
      invariant yValues == Values(Somes(opts[..k]))
    {
      ghost var before := Somes(opts[..k]);
      SomesPrefix(opts, k);
      var x := ValueForStat(data[k], xName);
      var y := ValueForStat(data[k], yName);
      assert opts[k] == if x.Some? && y.Some? then Some((x.value, y.value)) else None;
      if x.Some? && y.Some? {
        assert Somes(opts[..k + 1]) == before + [(x.value, y.value)];
        KeysSnoc(before, (x.value, y.value));
        xValues := xValues + [x.value];
        yValues := yValues + [y.value];
      } else {
        assert Somes(opts[..k + 1]) == before;
      }
    }
    assert opts[..|data|] == opts;
  }

  /** The pairs of two equally long value lists. */
  function Zip(xs: seq<real>, ys: seq<real>): (ps: seq<Pair>)
    requires |xs| == |ys|
    ensures |ps| == |xs|
    ensures forall i :: 0 <= i < |xs| ==> ps[i] == (xs[i], ys[i])
  {
    seq(|xs|, i requires 0 <= i < |xs| => (xs[i], ys[i]))
  }

  /** Unzipping and zipping again gives back the pairs. */
  lemma ZipUnzip(ps: seq<Pair>)
    ensures Zip(Keys(ps), Values(ps)) == ps
  {
  }

  /** The zip, sort and unzip of `generateLineGraph`. */
  method SortPairs(xValues: seq<real>, yValues: seq<real>) returns (xs: seq<real>, ys: seq<real>)
    requires |xValues| == |yValues|
    ensures xs == Keys(SortByKey(Zip(xValues, yValues)))
    ensures ys == Values(SortByKey(Zip(xValues, yValues)))
  {
    ghost var zipped := Zip(xValues, yValues);
    var pairs: seq<Pair> := [];
    for j := 0 to |xValues|
      invariant pairs == zipped[..j]
    {
      assert zipped[..j + 1] == zipped[..j] + [(xValues[j], yValues[j])];
      pairs := pairs + [(xValues[j], yValues[j])];
    }
    assert pairs == zipped;
    pairs := SortByKey(pairs);
    xs := [];
    ys := [];
    for j := 0 to |pairs|
      invariant xs == Keys(pairs[..j]) && ys == Values(pairs[..j])
    {
      assert pairs[..j + 1] == pairs[..j] + [pairs[j]];
      KeysSnoc(pairs[..j], pairs[j]);
      xs := xs + [pairs[j].0];
      ys := ys + [pairs[j].1];
    }
    assert pairs[..|pairs|] == pairs;
  }

  /**
   * One player's pass of `generateLineGraph`: collect the present (x, y)
   * values, zip them into pairs, sort the pairs by x and unzip them.
   */
  method BuildSeries(data: seq<SeasonRecord>, xName: Option<string>, yName: Option<string>)
    returns (xs: seq<real>, ys: seq<real>)
    ensures xs == Keys(Series(data, xName, yName))
    ensures ys == Values(Series(data, xName, yName))
  {
    var xValues, yValues := CollectValues(data, xName, yName);
    ZipUnzip(AxisPairs(data, xName, yName));
    xs, ys := SortPairs(xValues, yValues);
  }

  /** Each series is sorted by x, has as many x as y values, and pairs up exactly the collected values. */
  lemma SeriesProperties(data: seq<SeasonRecord>, xName: Option<string>, yName: Option<string>)
    ensures Ascending(Keys(Series(data, xName, yName)))
    ensures |Keys(Series(data, xName, yName))| == |Values(Series(data, xName, yName))| == |AxisPairs(data, xName, yName)|
    ensures multiset(Series(data, xName, yName)) == multiset(AxisPairs(data, xName, yName))
  {
    var s := Series(data, xName, yName);
    assert |s| == |AxisPairs(data, xName, yName)| by {
      assert |multiset(s)| == |multiset(AxisPairs(data, xName, yName))|;
    }
  }

  // ----------------------------------------------------------- datasets

  datatype LineDataset = LineDataset(legendLabel: string, xValues: seq<real>, yValues: seq<real>, borderColor: string, fill: bool)

  /** The sorted series of every requested player, in request order. */
  function PlayerSeries(st: Store, players: seq<string>, fc: FilterCriteria, xName: Option<string>, yName: Option<string>): (ss: seq<seq<Pair>>)
    ensures |ss| == |players|
  {
    seq(|players|, i requires 0 <= i < |players| => Series(PlayerData(st, players[i], fc), xName, yName))
  }

  /** The dataset of the player at index `i` with series `s`, or none when the series is empty. */
  function DatasetOf(player: string, i: nat, s: seq<Pair>): Option<LineDataset> {
    if s == [] then None
    else Some(LineDataset(player, Keys(s), Values(s), ColorForIndex(i), false))
  }

  /** The optional dataset of each requested player, in request order. */
  function DatasetOptions(players: seq<string>, series: seq<seq<Pair>>): (os: seq<Option<LineDataset>>)
    requires |players| == |series|
    ensures |os| == |players|
    ensures forall i :: 0 <= i < |players| ==> os[i] == DatasetOf(players[i], i, series[i])
  {
    seq(|players|, i requires 0 <= i < |players| => DatasetOf(players[i], i, series[i]))
  }

  /** The datasets of the requested players that have one, in request order. */
  function LineDatasets(players: seq<string>, series: seq<seq<Pair>>): (ds: seq<LineDataset>)
    requires |players| == |series|
    ensures |ds| <= |players|
  {
    Somes(DatasetOptions(players, series))
  }

  /** The player loop of `generateLineGraph`; a request without a player list has no dataset. */
  method BuildLineDatasets(st: Store, players: Option<seq<string>>, fc: FilterCriteria, xName: Option<string>, yName: Option<string>)
    returns (datasets: seq<LineDataset>)
    ensures players.None? ==> datasets == []
    ensures players.Some? ==>
      datasets == LineDatasets(players.value, PlayerSeries(st, players.value, fc, xName, yName))
  {
    datasets := [];
    if players.Some? {
      var names := players.value;
      ghost var series := PlayerSeries(st, names, fc, xName, yName);
      ghost var opts := DatasetOptions(names, series);
      for i := 0 to |names|
        invariant datasets == Somes(opts[..i])
      {
        var playerData := PlayerData(st, names[i], fc);
        var xs, ys := BuildSeries(playerData, xName, yName);
        assert series[i] == Series(playerData, xName, yName);
        SomesPrefix(opts, i);
        assert |xs| == |series[i]|;
        if xs != [] {
          assert opts[i] == Some(LineDataset(names[i], xs, ys, ColorForIndex(i), false));
          datasets := datasets + [LineDataset(names[i], xs, ys, ColorForIndex(i), false)];
        } else {
          assert opts[i].None?;
        }
      }
      assert opts[..|names|] == opts;
    }
  }

  /**
   * The `j`-th emitted dataset belongs to the requested player at index
   * `i`: it is labelled with that player's name, coloured by `i`, unfilled,
   * non-empty, sorted by x, and has as many x as y values. The indices of
   * the emitted datasets strictly increase: request order is kept.
   */
  lemma LineDatasetsWellFormed(players: seq<string>, series: seq<seq<Pair>>, j: nat)
    requires |players| == |series|
    requires forall i :: 0 <= i < |series| ==> SortedByKey(series[i])
    requires j < |LineDatasets(players, series)|
    ensures var i := SomeIndices(DatasetOptions(players, series))[j];
      var d := LineDatasets(players, series)[j];
      && i < |players|
      && d.legendLabel == players[i] && d.borderColor == ColorForIndex(i)
      && !d.fill && 0 < |d.xValues| == |d.yValues| && Ascending(d.xValues)
    ensures forall k :: j < k < |LineDatasets(players, series)| ==>
      SomeIndices(DatasetOptions(players, series))[j] < SomeIndices(DatasetOptions(players, series))[k]
  {
    var opts := DatasetOptions(players, series);
    SomesOrigin(opts);
    var i := SomeIndices(opts)[j];
    DatasetOfWellFormed(players[i], i, series[i]);
  }

  /** A dataset built from a sorted series carries the player's label and colour and is sorted by x. */
  lemma DatasetOfWellFormed(player: string, i: nat, s: seq<Pair>)
    requires SortedByKey(s) && DatasetOf(player, i, s).Some?
    ensures DatasetOf(player, i, s).value.legendLabel == player
    ensures DatasetOf(player, i, s).value.borderColor == ColorForIndex(i)
    ensures !DatasetOf(player, i, s).value.fill
    ensures 0 < |DatasetOf(player, i, s).value.xValues| == |DatasetOf(player, i, s).value.yValues|
    ensures Ascending(DatasetOf(player, i, s).value.xValues)
  {
    SortedKeysAscending(s);
  }

  lemma SortedKeysAscending(s: seq<Pair>)
    requires SortedByKey(s)
    ensures Ascending(Keys(s))
  {
  }

  /** Every requested player with a non-empty series has a dataset among the emitted ones. */
  lemma LineDatasetsComplete(players: seq<string>, series: seq<seq<Pair>>, i: nat)
    requires |players| == |series| && i < |players| && series[i] != []
    ensures LineDataset(players[i], Keys(series[i]), Values(series[i]), ColorForIndex(i), false) in LineDatasets(players, series)
  {
    SomesComplete(DatasetOptions(players, series));
  }

  /**
   * A player's series is non-empty, and so the player gets a dataset,
   * exactly when at least one of their filtered records has both values.
   */
  lemma SeriesNonEmptyIff(data: seq<SeasonRecord>, xName: Option<string>, yName: Option<string>)
    ensures Series(data, xName, yName) != [] <==>
      exists j :: 0 <= j < |data| && PairOf(data[j], xName, yName).Some?
  {
    AxisPairsComplete(data, xName, yName);
    AxisPairsSound(data, xName, yName);
    SeriesProperties(data, xName, yName);
    if AxisPairs(data, xName, yName) != [] {
      assert AxisPairs(data, xName, yName)[0] in AxisPairs(data, xName, yName);
    }
  }
}
