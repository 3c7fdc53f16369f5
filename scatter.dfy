/**
 * The scatter-plot builder of GraphService: one grey point per gathered
 * record whose two stats are both present, in record order.
 */
module Scatter {
  import opened Wrappers
  import opened Seqs
  import opened Records
  import opened StatAccessor

  datatype ScatterPoint = ScatterPoint(
    x: real, y: real, player: string, team: Option<string>, year: int, pointLabel: string, color: string)

  /** Every point is drawn in the same light grey. */
  const PointColor: string := "#D3D3D3"

  /** The point of a record, when both of its values are present. */
  function PointOf(r: SeasonRecord, xName: Option<string>, yName: Option<string>): Option<ScatterPoint> {
    var x := ValueForStat(r, xName);
    var y := ValueForStat(r, yName);
    if x.Some? && y.Some? then Some(ScatterPoint(x.value, y.value, r.player, r.team, r.year, r.player, PointColor))
    else None
  }

  function PointOptions(data: seq<SeasonRecord>, xName: Option<string>, yName: Option<string>): (os: seq<Option<ScatterPoint>>)
    ensures |os| == |data|
    ensures forall i :: 0 <= i < |data| ==> os[i] == PointOf(data[i], xName, yName)
  {
    seq(|data|, i requires 0 <= i < |data| => PointOf(data[i], xName, yName))
  }

  /** The points of the records that have both values, in record order. */
  function ScatterPoints(data: seq<SeasonRecord>, xName: Option<string>, yName: Option<string>): (ps: seq<ScatterPoint>)
    ensures |ps| <= |data|
  {
    Somes(PointOptions(data, xName, yName))
  }

  /** The point loop of `generateScatterPlot`. */
  method BuildPoints(data: seq<SeasonRecord>, xName: Option<string>, yName: Option<string>) returns (points: seq<ScatterPoint>)
    ensures points == ScatterPoints(data, xName, yName)
  {
    ghost var opts := PointOptions(data, xName, yName);
    points := [];
    for k := 0 to |data|
      invariant points == Somes(opts[..k])
    {
      SomesPrefix(opts, k);
      var xValue := ValueForStat(data[k], xName);
      var yValue := ValueForStat(data[k], yName);
      if xValue.Some? && yValue.Some? {
        var point := ScatterPoint(xValue.value, yValue.value, data[k].player, data[k].team, data[k].year, data[k].player, PointColor);
        assert opts[k] == Some(point);
        points := points + [point];
      } else {
        assert opts[k].None?;
      }
    }
    assert opts[..|data|] == opts;
  }

  /**
   * The `j`-th point comes from the record at index `SomeIndices(...)[j]`:
   * it carries that record's two values, player, team and season, is
   * labelled with the player and grey, and the indices strictly increase.
   */
  lemma PointsFromRecords(data: seq<SeasonRecord>, xName: Option<string>, yName: Option<string>, j: nat)
    requires j < |ScatterPoints(data, xName, yName)|
    ensures var k := SomeIndices(PointOptions(data, xName, yName))[j];
      var p := ScatterPoints(data, xName, yName)[j];
      && k < |data|
      && Some(p.x) == ValueForStat(data[k], xName) && Some(p.y) == ValueForStat(data[k], yName)
      && p.player == data[k].player && p.pointLabel == data[k].player
      && p.team == data[k].team && p.year == data[k].year && p.color == PointColor
    ensures forall m :: j < m < |ScatterPoints(data, xName, yName)| ==>
      SomeIndices(PointOptions(data, xName, yName))[j] < SomeIndices(PointOptions(data, xName, yName))[m]
  {
    SomesOrigin(PointOptions(data, xName, yName));
  }

  /** Every record with both values has its point among the points. */
  lemma PointsComplete(data: seq<SeasonRecord>, xName: Option<string>, yName: Option<string>, k: nat)
    requires k < |data| && ValueForStat(data[k], xName).Some? && ValueForStat(data[k], yName).Some?
    ensures PointOf(data[k], xName, yName).Some?
    ensures PointOf(data[k], xName, yName).value in ScatterPoints(data, xName, yName)
  {
    SomesComplete(PointOptions(data, xName, yName));
  }

  /** The scatter response: the points and the two axis stats as metadata. */
  datatype ScatterData = ScatterData(points: seq<ScatterPoint>, xAxisStat: Option<string>, yAxisStat: Option<string>)

  /** `generateScatterPlot` after the records are gathered. */
  method BuildScatter(data: seq<SeasonRecord>, xName: Option<string>, yName: Option<string>) returns (s: ScatterData)
    ensures s == ScatterData(ScatterPoints(data, xName, yName), xName, yName)
  {
    var points := BuildPoints(data, xName, yName);
    s := ScatterData(points, xName, yName);
  }
}
