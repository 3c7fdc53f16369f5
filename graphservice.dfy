/**
 * `GraphService.generateGraph`: the request object gets its missing axis
 * selectors filled in for its graph type, and is then handed to the line,
 * histogram or scatter builder; any other graph type is refused.
 */
module GraphService {
  import opened Wrappers
  import opened Records
  import opened PlayerStore
  import opened LineGraph
  import opened Histogram
  import opened Scatter

  /** The fields of a chart request that `generateGraph` and the builders read. */
  datatype Request = Request(
    graphType: Option<string>,
    xAxisType: Option<string>,      // line chart axes
    yAxisType: Option<string>,
    stat: Option<string>,           // histogram stat
    xAxisStat: Option<string>,      // scatter axes
    yAxisStat: Option<string>,
    year: Option<int>,
    years: Option<seq<int>>,
    players: Option<seq<string>>,
    binCount: Option<int>,
    criteria: FilterCriteria
  )

  /** The chart of a response together with the metadata its builder attaches. */
  datatype Chart =
    | LineChart(datasets: seq<LineDataset>, xAxisType: Option<string>, yAxisType: Option<string>)
    | HistogramChart(histogram: HistogramData)
    | ScatterChart(scatter: ScatterData)

  datatype GraphResponse = GraphResponse(graphType: string, chart: Chart)

  /** A null graph type fails the `switch` (NullPointerException); an unknown one is refused. */
  datatype GraphError = MissingGraphType | UnsupportedGraphType(graphType: string)

  function OrDefault(o: Option<string>, d: string): Option<string> {
    if o.None? then Some(d) else o
  }

  /** The defaulting `switch` of `generateGraph`. */
  function WithDefaults(q: Request): Request {
    if q.graphType == Some("line") then
      q.(xAxisType := OrDefault(q.xAxisType, "age"), yAxisType := OrDefault(q.yAxisType, "points"))
    else if q.graphType == Some("histogram") then
      q.(stat := OrDefault(q.stat, "points"))
    else if q.graphType == Some("scatter") then
      q.(xAxisStat := OrDefault(q.xAxisStat, "steals"), yAxisStat := OrDefault(q.yAxisStat, "blocks"))
    else q
  }

  /** `generateLineGraph` on a defaulted request. */
  function LineChartOf(st: Store, q: Request): Chart {
    var datasets :=
      if q.players.None? then []
      else LineDatasets(q.players.value, PlayerSeries(st, q.players.value, q.criteria, q.xAxisType, q.yAxisType));
    LineChart(datasets, q.xAxisType, q.yAxisType)
  }

  /** `generateHistogram` on a defaulted request. */
  function HistogramChartOf(st: Store, q: Request): Chart {
    var data := ChartData(st, q.years, q.year, q.criteria);
    HistogramChart(HistogramOf(data, StatValue(q.stat), q.stat, q.binCount))
  }

  /** `generateScatterPlot` on a defaulted request. */
  function ScatterChartOf(st: Store, q: Request): Chart {
    var data := ChartData(st, q.years, q.year, q.criteria);
    ScatterChart(ScatterData(ScatterPoints(data, q.xAxisStat, q.yAxisStat), q.xAxisStat, q.yAxisStat))
  }

  /** `generateGraph`: defaults, then the builder of the graph type. */
  function Generate(st: Store, q: Request): Result<GraphResponse, GraphError> {
    if q.graphType.None? then Failure(MissingGraphType)
    else
      var t := q.graphType.value;
      var d := WithDefaults(q);
      if t == "line" then Success(GraphResponse(t, LineChartOf(st, d)))
      else if t == "histogram" then Success(GraphResponse(t, HistogramChartOf(st, d)))
      else if t == "scatter" then Success(GraphResponse(t, ScatterChartOf(st, d)))
      else Failure(UnsupportedGraphType(t))
  }

  /** The request object, whose selectors `generateGraph` overwrites through its setters. */
  class GraphRequest {
    var graphType: Option<string>
    var xAxisType: Option<string>
    var yAxisType: Option<string>
    var stat: Option<string>
    var xAxisStat: Option<string>
    var yAxisStat: Option<string>
    var year: Option<int>
    var years: Option<seq<int>>
    var players: Option<seq<string>>
    var binCount: Option<int>
    var minGamesPlayed: Option<int>
    var minMinutesPerGame: Option<int>
    var positions: Option<seq<string>>
    var awards: Option<seq<string>>
    var teamsFilter: Option<seq<string>>
    var ageRange: Option<seq<string>>

    /** The current field values. */
    function Snapshot(): Request
      reads this
    {
      Request(graphType, xAxisType, yAxisType, stat, xAxisStat, yAxisStat, year, years, players, binCount,
              FilterCriteria(minGamesPlayed, minMinutesPerGame, positions, awards, teamsFilter, ageRange))
    }

    constructor (q: Request)
      ensures Snapshot() == q
    {
      graphType, xAxisType, yAxisType, stat := q.graphType, q.xAxisType, q.yAxisType, q.stat;
      xAxisStat, yAxisStat, year, years := q.xAxisStat, q.yAxisStat, q.year, q.years;
      players, binCount := q.players, q.binCount;
      minGamesPlayed, minMinutesPerGame := q.criteria.minGamesPlayed, q.criteria.minMinutesPerGame;
      positions, awards := q.criteria.positions, q.criteria.awards;
      teamsFilter, ageRange := q.criteria.teamsFilter, q.criteria.ageRange;
    }

    /** The first `switch` of `generateGraph`: a setter call for each missing selector of the graph type. */
    method ApplyDefaults()
      modifies this
      ensures Snapshot() == WithDefaults(old(Snapshot()))
    {
      if graphType == Some("line") {
        if xAxisType.None? { xAxisType := Some("age"); }
        if yAxisType.None? { yAxisType := Some("points"); }
      } else if graphType == Some("histogram") {
        if stat.None? { stat := Some("points"); }
      } else if graphType == Some("scatter") {
        if xAxisStat.None? { xAxisStat := Some("steals"); }
        if yAxisStat.None? { yAxisStat := Some("blocks"); }
      }
    }

    /**
     * `generateGraph`: a null graph type fails before the request is touched;
     * otherwise the defaults are written into the request and the builder of
     * the graph type runs on it.
     */
    method GenerateGraph(st: Store) returns (r: Result<GraphResponse, GraphError>)
      modifies this
      ensures Snapshot() == WithDefaults(old(Snapshot()))
      ensures r == Generate(st, old(Snapshot()))
    {
      if graphType.None? {
        return Failure(MissingGraphType);
      }
      var t := graphType.value;
      ApplyDefaults();
      var fc := FilterCriteria(minGamesPlayed, minMinutesPerGame, positions, awards, teamsFilter, ageRange);
      if t == "line" {
        var datasets := BuildLineDatasets(st, players, fc, xAxisType, yAxisType);
        r := Success(GraphResponse(t, LineChart(datasets, xAxisType, yAxisType)));
      } else if t == "histogram" {
        var data := GatherChartData(st, years, year, fc);
        var h := BuildHistogram(data, stat, binCount);
        r := Success(GraphResponse(t, HistogramChart(h)));
      } else if t == "scatter" {
        var data := GatherChartData(st, years, year, fc);
        var s := BuildScatter(data, xAxisStat, yAxisStat);
        r := Success(GraphResponse(t, ScatterChart(s)));
      } else {
        r := Failure(UnsupportedGraphType(t));
      }
    }
  }

  // ------------------------------------------------------------ properties

  /**
   * Defaulting changes only the selectors, and never one that was supplied;
   * a graph type other than the three known ones changes nothing.
   */
  lemma DefaultsKeepSupplied(q: Request)
    ensures var d := WithDefaults(q);
      && d.(xAxisType := q.xAxisType, yAxisType := q.yAxisType, stat := q.stat,
            xAxisStat := q.xAxisStat, yAxisStat := q.yAxisStat) == q
      && (q.xAxisType.Some? ==> d.xAxisType == q.xAxisType)
      && (q.yAxisType.Some? ==> d.yAxisType == q.yAxisType)
      && (q.stat.Some? ==> d.stat == q.stat)
      && (q.xAxisStat.Some? ==> d.xAxisStat == q.xAxisStat)
      && (q.yAxisStat.Some? ==> d.yAxisStat == q.yAxisStat)
    ensures q.graphType !in {Some("line"), Some("histogram"), Some("scatter")} ==> WithDefaults(q) == q
  {
  }

  /**
   * Each graph type gets exactly its own selectors filled: a line chart age
   * against points, a histogram points, a scatter plot steals against blocks.
   */
  lemma DefaultsFill(q: Request)
    ensures q.graphType == Some("line") ==>
      && WithDefaults(q).xAxisType == (if q.xAxisType.None? then Some("age") else q.xAxisType)
      && WithDefaults(q).yAxisType == (if q.yAxisType.None? then Some("points") else q.yAxisType)
      && WithDefaults(q).(xAxisType := q.xAxisType, yAxisType := q.yAxisType) == q
    ensures q.graphType == Some("histogram") ==>
      && WithDefaults(q).stat == (if q.stat.None? then Some("points") else q.stat)
      && WithDefaults(q).(stat := q.stat) == q
    ensures q.graphType == Some("scatter") ==>
      && WithDefaults(q).xAxisStat == (if q.xAxisStat.None? then Some("steals") else q.xAxisStat)
      && WithDefaults(q).yAxisStat == (if q.yAxisStat.None? then Some("blocks") else q.yAxisStat)
      && WithDefaults(q).(xAxisStat := q.xAxisStat, yAxisStat := q.yAxisStat) == q
  {
  }

  /** Running the defaulting again changes nothing. */
  lemma DefaultsIdempotent(q: Request)
    ensures WithDefaults(WithDefaults(q)) == WithDefaults(q)
  {
  }

  /**
   * A response exists exactly for the three known graph types; it carries
   * the requested type and the chart of that type. Otherwise the error
   * names the missing or unsupported type.
   */
  lemma GenerateOutcome(st: Store, q: Request)
    ensures Generate(st, q).Success? <==> q.graphType in {Some("line"), Some("histogram"), Some("scatter")}
    ensures q.graphType.None? ==> Generate(st, q) == Failure(MissingGraphType)
    ensures q.graphType.Some? && q.graphType.value !in {"line", "histogram", "scatter"} ==>
      Generate(st, q) == Failure(UnsupportedGraphType(q.graphType.value))
    ensures Generate(st, q).Success? ==>
      && Some(Generate(st, q).value.graphType) == q.graphType
      && (q.graphType == Some("line") <==> Generate(st, q).value.chart.LineChart?)
      && (q.graphType == Some("histogram") <==> Generate(st, q).value.chart.HistogramChart?)
      && (q.graphType == Some("scatter") <==> Generate(st, q).value.chart.ScatterChart?)
  {
  }

  /**
   * A line chart's axes are never null in the response metadata, and they
   * are the supplied ones when supplied.
   */
  lemma LineAxesPresent(st: Store, q: Request)
    requires q.graphType == Some("line")
    ensures Generate(st, q).Success? && Generate(st, q).value.chart.LineChart?
    ensures var c := Generate(st, q).value.chart;
      && c.xAxisType.Some? && c.yAxisType.Some?
      && (q.xAxisType.Some? ==> c.xAxisType == q.xAxisType)
      && (q.yAxisType.Some? ==> c.yAxisType == q.yAxisType)
  {
    var d := WithDefaults(q);
    assert d.xAxisType == OrDefault(q.xAxisType, "age") && d.yAxisType == OrDefault(q.yAxisType, "points");
    assert Generate(st, q) == Success(GraphResponse("line", LineChartOf(st, d)));
  }

  /**
   * The builder of a scatter plot always sees its two stats present, and
   * they are the supplied ones when supplied.
   */
  lemma ScatterStatsPresent(st: Store, q: Request)
    requires q.graphType == Some("scatter")
    ensures Generate(st, q).Success? && Generate(st, q).value.chart.ScatterChart?
    ensures var s := Generate(st, q).value.chart.scatter;
      && s.xAxisStat.Some? && s.yAxisStat.Some?
      && (q.xAxisStat.Some? ==> s.xAxisStat == q.xAxisStat)
      && (q.yAxisStat.Some? ==> s.yAxisStat == q.yAxisStat)
  {
    var d := WithDefaults(q);
    assert d.xAxisStat == OrDefault(q.xAxisStat, "steals") && d.yAxisStat == OrDefault(q.yAxisStat, "blocks");
    assert Generate(st, q) == Success(GraphResponse("scatter", ScatterChartOf(st, d)));
    assert ScatterChartOf(st, d).scatter.xAxisStat == d.xAxisStat;
    assert ScatterChartOf(st, d).scatter.yAxisStat == d.yAxisStat;
  }

  /** A line request without a player list gives a line chart with no dataset. */
  lemma LineWithoutPlayers(st: Store, q: Request)
    requires q.graphType == Some("line") && q.players.None?
    ensures Generate(st, q).Success? && Generate(st, q).value.chart.datasets == []
  {
  }

  /**
   * The histogram of a request is drawn from the defaulted stat, whose name
   * is the metadata whenever there are values to bin.
   */
  lemma HistogramStatPresent(st: Store, q: Request)
    requires q.graphType == Some("histogram")
    ensures Generate(st, q).Success?
    ensures var h := Generate(st, q).value.chart.histogram;
      h.metadata.Some? ==> h.metadata.value.stat.Some? && (q.stat.Some? ==> h.metadata.value.stat == q.stat)
  {
  }
}
