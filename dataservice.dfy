/**
 * The routing of `DataService.getDataForAnalysis`: the four text fields of
 * an analysis are matched against fixed keywords to choose which data query
 * answers it, and the query arguments (player names, season, stats, team)
 * are picked out of the same text.
 */
module DataService {
  import opened Wrappers
  import opened JavaText

  /** The four fields `getDataForAnalysis` reads from the analysis JSON. */
  datatype Analysis = Analysis(playerName: string, statType: string, chartType: string, timePeriod: string)

  /** The data query an analysis is routed to; `NoData` is the reply "[]". */
  datatype Route =
    | PlayerComparison(player1: string, player2: string, statType: string)
    | SeasonAnalysis(season: string, statType: string, limit: int)
    | ScatterPlotData(season: string, xStat: string, yStat: string)
    | TeamStats(team: string)
    | PlayerStats(playerName: string, statType: string)
    | NoData

  // ------------------------------------------------------ keyword lists

  /** The index of the first candidate that occurs in `s`, if any. */
  function FirstContained(s: string, candidates: seq<string>): (r: Option<nat>)
    ensures r.Some? ==> r.value < |candidates| && Contains(s, candidates[r.value])
    ensures r.Some? ==> forall j :: 0 <= j < r.value ==> !Contains(s, candidates[j])
    ensures r.None? ==> forall j :: 0 <= j < |candidates| ==> !Contains(s, candidates[j])
  {
    if candidates == [] then None
    else if Contains(s, candidates[0]) then Some(0)
    else
      var rest := FirstContained(s, candidates[1..]);
      if rest.None? then None else Some(rest.value + 1)
  }

  /** The first candidate that occurs in `s`, or `fallback`. */
  function FirstContainedOr(s: string, candidates: seq<string>, fallback: string): string {
    var k := FirstContained(s, candidates);
    if k.Some? then candidates[k.value] else fallback
  }

  /** `FirstContainedOr` returns the earliest candidate occurring in `s`, or the fallback when none does. */
  lemma FirstContainedOrSpec(s: string, candidates: seq<string>, fallback: string)
    ensures var r := FirstContainedOr(s, candidates, fallback);
      || (exists k :: 0 <= k < |candidates| && r == candidates[k] && Contains(s, candidates[k])
                      && forall j :: 0 <= j < k ==> !Contains(s, candidates[j]))
      || (r == fallback && forall j :: 0 <= j < |candidates| ==> !Contains(s, candidates[j]))
  {
  }

  const StatNames: seq<string> := ["points", "assists", "rebounds", "steals", "blocks", "field_goal_pct", "three_pt_pct", "turnovers"]

  const TeamNames: seq<string> := ["Lakers", "Warriors", "Celtics", "Bulls", "Heat", "Knicks", "Nets", "Clippers", "Suns", "Mavericks"]

  /** The seasons `extractSeason` looks for, latest first. */
  const SeasonNames: seq<string> := [
    "2025", "2024", "2023", "2022", "2021", "2020", "2019", "2018",
    "2017", "2016", "2015", "2014", "2013", "2012", "2011", "2010"]

  /** `extractStat`: the first stat name mentioned, else points. */
  function ExtractStat(analysis: string): (r: string)
    ensures r in StatNames
  {
    FirstContainedOr(analysis, StatNames, "points")
  }

  /** `extractTeam`: the first team name mentioned (case-sensitive), else the Lakers. */
  function ExtractTeam(analysis: string): (r: string)
    ensures r in TeamNames
  {
    FirstContainedOr(analysis, TeamNames, "Lakers")
  }

  /** The stat pairs `extractStats` looks for, in order. */
  const StatPairs: seq<seq<string>> := [["points", "assists"], ["points", "rebounds"], ["assists", "rebounds"]]

  /** `extractStats`: the first pair both of whose stats are mentioned, else points and assists. */
  function ExtractStats(analysis: string): (r: seq<string>)
    ensures r in StatPairs && |r| == 2
  {
    if Contains(analysis, "points") && Contains(analysis, "assists") then ["points", "assists"]
    else if Contains(analysis, "points") && Contains(analysis, "rebounds") then ["points", "rebounds"]
    else if Contains(analysis, "assists") && Contains(analysis, "rebounds") then ["assists", "rebounds"]
    else ["points", "assists"]
  }

  /** Both stats of the `k`-th pair are mentioned. */
  predicate PairMentioned(analysis: string, k: nat)
    requires k < |StatPairs|
  {
    Contains(analysis, StatPairs[k][0]) && Contains(analysis, StatPairs[k][1])
  }

  /**
   * The chosen pair is the first pair of the list whose two stats both occur,
   * or the first pair when none does.
   */
  lemma ExtractStatsFirstPair(analysis: string)
    ensures var r := ExtractStats(analysis);
      || (exists k :: 0 <= k < |StatPairs| && r == StatPairs[k] && PairMentioned(analysis, k)
            && forall j :: 0 <= j < k ==> !PairMentioned(analysis, j))
      || (r == StatPairs[0] && forall j :: 0 <= j < |StatPairs| ==> !PairMentioned(analysis, j))
  {
    var r := ExtractStats(analysis);
    assert PairMentioned(analysis, 0) == (Contains(analysis, "points") && Contains(analysis, "assists"));
    assert PairMentioned(analysis, 1) == (Contains(analysis, "points") && Contains(analysis, "rebounds"));
    assert PairMentioned(analysis, 2) == (Contains(analysis, "assists") && Contains(analysis, "rebounds"));
    if PairMentioned(analysis, 0) {
      assert r == StatPairs[0];
    } else if PairMentioned(analysis, 1) {
      assert r == StatPairs[1];
    } else if PairMentioned(analysis, 2) {
      assert r == StatPairs[2];
    }
  }

  // ------------------------------------------------------------ seasons

  /** The season names are the years 2025 down to 2010. */
  lemma SeasonNamesAreYears()
    ensures |SeasonNames| == 16
    ensures forall i :: 0 <= i < 16 ==> SeasonNames[i] == DecimalString(2025 - i)
  {
    forall i | 0 <= i < 16 ensures SeasonNames[i] == DecimalString(2025 - i) {
      TwentyTensYear(2025 - i);
    }
  }

  /** The decimal rendering of a year from 2010 to 2029. */
  lemma TwentyTensYear(y: nat)
    requires 2010 <= y <= 2029
    ensures DecimalString(y) == ['2', '0', if y < 2020 then '1' else '2', DigitChar(y % 10)]
  {
    assert DecimalString(y) == DecimalString(y / 10) + [DigitChar(y % 10)];
    assert DecimalString(y / 10) == DecimalString(y / 100) + [DigitChar((y / 10) % 10)];
    assert DecimalString(y / 100) == DecimalString(2) + [DigitChar(0)];
  }

  /**
   * `extractSeason`: the latest of the years 2025..2010 the text mentions;
   * else the last season of the store (`availableSeasons` is `None` when
   * that query fails); else "2023".
   */
  function ExtractSeason(analysis: string, availableSeasons: Option<seq<string>>): string {
    var k := FirstContained(analysis, SeasonNames);
    if k.Some? then SeasonNames[k.value]
    else if availableSeasons.Some? && availableSeasons.value != [] then availableSeasons.value[|availableSeasons.value| - 1]
    else "2023"
  }

  /** A mentioned year between 2010 and 2025 makes the latest mentioned year of that range the season. */
  lemma ExtractSeasonLatest(analysis: string, availableSeasons: Option<seq<string>>, y: int)
    requires 2010 <= y <= 2025 && Contains(analysis, DecimalString(y))
    ensures exists z :: (&& y <= z <= 2025
                         && ExtractSeason(analysis, availableSeasons) == DecimalString(z)
                         && Contains(analysis, DecimalString(z))
                         && forall w :: z < w <= 2025 ==> !Contains(analysis, DecimalString(w)))
  {
    SeasonNamesAreYears();
    var k := FirstContained(analysis, SeasonNames);
    assert SeasonNames[2025 - y] == DecimalString(y);
    var z := 2025 - k.value;
    forall w | z < w <= 2025 ensures !Contains(analysis, DecimalString(w)) {
      assert SeasonNames[2025 - w] == DecimalString(w);
    }
  }

  /** Without a mentioned year, the store's last season, else "2023". */
  lemma ExtractSeasonFallback(analysis: string, availableSeasons: Option<seq<string>>)
    requires forall y :: 2010 <= y <= 2025 ==> !Contains(analysis, DecimalString(y))
    ensures ExtractSeason(analysis, availableSeasons) ==
      if availableSeasons.Some? && availableSeasons.value != [] then availableSeasons.value[|availableSeasons.value| - 1]
      else "2023"
  {
    SeasonNamesAreYears();
    var k := FirstContained(analysis, SeasonNames);
    if k.Some? {
      assert false;
    }
  }

  // ------------------------------------------------------- player names

  /** One separator step of `extractPlayerNames`: the first two pieces, trimmed, when splitting gives two. */
  function NamesBy(s: string, sep: string): Option<seq<string>>
    requires |sep| > 0
  {
    if Contains(s, sep) then
      var parts := Split(s, sep);
      if |parts| >= 2 then Some([Trim(parts[0]), Trim(parts[1])]) else None
    else None
  }

  /**
   * A successful separator step gives the trimmed text before the first
   * separator and the trimmed text from there to the next separator.
   */
  lemma NamesByPieces(s: string, sep: string)
    requires |sep| > 0 && NamesBy(s, sep).Some?
    ensures Contains(s, sep)
    ensures NamesBy(s, sep).value ==
      [Trim(s[..IndexOf(s, sep)]), Trim(FirstPiece(s[IndexOf(s, sep) + |sep|..], sep))]
  {
    SplitFirstTwo(s, sep);
  }

  /** `extractPlayerNames`: split on " vs ", else " and ", else ","; two empty names when none gives two pieces. */
  function ExtractPlayerNames(s: string): (r: seq<string>)
    ensures |r| == 2
  {
    var vs := NamesBy(s, " vs ");
    if vs.Some? then vs.value
    else
      var and := NamesBy(s, " and ");
      if and.Some? then and.value
      else
        var comma := NamesBy(s, ",");
        if comma.Some? then comma.value else ["", ""]
  }

  /**
   * The names come from the first separator that splits the text in two, in
   * the order " vs ", " and ", ","; two empty names when none does.
   */
  lemma ExtractPlayerNamesSpec(s: string)
    ensures NamesBy(s, " vs ").Some? ==> Some(ExtractPlayerNames(s)) == NamesBy(s, " vs ")
    ensures NamesBy(s, " vs ").None? && NamesBy(s, " and ").Some? ==> Some(ExtractPlayerNames(s)) == NamesBy(s, " and ")
    ensures NamesBy(s, " vs ").None? && NamesBy(s, " and ").None? && NamesBy(s, ",").Some? ==>
      Some(ExtractPlayerNames(s)) == NamesBy(s, ",")
    ensures NamesBy(s, " vs ").None? && NamesBy(s, " and ").None? && NamesBy(s, ",").None? ==>
      ExtractPlayerNames(s) == ["", ""]
  {
  }

  // ------------------------------------------------------------ routing

  predicate IsComparison(a: Analysis) {
    Contains(a.playerName, "vs") || Contains(a.playerName, ",") || Contains(a.playerName, "and")
  }

  predicate IsSeasonQuestion(a: Analysis) {
    Contains(a.timePeriod, "202") || Contains(a.timePeriod, "season") || Contains(a.timePeriod, "year")
  }

  predicate IsScatterQuestion(a: Analysis) {
    Contains(a.chartType, "scatter") || Contains(a.statType, "vs")
  }

  predicate IsTeamQuestion(a: Analysis) {
    var lower := ToLower(a.playerName);
    Contains(lower, "team") || Contains(lower, "lakers") || Contains(lower, "warriors")
  }

  /** `handlePlayerComparison`: its `"[]"` fallback never fires, since two names are always found. */
  function HandlePlayerComparison(playerName: string, statType: string): (r: Route)
    ensures r.PlayerComparison? && r.statType == statType
    ensures [r.player1, r.player2] == ExtractPlayerNames(playerName)
  {
    var players := ExtractPlayerNames(playerName);
    if |players| >= 2 then PlayerComparison(players[0], players[1], statType) else NoData
  }

  /** `handleSeasonAnalysis`: a scatter of age against points, or the top 20 of the season. */
  function HandleSeasonAnalysis(timePeriod: string, statType: string, availableSeasons: Option<seq<string>>): (r: Route)
    ensures r.ScatterPlotData? <==> Contains(statType, "vs") || Contains(statType, "scatter")
    ensures r.ScatterPlotData? || r.SeasonAnalysis?
    ensures r.ScatterPlotData? ==> r.xStat == "age" && r.yStat == "points"
    ensures r.SeasonAnalysis? ==> r.statType == statType && r.limit == 20
    ensures r.season == ExtractSeason(timePeriod, availableSeasons)
  {
    var season := ExtractSeason(timePeriod, availableSeasons);
    if Contains(statType, "vs") || Contains(statType, "scatter") then ScatterPlotData(season, "age", "points")
    else SeasonAnalysis(season, statType, 20)
  }

  /** `handleScatterPlot`: its `"[]"` fallback never fires, since `extractStats` always gives a pair. */
  function HandleScatterPlot(timePeriod: string, statType: string, availableSeasons: Option<seq<string>>): (r: Route)
    ensures r.ScatterPlotData? && [r.xStat, r.yStat] == ExtractStats(statType)
    ensures r.season == ExtractSeason(timePeriod, availableSeasons)
  {
    var stats := ExtractStats(statType);
    if |stats| >= 2 then ScatterPlotData(ExtractSeason(timePeriod, availableSeasons), stats[0], stats[1])
    else NoData
  }

  /**
   * `getDataForAnalysis`: `analysis` is `None` when the JSON does not parse
   * or lacks one of the four fields, which the catch-all turns into "[]".
   */
  function RouteOf(analysis: Option<Analysis>, availableSeasons: Option<seq<string>>): Route {
    if analysis.None? then NoData
    else
      var a := analysis.value;
      if IsComparison(a) then HandlePlayerComparison(a.playerName, a.statType)
      else if IsSeasonQuestion(a) then HandleSeasonAnalysis(a.timePeriod, a.statType, availableSeasons)
      else if IsScatterQuestion(a) then HandleScatterPlot(a.timePeriod, a.statType, availableSeasons)
      else if IsTeamQuestion(a) then TeamStats(ExtractTeam(a.playerName))
      else PlayerStats(a.playerName, a.statType)
  }

  /**
   * Routing picks no query exactly when the analysis did not parse: the "[]"
   * fallbacks of the comparison and scatter handlers are unreachable. (The
   * routed queries may still answer "[]" themselves; their bodies are not
   * part of this model.)
   */
  lemma NoDataOnlyForBadAnalysis(analysis: Option<Analysis>, availableSeasons: Option<seq<string>>)
    ensures RouteOf(analysis, availableSeasons) == NoData <==> analysis.None?
  {
  }

  /** The routing priority: comparison, season, scatter, team, single player. */
  lemma RoutePriority(a: Analysis, availableSeasons: Option<seq<string>>)
    ensures var r := RouteOf(Some(a), availableSeasons);
      && (r.PlayerComparison? <==> IsComparison(a))
      && (r.SeasonAnalysis? ==> !IsComparison(a) && IsSeasonQuestion(a))
      && (r.ScatterPlotData? <==> !IsComparison(a) && (IsSeasonQuestion(a) || IsScatterQuestion(a))
                                   && (IsSeasonQuestion(a) ==> Contains(a.statType, "vs") || Contains(a.statType, "scatter")))
      && (r.TeamStats? <==> !IsComparison(a) && !IsSeasonQuestion(a) && !IsScatterQuestion(a) && IsTeamQuestion(a))
      && (r.PlayerStats? <==> !IsComparison(a) && !IsSeasonQuestion(a) && !IsScatterQuestion(a) && !IsTeamQuestion(a))
  {
  }

  /** A comparison compares the two names `extractPlayerNames` finds, on the requested stat. */
  lemma ComparisonNames(a: Analysis, availableSeasons: Option<seq<string>>)
    requires IsComparison(a)
    ensures RouteOf(Some(a), availableSeasons) ==
      PlayerComparison(ExtractPlayerNames(a.playerName)[0], ExtractPlayerNames(a.playerName)[1], a.statType)
  {
  }

  /** A scatter question plots the pair `extractStats` finds in the stat type, for the extracted season. */
  lemma ScatterQuestionRoute(a: Analysis, availableSeasons: Option<seq<string>>)
    requires !IsComparison(a) && !IsSeasonQuestion(a) && IsScatterQuestion(a)
    ensures RouteOf(Some(a), availableSeasons) ==
      ScatterPlotData(ExtractSeason(a.timePeriod, availableSeasons), ExtractStats(a.statType)[0], ExtractStats(a.statType)[1])
  {
  }

  /** A team question asks for the team `extractTeam` finds in the player text. */
  lemma TeamQuestionRoute(a: Analysis, availableSeasons: Option<seq<string>>)
    requires !IsComparison(a) && !IsSeasonQuestion(a) && !IsScatterQuestion(a) && IsTeamQuestion(a)
    ensures RouteOf(Some(a), availableSeasons) == TeamStats(ExtractTeam(a.playerName))
  {
  }

  /** Any other question asks for one player's stats, with the player text and stat type as given. */
  lemma SinglePlayerRoute(a: Analysis, availableSeasons: Option<seq<string>>)
    requires !IsComparison(a) && !IsSeasonQuestion(a) && !IsScatterQuestion(a) && !IsTeamQuestion(a)
    ensures RouteOf(Some(a), availableSeasons) == PlayerStats(a.playerName, a.statType)
  {
  }

  /** A season question asking for a correlation plots age against points; otherwise it lists the season's top 20. */
  lemma SeasonQuestionRoute(a: Analysis, availableSeasons: Option<seq<string>>)
    requires !IsComparison(a) && IsSeasonQuestion(a)
    ensures var season := ExtractSeason(a.timePeriod, availableSeasons);
      RouteOf(Some(a), availableSeasons) ==
        if Contains(a.statType, "vs") || Contains(a.statType, "scatter") then ScatterPlotData(season, "age", "points")
        else SeasonAnalysis(season, a.statType, 20)
  {
  }
}
