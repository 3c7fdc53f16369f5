/**
 * The player-stats repository as GraphService queries it, and the two record
 * sources of the chart builders: all seasons of one player (line charts) and
 * all records of one season (histograms and scatter plots).
 */
module PlayerStore {
  import opened Wrappers
  import opened Seqs
  import opened Records
  import opened RecordFilters

  /**
   * The repository: the query results are given as total functions of their
   * parameters (the database contents are outside the model).
   */
  datatype Store = Store(
    findPlayerAllStats: string -> seq<SeasonRecord>,   // WHERE player = :name
    findByYear: int -> seq<SeasonRecord>,              // WHERE year = :year
    findFilteredAwards: seq<Option<string>>            // distinct comma-separated award tokens
  )

  /** The queries return only records with the requested player or year. */
  ghost predicate Consistent(st: Store) {
    && (forall name, i :: 0 <= i < |st.findPlayerAllStats(name)| ==> st.findPlayerAllStats(name)[i].player == name)
    && (forall y, i :: 0 <= i < |st.findByYear(y)| ==> st.findByYear(y)[i].year == y)
  }

  /** `findByYearAndMinGames`: the season's records whose games-played is present and at least `minGames`. */
  function FindByYearAndMinGames(st: Store, year: int, minGames: int): (r: seq<SeasonRecord>)
    ensures IsSubsequence(r, st.findByYear(year))
    ensures forall x :: x in r <==> x in st.findByYear(year) && x.gamesPlayed.Some? && x.gamesPlayed.value >= minGames
  {
    FilterMembership(st.findByYear(year), Holds(MinGames(minGames)));
    Filter(st.findByYear(year), Holds(MinGames(minGames)))
  }

  /** `getPlayerData`: the player's seasons after the games, minutes and multi-team filters. */
  function PlayerData(st: Store, name: string, fc: FilterCriteria): (r: seq<SeasonRecord>)
    ensures IsSubsequence(r, st.findPlayerAllStats(name))
    ensures Consistent(st) ==> forall i :: 0 <= i < |r| ==> r[i].player == name
  {
    PlayerFiltersSubsequence(st.findPlayerAllStats(name), fc);
    SubsequenceMembers(PlayerFilters(st.findPlayerAllStats(name), fc), st.findPlayerAllStats(name));
    PlayerFilters(st.findPlayerAllStats(name), fc)
  }

  /**
   * A record is in a player's data exactly when the store returns it for
   * that player, it passes the active games and minutes minimums, and it is
   * not a per-team row whose season has an aggregate row among the records
   * that passed those minimums.
   */
  lemma PlayerDataSelects(st: Store, name: string, fc: FilterCriteria, x: SeasonRecord)
    ensures x in PlayerData(st, name, fc) <==>
      && x in st.findPlayerAllStats(name)
      && (IsActive(fc.minGamesPlayed) ==> Accepts(MinGames(fc.minGamesPlayed.value), x))
      && (IsActive(fc.minMinutesPerGame) ==> Accepts(MinMinutes(fc.minMinutesPerGame.value), x))
      && (x.team.None? || IsAggregate(x)
          || KeyOf(x) !in AggregateKeys(MinutesStep(GamesStep(st.findPlayerAllStats(name), fc), fc)))
  {
  }

  /** The season query of `getSeasonData`: the games filter is pushed into the query when it is active. */
  function SeasonQuery(st: Store, year: int, fc: FilterCriteria): seq<SeasonRecord> {
    if IsActive(fc.minGamesPlayed) then FindByYearAndMinGames(st, year, fc.minGamesPlayed.value)
    else st.findByYear(year)
  }

  /** `getSeasonData`: the season's records after the record-level filters and the multi-team dedup. */
  function SeasonData(st: Store, year: int, fc: FilterCriteria): (r: seq<SeasonRecord>)
    ensures IsSubsequence(r, st.findByYear(year))
    ensures Consistent(st) ==> forall i :: 0 <= i < |r| ==> r[i].year == year
  {
    var base := SeasonQuery(st, year, fc);
    assert IsSubsequence(base, st.findByYear(year)) by {
      if !IsActive(fc.minGamesPlayed) { SubsequenceReflexive(base); }
    }
    SeasonFiltersSubsequence(base, fc);
    SubsequenceTransitive(SeasonFilters(base, fc), base, st.findByYear(year));
    SubsequenceMembers(SeasonFilters(base, fc), st.findByYear(year));
    SeasonFilters(base, fc)
  }

  /**
   * Pushing the games threshold into the query is the same as filtering the
   * season's records with the games filter of the line path.
   */
  lemma SeasonQueryIsGamesStep(st: Store, year: int, fc: FilterCriteria)
    ensures SeasonQuery(st, year, fc) == GamesStep(st.findByYear(year), fc)
  {
  }

  /**
   * Every record of a season's data passes every active criterion, games
   * included; and a record is there exactly when it is returned by the season
   * query, passes the record-level criteria, and is not a per-team row whose
   * player and season have an aggregate row among the filtered records.
   */
  lemma SeasonDataSelects(st: Store, year: int, fc: FilterCriteria, x: SeasonRecord)
    ensures x in SeasonData(st, year, fc) ==>
      x in st.findByYear(year) && MeetsSeasonCriteria(x, fc)
      && (IsActive(fc.minGamesPlayed) ==> Accepts(MinGames(fc.minGamesPlayed.value), x))
    ensures x in SeasonData(st, year, fc) <==>
      && x in SeasonQuery(st, year, fc) && MeetsSeasonCriteria(x, fc)
      && (x.team.None? || IsAggregate(x) || KeyOf(x) !in AggregateKeys(SeasonSteps(SeasonQuery(st, year, fc), fc)))
  {
    var base := SeasonQuery(st, year, fc);
    SeasonStepsSelect(base, fc);
  }

  // ------------------------------------------- season data of several years

  /** The season data of each year of `years`, in `years` order. */
  function SeasonParts(st: Store, years: seq<int>, fc: FilterCriteria): (parts: seq<seq<SeasonRecord>>)
    ensures |parts| == |years|
    ensures forall k :: 0 <= k < |years| ==> parts[k] == SeasonData(st, years[k], fc)
  {
    seq(|years|, k requires 0 <= k < |years| => SeasonData(st, years[k], fc))
  }

  /**
   * The records a histogram or scatter plot is drawn from: the seasons of a
   * non-empty `years` list, else the single `year`, else none.
   */
  function ChartData(st: Store, years: Option<seq<int>>, year: Option<int>, fc: FilterCriteria): seq<SeasonRecord> {
    if years.Some? && years.value != [] then Concat(SeasonParts(st, years.value, fc))
    else if year.Some? then SeasonData(st, year.value, fc)
    else []
  }

  /** The season-gathering code of `generateHistogram` and `generateScatterPlot`. */
  method GatherChartData(st: Store, years: Option<seq<int>>, year: Option<int>, fc: FilterCriteria)
    returns (data: seq<SeasonRecord>)
    ensures data == ChartData(st, years, year, fc)
  {
    data := [];
    if years.Some? && years.value != [] {
      var ys := years.value;
      ghost var parts := SeasonParts(st, ys, fc);
      for k := 0 to |ys|
        invariant data == Concat(parts[..k])
      {
        ConcatPrefix(parts, k);
        data := data + SeasonData(st, ys[k], fc);
      }
      assert parts[..|ys|] == parts;
    } else if year.Some? {
      data := SeasonData(st, year.value, fc);
    }
  }

  /** With a consistent store, every chart record belongs to a requested season. */
  lemma ChartDataYears(st: Store, years: Option<seq<int>>, year: Option<int>, fc: FilterCriteria, x: SeasonRecord)
    requires Consistent(st) && x in ChartData(st, years, year, fc)
    ensures years.Some? && years.value != [] ==> x.year in years.value
    ensures (years.None? || years.value == []) ==> year.Some? && x.year == year.value
  {
    if years.Some? && years.value != [] {
      var parts := SeasonParts(st, years.value, fc);
      ConcatMembers(parts, x);
      var k :| 0 <= k < |parts| && x in parts[k];
    }
  }
}
