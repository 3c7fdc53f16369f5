/**
 * The record filters of GraphService: the games, minutes, position, award,
 * team and age predicates, and the multi-team de-duplication that keeps the
 * season-aggregate row ("2TM", "3TM", ...) of a player who changed teams and
 * drops that player's per-team rows.
 */
module RecordFilters {
  import opened Wrappers
  import opened JavaText
  import opened Seqs
  import opened Records

  /** The dedup key of a record: `player + "_" + year`, as a pair. */
  type Key = (string, int)

  function KeyOf(r: SeasonRecord): Key { (r.player, r.year) }

  /** A season-aggregate row: its team contains the multi-team marker "TM". */
  predicate IsAggregate(r: SeasonRecord) {
    r.team.Some? && Contains(r.team.value, "TM")
  }

  /** True when some comma-separated token of `awards`, trimmed, is one of `wanted`. */
  predicate HasAwardIn(awards: string, wanted: seq<string>) {
    var tokens := Split(awards, ",");
    exists i :: 0 <= i < |tokens| && Trim(tokens[i]) in wanted
  }

  /** One entry of the requested age list accepts `age`: "All", or an integer equal to it. */
  predicate AgeEntryMatches(entry: string, age: int) {
    entry == "All" || ParseInt(Trim(entry)) == Some(age)
  }

  /** The single-record predicates that the filters apply. */
  datatype Criterion =
    | MinGames(minGames: int)
    | MinMinutes(minMinutes: int)
    | PositionIn(positions: seq<string>)
    | AwardIn(awards: seq<string>)
    | TeamIn(teams: seq<string>)
    | AgeIn(ages: seq<string>)
    | NotShadowed(aggregates: set<Key>)

  predicate Accepts(c: Criterion, r: SeasonRecord) {
    match c
    case MinGames(g) => r.gamesPlayed.Some? && r.gamesPlayed.value >= g
    case MinMinutes(m) => r.minutesPerGame.None? || r.minutesPerGame.value >= m as real
    case PositionIn(ps) => r.position.Some? && r.position.value in ps
    case AwardIn(ws) => r.awards.Some? && Trim(r.awards.value) != "" && HasAwardIn(r.awards.value, ws)
    case TeamIn(ts) => r.team.Some? && Trim(r.team.value) != "" && Trim(r.team.value) in ts
    case AgeIn(ages) => r.age.Some? && exists i :: 0 <= i < |ages| && AgeEntryMatches(ages[i], r.age.value)
    case NotShadowed(keys) => r.team.None? || IsAggregate(r) || KeyOf(r) !in keys
  }

  function Holds(c: Criterion): SeasonRecord -> bool {
    r => Accepts(c, r)
  }

  /** A numeric threshold is applied only when it is present and positive. */
  predicate IsActive(t: Option<int>) { t.Some? && t.value > 0 }

  /** A list filter is applied only when it is present, non-empty and does not contain "All". */
  predicate IsSelective(l: Option<seq<string>>) { l.Some? && |l.value| > 0 && "All" !in l.value }

  // ---------------------------------------------------------------- steps

  /** Games filter (line path): with an active minimum, a record needs a games count at least that. */
  function GamesStep(data: seq<SeasonRecord>, fc: FilterCriteria): (r: seq<SeasonRecord>)
    ensures IsSubsequence(r, data)
    ensures !IsActive(fc.minGamesPlayed) ==> r == data
    ensures IsActive(fc.minGamesPlayed) ==> forall x :: x in r <==>
      x in data && x.gamesPlayed.Some? && x.gamesPlayed.value >= fc.minGamesPlayed.value
  {
    if IsActive(fc.minGamesPlayed) then
      FilterMembership(data, Holds(MinGames(fc.minGamesPlayed.value)));
      Filter(data, Holds(MinGames(fc.minGamesPlayed.value)))
    else SubsequenceReflexive(data); data
  }

  /** Minutes filter: a record without minutes always passes; one with minutes passes iff at least the minimum. */
  function MinutesStep(data: seq<SeasonRecord>, fc: FilterCriteria): (r: seq<SeasonRecord>)
    ensures IsSubsequence(r, data)
    ensures !IsActive(fc.minMinutesPerGame) ==> r == data
    ensures IsActive(fc.minMinutesPerGame) ==> forall x :: x in r <==>
      x in data && (x.minutesPerGame.None? || x.minutesPerGame.value >= fc.minMinutesPerGame.value as real)
  {
    if IsActive(fc.minMinutesPerGame) then
      FilterMembership(data, Holds(MinMinutes(fc.minMinutesPerGame.value)));
      Filter(data, Holds(MinMinutes(fc.minMinutesPerGame.value)))
    else SubsequenceReflexive(data); data
  }

  /** Position filter: the position must be present and be one of the requested ones. */
  function PositionStep(data: seq<SeasonRecord>, fc: FilterCriteria): (r: seq<SeasonRecord>)
    ensures IsSubsequence(r, data)
    ensures !IsSelective(fc.positions) ==> r == data
    ensures IsSelective(fc.positions) ==> forall x :: x in r <==>
      x in data && x.position.Some? && x.position.value in fc.positions.value
  {
    if IsSelective(fc.positions) then
      FilterMembership(data, Holds(PositionIn(fc.positions.value)));
      Filter(data, Holds(PositionIn(fc.positions.value)))
    else SubsequenceReflexive(data); data
  }

  /** Award filter: the award text must be non-blank and one of its trimmed tokens requested. */
  function AwardStep(data: seq<SeasonRecord>, fc: FilterCriteria): (r: seq<SeasonRecord>)
    ensures IsSubsequence(r, data)
    ensures !IsSelective(fc.awards) ==> r == data
    ensures IsSelective(fc.awards) ==> forall x :: x in r <==>
      x in data && x.awards.Some? && Trim(x.awards.value) != "" && HasAwardIn(x.awards.value, fc.awards.value)
  {
    if IsSelective(fc.awards) then
      FilterMembership(data, Holds(AwardIn(fc.awards.value)));
      Filter(data, Holds(AwardIn(fc.awards.value)))
    else SubsequenceReflexive(data); data
  }

  /** Team filter: the trimmed team must be non-blank and one of the requested ones. */
  function TeamStep(data: seq<SeasonRecord>, fc: FilterCriteria): (r: seq<SeasonRecord>)
    ensures IsSubsequence(r, data)
    ensures !IsSelective(fc.teamsFilter) ==> r == data
    ensures IsSelective(fc.teamsFilter) ==> forall x :: x in r <==>
      x in data && x.team.Some? && Trim(x.team.value) != "" && Trim(x.team.value) in fc.teamsFilter.value
  {
    if IsSelective(fc.teamsFilter) then
      FilterMembership(data, Holds(TeamIn(fc.teamsFilter.value)));
      Filter(data, Holds(TeamIn(fc.teamsFilter.value)))
    else SubsequenceReflexive(data); data
  }

  /** Age filter: the age must be present and equal to some requested entry that parses as an integer. */
  function AgeStep(data: seq<SeasonRecord>, fc: FilterCriteria): (r: seq<SeasonRecord>)
    ensures IsSubsequence(r, data)
    ensures !IsSelective(fc.ageRange) ==> r == data
    ensures IsSelective(fc.ageRange) ==> forall x :: x in r <==>
      x in data && x.age.Some? && exists i :: 0 <= i < |fc.ageRange.value| && ParseInt(Trim(fc.ageRange.value[i])) == Some(x.age.value)
  {
    if IsSelective(fc.ageRange) then
      FilterMembership(data, Holds(AgeIn(fc.ageRange.value)));
      Filter(data, Holds(AgeIn(fc.ageRange.value)))
    else SubsequenceReflexive(data); data
  }

  // ---------------------------------------------------------------- dedup

  /** The (player, year) pairs that have a season-aggregate row in `data`. */
  function AggregateKeys(data: seq<SeasonRecord>): set<Key> {
    set r | r in data && IsAggregate(r) :: KeyOf(r)
  }

  /**
   * Multi-team dedup: keeps every record without a team and every aggregate row,
   * and drops a per-team row exactly when its (player, year) has an aggregate row in `data`.
   */
  function Dedup(data: seq<SeasonRecord>): (r: seq<SeasonRecord>)
    ensures IsSubsequence(r, data)
    ensures forall x :: x in r <==>
      x in data && (x.team.None? || IsAggregate(x) || KeyOf(x) !in AggregateKeys(data))
  {
    FilterMembership(data, Holds(NotShadowed(AggregateKeys(data))));
    Filter(data, Holds(NotShadowed(AggregateKeys(data))))
  }

  /** Dedup keeps every aggregate row, so the set of aggregated (player, year) pairs is unchanged. */
  lemma DedupKeepsAggregateKeys(data: seq<SeasonRecord>)
    ensures AggregateKeys(Dedup(data)) == AggregateKeys(data)
  {
    var d := Dedup(data);
    forall k | k in AggregateKeys(data) ensures k in AggregateKeys(d) {
      var r :| r in data && IsAggregate(r) && KeyOf(r) == k;
      assert r in d;
    }
  }

  /** Applying dedup twice equals applying it once. */
  lemma DedupIdempotent(data: seq<SeasonRecord>)
    ensures Dedup(Dedup(data)) == Dedup(data)
  {
    var d := Dedup(data);
    DedupKeepsAggregateKeys(data);
    assert Holds(NotShadowed(AggregateKeys(d))) == Holds(NotShadowed(AggregateKeys(data)));
    FilterIdempotent(data, Holds(NotShadowed(AggregateKeys(data))));
  }

  /**
   * Whenever a (player, year) has an aggregate row, every surviving record of that
   * pair that names a team is an aggregate row: no per-team row is counted beside it.
   */
  lemma DedupAggregateWins(data: seq<SeasonRecord>, x: SeasonRecord)
    requires x in Dedup(data) && KeyOf(x) in AggregateKeys(data)
    ensures x.team.None? || IsAggregate(x)
  {
  }

  // ------------------------------------------------------------ pipelines

  /** The filters of the line path, in source order: games, minutes, then dedup. */
  function PlayerFilters(data: seq<SeasonRecord>, fc: FilterCriteria): seq<SeasonRecord> {
    Dedup(MinutesStep(GamesStep(data, fc), fc))
  }

  /** The record-level filters of the season path, in source order: minutes, positions, awards, teams, age. */
  function SeasonSteps(data: seq<SeasonRecord>, fc: FilterCriteria): seq<SeasonRecord> {
    AgeStep(TeamStep(AwardStep(PositionStep(MinutesStep(data, fc), fc), fc), fc), fc)
  }

  /** The whole season-path filter: the record-level filters, then dedup. */
  function SeasonFilters(data: seq<SeasonRecord>, fc: FilterCriteria): seq<SeasonRecord> {
    Dedup(SeasonSteps(data, fc))
  }

  /** A record passes the active minutes, position and award predicates. */
  predicate MeetsEarlyCriteria(x: SeasonRecord, fc: FilterCriteria) {
    && (IsActive(fc.minMinutesPerGame) ==> Accepts(MinMinutes(fc.minMinutesPerGame.value), x))
    && (IsSelective(fc.positions) ==> Accepts(PositionIn(fc.positions.value), x))
    && (IsSelective(fc.awards) ==> Accepts(AwardIn(fc.awards.value), x))
  }

  /** A record passes every active season-path predicate. */
  predicate MeetsSeasonCriteria(x: SeasonRecord, fc: FilterCriteria) {
    && MeetsEarlyCriteria(x, fc)
    && (IsSelective(fc.teamsFilter) ==> Accepts(TeamIn(fc.teamsFilter.value), x))
    && (IsSelective(fc.ageRange) ==> Accepts(AgeIn(fc.ageRange.value), x))
  }

  /** The minutes, position and award filters together select the records meeting those criteria. */
  lemma EarlyStepsSelect(data: seq<SeasonRecord>, fc: FilterCriteria)
    ensures IsSubsequence(AwardStep(PositionStep(MinutesStep(data, fc), fc), fc), data)
    ensures forall x :: x in AwardStep(PositionStep(MinutesStep(data, fc), fc), fc) <==>
      x in data && MeetsEarlyCriteria(x, fc)
  {
    var s1 := MinutesStep(data, fc);
    var s2 := PositionStep(s1, fc);
    var s3 := AwardStep(s2, fc);
    SubsequenceTransitive(s2, s1, data);
    SubsequenceTransitive(s3, s2, data);
  }

  /** The team and age filters together select the records meeting those two criteria. */
  lemma LateStepsSelect(data: seq<SeasonRecord>, fc: FilterCriteria)
    ensures IsSubsequence(AgeStep(TeamStep(data, fc), fc), data)
    ensures forall x :: x in AgeStep(TeamStep(data, fc), fc) <==>
      && x in data
      && (IsSelective(fc.teamsFilter) ==> Accepts(TeamIn(fc.teamsFilter.value), x))
      && (IsSelective(fc.ageRange) ==> Accepts(AgeIn(fc.ageRange.value), x))
  {
    SubsequenceTransitive(AgeStep(TeamStep(data, fc), fc), TeamStep(data, fc), data);
  }

  /**
   * The record-level season filters keep an order-preserving subsequence, and a record
   * survives them iff it meets every active criterion.
   */
  lemma SeasonStepsSelect(data: seq<SeasonRecord>, fc: FilterCriteria)
    ensures IsSubsequence(SeasonSteps(data, fc), data)
    ensures forall x :: x in SeasonSteps(data, fc) <==> x in data && MeetsSeasonCriteria(x, fc)
  {
    var s3 := AwardStep(PositionStep(MinutesStep(data, fc), fc), fc);
    EarlyStepsSelect(data, fc);
    LateStepsSelect(s3, fc);
    SubsequenceTransitive(SeasonSteps(data, fc), s3, data);
  }

  /** The record-level season filters leave a sequence unchanged when all its records meet the criteria. */
  lemma SeasonStepsFixed(data: seq<SeasonRecord>, fc: FilterCriteria)
    requires forall i :: 0 <= i < |data| ==> MeetsSeasonCriteria(data[i], fc)
    ensures SeasonSteps(data, fc) == data
  {
    if IsActive(fc.minMinutesPerGame) { FilterAllPass(data, Holds(MinMinutes(fc.minMinutesPerGame.value))); }
    if IsSelective(fc.positions) { FilterAllPass(data, Holds(PositionIn(fc.positions.value))); }
    if IsSelective(fc.awards) { FilterAllPass(data, Holds(AwardIn(fc.awards.value))); }
    if IsSelective(fc.teamsFilter) { FilterAllPass(data, Holds(TeamIn(fc.teamsFilter.value))); }
    if IsSelective(fc.ageRange) { FilterAllPass(data, Holds(AgeIn(fc.ageRange.value))); }
  }

  /** The season-path filter is an order-preserving subsequence of its input. */
  lemma SeasonFiltersSubsequence(data: seq<SeasonRecord>, fc: FilterCriteria)
    ensures IsSubsequence(SeasonFilters(data, fc), data)
  {
    SeasonStepsSelect(data, fc);
    SubsequenceTransitive(SeasonFilters(data, fc), SeasonSteps(data, fc), data);
  }

  /** Applying the season-path filter twice equals applying it once. */
  lemma SeasonFiltersIdempotent(data: seq<SeasonRecord>, fc: FilterCriteria)
    ensures SeasonFilters(SeasonFilters(data, fc), fc) == SeasonFilters(data, fc)
  {
    var u := SeasonSteps(data, fc);
    var d := Dedup(u);
    SeasonStepsSelect(data, fc);
    SubsequenceMembers(d, u);
    assert forall i :: 0 <= i < |d| ==> d[i] in u;
    SeasonStepsFixed(d, fc);
    DedupIdempotent(u);
  }

  /** The line-path filter is an order-preserving subsequence of its input. */
  lemma PlayerFiltersSubsequence(data: seq<SeasonRecord>, fc: FilterCriteria)
    ensures IsSubsequence(PlayerFilters(data, fc), data)
  {
    var s1 := GamesStep(data, fc);
    var s2 := MinutesStep(s1, fc);
    SubsequenceTransitive(s2, s1, data);
    SubsequenceTransitive(Dedup(s2), s2, data);
  }

  /** Applying the line-path filter twice equals applying it once. */
  lemma PlayerFiltersIdempotent(data: seq<SeasonRecord>, fc: FilterCriteria)
    ensures PlayerFilters(PlayerFilters(data, fc), fc) == PlayerFilters(data, fc)
  {
    var s1 := GamesStep(data, fc);
    var s2 := MinutesStep(s1, fc);
    var d := Dedup(s2);
    SubsequenceTransitive(s2, s1, data);
    SubsequenceMembers(d, s2);
    SubsequenceMembers(s2, s1);
    if IsActive(fc.minGamesPlayed) { FilterAllPass(d, Holds(MinGames(fc.minGamesPlayed.value))); }
    if IsActive(fc.minMinutesPerGame) { FilterAllPass(d, Holds(MinMinutes(fc.minMinutesPerGame.value))); }
    DedupIdempotent(s2);
  }

  // ------------------------------------------------------------ age list

  /** An entry that is neither "All" nor an integer never matches any age. */
  lemma NonNumericAgeNeverMatches(entry: string, age: int)
    requires entry != "All" && ParseInt(Trim(entry)).None?
    ensures !AgeEntryMatches(entry, age)
  {
  }

  /** The decimal rendering of `n`, as the age choices are generated, matches exactly the age `n`. */
  lemma DecimalAgeEntryMatches(n: nat, age: int)
    requires n <= MaxInt
    ensures AgeEntryMatches(DecimalString(n), age) <==> age == n
  {
    var s := DecimalString(n);
    assert TrimStart(s) == s;
    assert TrimEnd(s) == s;
    ParseDecimal(n);
  }
}
