/**
 * One row of the `player_stats` table as the chart services read it: one
 * player's per-game averages for one season and one team (or for the
 * season across all teams, when the team carries a multi-team marker such
 * as "2TM").
 */
module Records {
  import opened Wrappers

  datatype SeasonRecord = SeasonRecord(
    year: int,                          // seasons.year; assumed present (season_id is a nullable reference)
    player: string,                     // players.name; assumed present (player_id is a nullable reference)
    team: Option<string>,               // teams.abbreviation, e.g. "LAL" or "2TM"
    position: Option<string>,
    age: Option<int>,
    gamesPlayed: Option<int>,
    gamesStarted: Option<int>,
    minutesPerGame: Option<real>,       // absent for the early seasons
    fieldGoalsMade: Option<real>,
    fieldGoalsAttempted: Option<real>,
    fieldGoalPercentage: Option<real>,
    threePointersMade: Option<real>,
    threePointersAttempted: Option<real>,
    threePointPercentage: Option<real>,
    twoPointersMade: Option<real>,
    twoPointersAttempted: Option<real>,
    twoPointPercentage: Option<real>,
    effectiveFieldGoalPercentage: Option<real>,
    freeThrowsMade: Option<real>,
    freeThrowsAttempted: Option<real>,
    freeThrowPercentage: Option<real>,
    offensiveRebounds: Option<real>,
    defensiveRebounds: Option<real>,
    totalRebounds: Option<real>,
    assists: Option<real>,
    steals: Option<real>,
    blocks: Option<real>,
    turnovers: Option<real>,
    personalFouls: Option<real>,
    points: Option<real>,
    awards: Option<string>              // comma-separated tokens, e.g. "MVP-1,AS,NBA1"
  )

  /** The filter settings of a chart request (the nullable filter fields of GraphRequest). */
  datatype FilterCriteria = FilterCriteria(
    minGamesPlayed: Option<int>,
    minMinutesPerGame: Option<int>,
    positions: Option<seq<string>>,
    awards: Option<seq<string>>,
    teamsFilter: Option<seq<string>>,
    ageRange: Option<seq<string>>
  )
}
