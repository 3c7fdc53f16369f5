/**
 * The stat accessor of GraphService: the name -> column switch of
 * `getValueForStat`, the name -> label switch of `getAxisLabel`, and the
 * dataset palette of `getColorForIndex`.
 */
module StatAccessor {
  import opened Wrappers
  import opened JavaText
  import opened Records

  /** The columns a chart can read. */
  datatype Stat =
    | Age | Year | Points | Assists | Rebounds | Steals | Blocks | MinutesPerGame
    | FieldGoalPct | ThreePointPct | FreeThrowPct | GamesPlayed | GamesStarted
    | Turnovers | PersonalFouls

  /** The accepted (lower-case) stat names. */
  const StatKeys: set<string> := {
    "age", "year", "points", "ppg", "assists", "rebounds", "steals", "blocks",
    "minutes_per_game", "mpg", "field_goal_percentage", "fg%", "three_point_percentage", "3p%",
    "free_throw_percentage", "ft%", "games_played", "games_started", "turnovers", "personal_fouls"
  }

  /** The case labels of the `getValueForStat` switch, tried on an already lower-cased name. */
  function StatOfKey(key: string): (s: Option<Stat>)
    ensures s.Some? <==> key in StatKeys
  {
    if key == "age" then Some(Age)
    else if key == "year" then Some(Year)
    else if key == "points" || key == "ppg" then Some(Points)
    else if key == "assists" then Some(Assists)
    else if key == "rebounds" then Some(Rebounds)
    else if key == "steals" then Some(Steals)
    else if key == "blocks" then Some(Blocks)
    else if key == "minutes_per_game" || key == "mpg" then Some(MinutesPerGame)
    else if key == "field_goal_percentage" || key == "fg%" then Some(FieldGoalPct)
    else if key == "three_point_percentage" || key == "3p%" then Some(ThreePointPct)
    else if key == "free_throw_percentage" || key == "ft%" then Some(FreeThrowPct)
    else if key == "games_played" then Some(GamesPlayed)
    else if key == "games_started" then Some(GamesStarted)
    else if key == "turnovers" then Some(Turnovers)
    else if key == "personal_fouls" then Some(PersonalFouls)
    else None
  }

  /** The column of a record, with the integer columns widened to a real. */
  function Project(r: SeasonRecord, s: Stat): Option<real> {
    match s
    case Age => if r.age.Some? then Some(r.age.value as real) else None
    case Year => Some(r.year as real)
    case Points => r.points
    case Assists => r.assists
    case Rebounds => r.totalRebounds
    case Steals => r.steals
    case Blocks => r.blocks
    case MinutesPerGame => r.minutesPerGame
    case FieldGoalPct => r.fieldGoalPercentage
    case ThreePointPct => r.threePointPercentage
    case FreeThrowPct => r.freeThrowPercentage
    case GamesPlayed => if r.gamesPlayed.Some? then Some(r.gamesPlayed.value as real) else None
    case GamesStarted => if r.gamesStarted.Some? then Some(r.gamesStarted.value as real) else None
    case Turnovers => r.turnovers
    case PersonalFouls => r.personalFouls
  }

  /** `getValueForStat`: null for a null or unknown name, else the named column, matched case-insensitively. */
  function ValueForStat(r: SeasonRecord, name: Option<string>): (v: Option<real>)
    ensures name.None? ==> v.None?
    ensures name.Some? ==> (v.Some? ==> ToLower(name.value) in StatKeys)
  {
    if name.None? then None
    else
      match StatOfKey(ToLower(name.value))
      case None => None
      case Some(s) => Project(r, s)
  }

  /** Stat names are matched case-insensitively: lower-casing the name first changes nothing. */
  lemma ValueForStatCaseInsensitive(r: SeasonRecord, name: string)
    ensures ValueForStat(r, Some(ToLower(name))) == ValueForStat(r, Some(name))
  {
    ToLowerIdempotent(name);
  }

  /** A name whose lower-case form is a switch case selects that case's column. */
  lemma ValueOfKey(r: SeasonRecord, key: string, s: Stat)
    requires StatOfKey(ToLower(key)) == Some(s)
    ensures ValueForStat(r, Some(key)) == Project(r, s)
  {
  }

  /** "ppg" selects the same column as "points", and "rebounds" selects the total rebounds. */
  lemma ValueForStatPointsAndRebounds(r: SeasonRecord)
    ensures ValueForStat(r, Some("ppg")) == ValueForStat(r, Some("points")) == r.points
    ensures ValueForStat(r, Some("rebounds")) == r.totalRebounds
  {
    LowerOfLower("ppg"); ValueOfKey(r, "ppg", Points);
    LowerOfLower("points"); ValueOfKey(r, "points", Points);
    LowerOfLower("rebounds"); ValueOfKey(r, "rebounds", Rebounds);
  }

  /** The counting stats without an alias read their own columns. */
  lemma ValueForStatCountingColumns(r: SeasonRecord)
    ensures ValueForStat(r, Some("assists")) == r.assists
    ensures ValueForStat(r, Some("steals")) == r.steals
    ensures ValueForStat(r, Some("blocks")) == r.blocks
    ensures ValueForStat(r, Some("turnovers")) == r.turnovers
    ensures ValueForStat(r, Some("personal_fouls")) == r.personalFouls
  {
    LowerOfLower("assists"); ValueOfKey(r, "assists", Assists);
    LowerOfLower("steals"); ValueOfKey(r, "steals", Steals);
    LowerOfLower("blocks"); ValueOfKey(r, "blocks", Blocks);
    LowerOfLower("turnovers"); ValueOfKey(r, "turnovers", Turnovers);
    LowerOfLower("personal_fouls"); ValueOfKey(r, "personal_fouls", PersonalFouls);
  }

  /** "mpg" selects the same column as "minutes_per_game". */
  lemma ValueForStatMinutesAlias(r: SeasonRecord)
    ensures ValueForStat(r, Some("mpg")) == ValueForStat(r, Some("minutes_per_game")) == r.minutesPerGame
  {
    LowerOfLower("mpg"); ValueOfKey(r, "mpg", MinutesPerGame);
    LowerOfLower("minutes_per_game"); ValueOfKey(r, "minutes_per_game", MinutesPerGame);
  }

  /** "fg%" selects the same column as "field_goal_percentage". */
  lemma ValueForStatFieldGoalAlias(r: SeasonRecord)
    ensures ValueForStat(r, Some("fg%")) == ValueForStat(r, Some("field_goal_percentage")) == r.fieldGoalPercentage
  {
    LowerOfLower("fg%"); ValueOfKey(r, "fg%", FieldGoalPct);
    LowerOfLower("field_goal_percentage"); ValueOfKey(r, "field_goal_percentage", FieldGoalPct);
  }

  /** "3p%" selects the same column as "three_point_percentage". */
  lemma ValueForStatThreePointAlias(r: SeasonRecord)
    ensures ValueForStat(r, Some("3p%")) == ValueForStat(r, Some("three_point_percentage")) == r.threePointPercentage
  {
    LowerOfLower("3p%"); ValueOfKey(r, "3p%", ThreePointPct);
    LowerOfLower("three_point_percentage"); ValueOfKey(r, "three_point_percentage", ThreePointPct);
  }

  /** "ft%" selects the same column as "free_throw_percentage". */
  lemma ValueForStatFreeThrowAlias(r: SeasonRecord)
    ensures ValueForStat(r, Some("ft%")) == ValueForStat(r, Some("free_throw_percentage")) == r.freeThrowPercentage
  {
    LowerOfLower("ft%"); ValueOfKey(r, "ft%", FreeThrowPct);
    LowerOfLower("free_throw_percentage"); ValueOfKey(r, "free_throw_percentage", FreeThrowPct);
  }

  /** Age and year are widened to reals; the year is never null. */
  lemma ValueForStatAgeAndYear(r: SeasonRecord)
    ensures ValueForStat(r, Some("age")) == (if r.age.Some? then Some(r.age.value as real) else None)
    ensures ValueForStat(r, Some("year")) == Some(r.year as real)
  {
    LowerOfLower("age"); ValueOfKey(r, "age", Age);
    LowerOfLower("year"); ValueOfKey(r, "year", Year);
  }

  /** The games counts are widened to reals. */
  lemma ValueForStatGamesColumns(r: SeasonRecord)
    ensures ValueForStat(r, Some("games_played")) == (if r.gamesPlayed.Some? then Some(r.gamesPlayed.value as real) else None)
    ensures ValueForStat(r, Some("games_started")) == (if r.gamesStarted.Some? then Some(r.gamesStarted.value as real) else None)
  {
    LowerOfLower("games_played"); ValueOfKey(r, "games_played", GamesPlayed);
    LowerOfLower("games_started"); ValueOfKey(r, "games_started", GamesStarted);
  }

  /** An upper-case spelling selects the same column. */
  lemma ValueForStatUpperCase(r: SeasonRecord)
    ensures ValueForStat(r, Some("PPG")) == r.points
    ensures ValueForStat(r, Some("Rebounds")) == r.totalRebounds
  {
    assert ToLower("PPG") == "ppg";
    assert ToLower("Rebounds") == "rebounds";
  }

  /** An all-lower-case name with no upper-case letter is its own lower-case form. */
  lemma LowerOfLower(s: string)
    requires forall i :: 0 <= i < |s| ==> !('A' <= s[i] <= 'Z')
    ensures ToLower(s) == s
  {
  }

  // --------------------------------------------------------------- labels

  /** The accepted (lower-case) axis names. */
  const LabelKeys: set<string> := {
    "age", "year", "season", "points", "ppg", "assists", "rebounds", "steals", "blocks",
    "minutes_per_game", "mpg", "field_goal_percentage", "fg%", "three_point_percentage", "3p%",
    "free_throw_percentage", "ft%", "turnovers", "personal_fouls"
  }

  /** The case labels of the `getAxisLabel` switch, tried on an already lower-cased name. */
  function LabelOfKey(key: string): (l: Option<string>)
    ensures l.Some? <==> key in LabelKeys
  {
    if key == "age" then Some("Age")
    else if key == "year" || key == "season" then Some("Season")
    else if key == "points" || key == "ppg" then Some("Points Per Game")
    else if key == "assists" then Some("Assists Per Game")
    else if key == "rebounds" then Some("Rebounds Per Game")
    else if key == "steals" then Some("Steals Per Game")
    else if key == "blocks" then Some("Blocks Per Game")
    else if key == "minutes_per_game" || key == "mpg" then Some("Minutes Per Game")
    else if key == "field_goal_percentage" || key == "fg%" then Some("Field Goal %")
    else if key == "three_point_percentage" || key == "3p%" then Some("3-Point %")
    else if key == "free_throw_percentage" || key == "ft%" then Some("Free Throw %")
    else if key == "turnovers" then Some("Turnovers Per Game")
    else if key == "personal_fouls" then Some("Personal Fouls Per Game")
    else None
  }

  /** `getAxisLabel`: "X-Axis" for null, the table's label for a known name, the name itself (as given) otherwise. */
  function AxisLabel(name: Option<string>): (l: string)
    ensures name.None? ==> l == "X-Axis"
    ensures name.Some? && ToLower(name.value) !in LabelKeys ==> l == name.value
  {
    if name.None? then "X-Axis"
    else
      match LabelOfKey(ToLower(name.value))
      case None => name.value
      case Some(text) => text
  }

  /**
   * The label names are the stat names, less the two games counts, plus "season";
   * so an unlabelled stat name such as "games_played" is its own label.
   */
  lemma LabelKeysFromStatKeys()
    ensures LabelKeys == StatKeys - {"games_played", "games_started"} + {"season"}
  {
  }

  /** A known axis name is matched case-insensitively; an unknown one keeps its original spelling. */
  lemma AxisLabelCaseInsensitive(name: string)
    ensures ToLower(name) in LabelKeys ==> AxisLabel(Some(ToLower(name))) == AxisLabel(Some(name))
    ensures ToLower(name) !in LabelKeys ==> AxisLabel(Some(name)) == name
  {
    ToLowerIdempotent(name);
  }

  /** "year" and "season" share the label "Season"; "PPG" and "points" share "Points Per Game". */
  lemma AxisLabelAliases()
    ensures AxisLabel(Some("year")) == AxisLabel(Some("season")) == "Season"
    ensures AxisLabel(Some("PPG")) == AxisLabel(Some("points")) == "Points Per Game"
  {
    LowerOfLower("year"); LowerOfLower("season"); LowerOfLower("points");
    assert ToLower("PPG") == "ppg";
  }

  lemma GamesPlayedUnlabelled()
    ensures AxisLabel(Some("games_played")) == "games_played"
    ensures AxisLabel(Some("Games_Started")) == "Games_Started"
  {
    LowerOfLower("games_played");
    assert ToLower("Games_Started") == "games_started";
  }

  // -------------------------------------------------------------- colours

  /** The dataset palette; the first colour appears again at index 6. */
  const Palette: seq<string> := ["#FF6384", "#36A2EB", "#FFCE56", "#4BC0C0", "#9966FF", "#FF9F40", "#FF6384", "#C9CBCF"]

  /** `getColorForIndex`: the palette colour at the index modulo the palette length. */
  function ColorForIndex(i: nat): (c: string)
    ensures c in Palette
    ensures i < |Palette| ==> c == Palette[i]
  {
    Palette[i % |Palette|]
  }

  /** The colours repeat every eight datasets. */
  lemma ColorPeriodic(i: nat)
    ensures ColorForIndex(i + 8) == ColorForIndex(i)
  {
    assert (i + 8) % 8 == i % 8;
  }

  /** The first and the seventh requested player are drawn in the same colour. */
  lemma ColorRepeatsAtSix()
    ensures ColorForIndex(0) == ColorForIndex(6)
  {
  }
}
