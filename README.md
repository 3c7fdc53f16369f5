# nba-graph-maker chart pipeline, modelled in Dafny

This project models the chart core of nba-graph-maker, a web application that
draws charts from per-season NBA player statistics. The model covers:

- **GraphService** (`generateGraph`). A chart request gets its missing axis
  selectors filled in for its graph type: a line chart gets age against
  points, a histogram gets points, a scatter plot gets steals against
  blocks. The request then goes to one of three builders:
  - the **line** builder collects each requested player's (x, y) pairs
    from that player's seasons, sorts them stably by x, and emits one
    coloured dataset per player that has data;
  - the **histogram** builder gathers the records of the requested seasons
    and bins the present stat values into `binCount` equal-width bins
    (20 by default). Every bin is half-open except the last, which is
    closed, so the maximum is never lost;
  - the **scatter** builder emits one grey point per record that has both
    stats.
- **Record filters** of `getPlayerData` and `getSeasonData`: games,
  minutes, positions, awards, teams and ages. A filter is skipped when it
  is absent, zero or contains "All". These are followed by the
  **multi-team dedup**: a player's per-team rows for a season are dropped
  when a season-aggregate row (team marker containing "TM") exists for
  the same player and year.
- **Stat access**: the name-to-column switch, the axis labels and the
  dataset palette.
- **Award list** of `getAwards`: it keeps placed awards only up to 5th
  place, then sorts by award family and then alphabetically.
- **DataService**: the keyword routing of an analysis to a data query,
  and the `extract*` helpers that pick player names, season, stats and
  team out of free text.
- **OpenAIService**:
  - the API-key guard;
  - `extractJsonFromResponse`: the span from the first `{` to the last
    `}`;
  - `removeComments`: drops blank and `//` lines and one-line block
    comments.
- **setup_database.py**:
  - the year taken from a CSV file name;
  - the `clean_value` conversion of a cell;
  - the import rule that skips a file without a (truthy) year.
- **frontend/src/constants.js**: the year list 2025 to 1985 and the age
  list "All", 18 to 44.

The modules follow the source:

| module | file | models |
|---|---|---|
| `Wrappers` | `wrappers.dfy` | `Option` and `Result` |
| `JavaText` | `text.dfy` | the Java `String` operations the services use: `trim`, `indexOf`, `lastIndexOf`, `contains`, `split`, `toLowerCase`, `Integer.parseInt`, `toString` |
| `Seqs` | `seqs.dfy` | stream `filter` and the order-preserving subsequence relation |
| `Records` | `records.dfy` | a statistics row and the filter fields of a chart request |
| `StatAccessor` | `stats.dfy` | `getValueForStat`, `getAxisLabel`, `getColorForIndex` |
| `PlayerStore` | `store.dfy` | the repository queries and the data gathering of the builders |
| `RecordFilters` | `filters.dfy` | the filter steps and the dedup of `getPlayerData` and `getSeasonData` |
| `LineGraph`, `Histogram`, `Scatter` | `linegraph.dfy`, `histogram.dfy`, `scatter.dfy` | the three builders |
| `Sorting` | `sorting.dfy` | a generic insertion sort |
| `Awards` | `awards.dfy` | `getAwards` and `getAwardOrder` |
| `GraphService` | `graphservice.dfy` | defaults and dispatch, with the request object as a class whose setters the defaulting calls |
| `DataService` | `dataservice.dfy` | `getDataForAnalysis`, its handlers and the `extract*` helpers |
| `OpenAIService` | `openai.dfy` | the key guard, `extractJsonFromResponse`, `removeComments` |
| `SetupDatabase` | `setupdb.dfy` | `extract_year_from_filename`, `clean_value`, the year skip of `import_data` |
| `Constants` | `constants.dfy` | `generateYears`, `generateAgeRanges` |

How the code's form is kept:

- Loops in the source are methods with loop invariants, each proved equal
  to a specification function:
  - the line builder's value collection, pair sort and player loop;
  - the histogram's edge and bin loops;
  - the scatter point loop;
  - the season gathering loop;
  - the `removeComments` line loop;
  - the two option-list loops of `constants.js`.
- The stream pipelines are functions.
- A stat value is a Java `Double` modelled as a `real`.

## Model

| member | source | states |
|---|---|---|
| JavaText.TrimStart | backend/src/main/java/com/nba/service/GraphService.java:688-692 | the result is a suffix of the input with no leading char at or below space, and everything dropped is such a char |
| JavaText.TrimEnd | backend/src/main/java/com/nba/service/GraphService.java:688-692 | the result is a prefix of the input with no trailing char at or below space, and everything dropped is such a char |
| JavaText.Trim | backend/src/main/java/com/nba/service/GraphService.java:688-692 | Java `trim`: an infix of the input whose ends are not whitespace and around which only whitespace was removed |
| JavaText.TrimIdempotent | backend/src/main/java/com/nba/service/GraphService.java:688-692 | trimming twice is trimming once |
| JavaText.TrimNoop | backend/src/main/java/com/nba/service/GraphService.java:688-692 | a string with non-whitespace ends is its own trim |
| JavaText.TrimEmptyIff | backend/src/main/java/com/nba/service/GraphService.java:688 | `trim().isEmpty()` holds exactly when every char is whitespace |
| JavaText.IndexOfFrom | backend/src/main/java/com/nba/service/OpenAIService.java:263 | `indexOf` from a start position: the leftmost occurrence at or after it, or -1 when there is none |
| JavaText.IndexOf | backend/src/main/java/com/nba/service/OpenAIService.java:263 | `indexOf`: the leftmost position where the pattern occurs, or -1 when it occurs nowhere |
| JavaText.ContainsIff | backend/src/main/java/com/nba/service/DataService.java:258-264 | `contains` holds exactly when the pattern occurs at some position |
| JavaText.LastIndexOfUpTo | backend/src/main/java/com/nba/service/OpenAIService.java:264 | the rightmost occurrence at or before a bound, or -1 when there is none |
| JavaText.LastIndexOf | backend/src/main/java/com/nba/service/OpenAIService.java:264 | `lastIndexOf`: the rightmost occurrence, with no occurrence after it, or -1 |
| JavaText.SplitAll | backend/src/main/java/com/nba/service/DataService.java:313 | the pieces between all separator occurrences: at least one, and two or more exactly when the separator occurs |
| JavaText.JoinSplitAll | backend/src/main/java/com/nba/service/DataService.java:313 | joining the pieces with the separator gives the original string back |
| JavaText.SplitAllPiecesFree | backend/src/main/java/com/nba/service/DataService.java:313 | no piece contains the separator |
| JavaText.DropTrailingEmpty | backend/src/main/java/com/nba/service/DataService.java:313 | a prefix of the pieces that ends in a non-empty piece, having dropped only empty pieces |
| JavaText.Split | backend/src/main/java/com/nba/service/DataService.java:311-334 | Java `split` with a literal separator: the whole string when the separator does not occur, else the pieces without trailing empty ones |
| JavaText.FirstPiece | backend/src/main/java/com/nba/service/DataService.java:313-315 | the text before the first separator: free of the separator and a prefix of the string |
| JavaText.SplitFirstTwo | backend/src/main/java/com/nba/service/DataService.java:313-315 | when `split` gives two or more pieces the separator occurs, piece 0 is the text before its first occurrence and piece 1 the first piece after it |
| JavaText.ToLower | backend/src/main/java/com/nba/service/GraphService.java:546-591 | `toLowerCase`: same length, each char lowered |
| JavaText.ToLowerIdempotent | backend/src/main/java/com/nba/service/GraphService.java:546-591 | lowering twice is lowering once |
| JavaText.ParseInt | backend/src/main/java/com/nba/service/GraphService.java:697 | `Integer.parseInt`: a value only for an optional sign followed by digits, and only in the 32-bit range (the value read: `ParseSignedDigits`) |
| JavaText.DecimalString | frontend/src/constants.js:72 | `toString` of a natural number: a non-empty run of digits, a single digit exactly below 10 |
| JavaText.DigitsValueOfDecimal | frontend/src/constants.js:72 | the digits of a number denote that number |
| JavaText.ParseDecimal | frontend/src/constants.js:72 | a rendered number up to the 32-bit maximum parses back to itself |
| JavaText.ParseDecimalAll | frontend/src/constants.js:72 | a rendered number parses back to itself, or not at all once beyond the 32-bit maximum |
| JavaText.ParseSignedDigits | backend/src/main/java/com/nba/service/GraphService.java:697 | an optional `-` or `+` followed by a non-empty digit run parses to the signed value of the digits when it is in the 32-bit range, and fails otherwise, leading zeros included |
| JavaText.ParseNegativeDecimal | backend/src/main/java/com/nba/service/GraphService.java:697 | `-` before a rendered number gives its negation, down to the 32-bit minimum, and fails below it |
| JavaText.ParsePlusDecimal | backend/src/main/java/com/nba/service/GraphService.java:697 | `+` before a rendered number parses as the number without it |
| JavaText.DigitsValueLeadingZero | backend/src/main/java/com/nba/service/GraphService.java:697 | a leading zero does not change the value of a digit run |
| JavaText.ParseLeadingZero | backend/src/main/java/com/nba/service/GraphService.java:697 | a leading zero does not change what a digit run parses to, so "03" reads as 3 |
| JavaText.DecimalStringInjective | frontend/src/constants.js:72 | different numbers have different renderings |
| Seqs.Filter | backend/src/main/java/com/nba/service/GraphService.java:362-374 | a stream `filter`: an order-preserving subsequence holding exactly the elements that pass |
| Seqs.FilterMembership | backend/src/main/java/com/nba/service/GraphService.java:362-374 | an element is kept exactly when it is present and passes |
| Seqs.FilterIdempotent | backend/src/main/java/com/nba/service/GraphService.java:362-374 | filtering twice with the same predicate is filtering once |
| Seqs.FilterConcat | backend/src/main/java/com/nba/service/GraphService.java:181-185 | filtering a concatenation filters each part |
| Seqs.Somes | backend/src/main/java/com/nba/service/GraphService.java:115-125 | the present values of a list of optional values, in order; at most as many |
| Seqs.SomesOrigin | backend/src/main/java/com/nba/service/GraphService.java:115-125 | each kept value sits at a strictly increasing index of a present entry (order preserved) |
| Seqs.SomesComplete | backend/src/main/java/com/nba/service/GraphService.java:115-125 | every present value is kept |
| Seqs.ConcatMembers | backend/src/main/java/com/nba/service/GraphService.java:181-185 | an element of the concatenated per-year lists is in one of them, and every element of one of them is in the concatenation |
| Sorting.Sort | backend/src/main/java/com/nba/service/GraphService.java:744-756 | the result is a permutation of the input sorted by the comparator |
| Sorting.SortedUnique | backend/src/main/java/com/nba/service/GraphService.java:744-756 | two sorted permutations of the same elements are equal, so the sorted order is determined |
| StatAccessor.StatOfKey | backend/src/main/java/com/nba/service/GraphService.java:551-590 | a column is chosen exactly for the accepted lower-case stat names |
| StatAccessor.ValueForStat | backend/src/main/java/com/nba/service/GraphService.java:546-591 | `getValueForStat`: null for a null name, and a value only for an accepted name (compared lower-cased) |
| StatAccessor.ValueForStatCaseInsensitive | backend/src/main/java/com/nba/service/GraphService.java:551 | the stat name is matched case-insensitively |
| StatAccessor.ValueOfKey | backend/src/main/java/com/nba/service/GraphService.java:551-590 | an accepted name reads its column |
| StatAccessor.Project | backend/src/main/java/com/nba/service/GraphService.java:551-586 | the column each switch case reads, the integer columns widened to a real, absent columns null and the year always present (definition; its cases are stated by the `ValueForStat*` lemmas) |
| StatAccessor.ValueForStatPointsAndRebounds | backend/src/main/java/com/nba/service/GraphService.java:556-562 | `ppg` and `points` read points; `rebounds` reads total rebounds |
| StatAccessor.ValueForStatMinutesAlias | backend/src/main/java/com/nba/service/GraphService.java:567-569 | `mpg` and `minutes_per_game` read minutes per game |
| StatAccessor.ValueForStatFieldGoalAlias | backend/src/main/java/com/nba/service/GraphService.java:570-572 | `fg%` and `field_goal_percentage` read field-goal percentage |
| StatAccessor.ValueForStatThreePointAlias | backend/src/main/java/com/nba/service/GraphService.java:573-575 | `3p%` and `three_point_percentage` read three-point percentage |
| StatAccessor.ValueForStatFreeThrowAlias | backend/src/main/java/com/nba/service/GraphService.java:576-578 | `ft%` and `free_throw_percentage` read free-throw percentage |
| StatAccessor.ValueForStatCountingColumns | backend/src/main/java/com/nba/service/GraphService.java:559-586 | `assists`, `steals`, `blocks`, `turnovers` and `personal_fouls` read their own columns |
| StatAccessor.ValueForStatAgeAndYear | backend/src/main/java/com/nba/service/GraphService.java:552-555 | `age` reads the age when present; `year` reads the season year, which the record model assumes present |
| StatAccessor.ValueForStatGamesColumns | backend/src/main/java/com/nba/service/GraphService.java:579-582 | `games_played` and `games_started` read their game counts when present |
| StatAccessor.ValueForStatUpperCase | backend/src/main/java/com/nba/service/GraphService.java:551-562 | upper-case names such as `PPG` select the same column |
| StatAccessor.LabelOfKey | backend/src/main/java/com/nba/service/GraphService.java:593-632 | a label exists exactly for the accepted lower-case axis names |
| StatAccessor.AxisLabel | backend/src/main/java/com/nba/service/GraphService.java:593-632 | `getAxisLabel`: "X-Axis" for null, the name itself for an unknown name |
| StatAccessor.LabelKeysFromStatKeys | backend/src/main/java/com/nba/service/GraphService.java:593-632 | the labelled names are the stat names without the two game columns, plus `season` |
| StatAccessor.AxisLabelCaseInsensitive | backend/src/main/java/com/nba/service/GraphService.java:593-632 | a known name is labelled case-insensitively; an unknown one is echoed as given |
| StatAccessor.AxisLabelAliases | backend/src/main/java/com/nba/service/GraphService.java:593-632 | `year` and `season` both label as Season; `PPG` and `points` as Points Per Game |
| StatAccessor.GamesPlayedUnlabelled | backend/src/main/java/com/nba/service/GraphService.java:593-632 | the games columns have no label and are echoed unchanged |
| StatAccessor.ColorForIndex | backend/src/main/java/com/nba/service/GraphService.java:659-665 | `getColorForIndex`: always a palette colour, the one at the index for the first eight |
| StatAccessor.ColorPeriodic | backend/src/main/java/com/nba/service/GraphService.java:664 | the colours repeat every eight datasets |
| StatAccessor.ColorRepeatsAtSix | backend/src/main/java/com/nba/service/GraphService.java:660-663 | datasets 0 and 6 get the same colour, so the palette has seven distinct colours |
| PlayerStore.FindByYearAndMinGames | backend/src/main/java/com/nba/repository/PlayerStatsRepository.java:46-47 | the season's records with a games-played count present and at least the minimum, in store order |
| PlayerStore.PlayerData | backend/src/main/java/com/nba/service/GraphService.java:337-399 | `getPlayerData`: a subsequence of the player's records, all of that player (which records it keeps: `PlayerDataSelects`) |
| PlayerStore.PlayerDataSelects | backend/src/main/java/com/nba/service/GraphService.java:337-397 | a record is in the player's data exactly when the store returns it for that player, it meets the active games and minutes minimums, and it is not a per-team row whose (player, year) has an aggregate row among the records that met them |
| PlayerStore.SeasonData | backend/src/main/java/com/nba/service/GraphService.java:402-539 | `getSeasonData`: a subsequence of the season's records, all of that season |
| PlayerStore.SeasonQuery | backend/src/main/java/com/nba/service/GraphService.java:402-409 | the season query: the games minimum pushed into the query when active, else the whole season (definition; `SeasonQueryIsGamesStep` proves it equals the games filter) |
| PlayerStore.SeasonQueryIsGamesStep | backend/src/main/java/com/nba/service/GraphService.java:405-409 | pushing the games minimum into the query selects the same records as filtering afterwards |
| PlayerStore.SeasonDataSelects | backend/src/main/java/com/nba/service/GraphService.java:402-539 | a record of the season data meets every active criterion, games included; a record is in it exactly when the season query returns it, it meets the record-level criteria, and it is not a per-team row whose (player, year) has an aggregate row among the filtered records |
| PlayerStore.SeasonParts | backend/src/main/java/com/nba/service/GraphService.java:181-185 | one season-data list per requested year, in request order |
| PlayerStore.ChartData | backend/src/main/java/com/nba/service/GraphService.java:181-188 | the chart records: the seasons of a non-empty year list, else the single year, else none (definition; `GatherChartData` computes it and `ChartDataYears` states where its records come from) |
| PlayerStore.GatherChartData | backend/src/main/java/com/nba/service/GraphService.java:181-188 | the gathering loop of the histogram and scatter builders computes the chart data |
| PlayerStore.ChartDataYears | backend/src/main/java/com/nba/service/GraphService.java:181-188 | with a non-empty year list every gathered record is of a listed year; otherwise of the single year |
| RecordFilters.GamesStep | backend/src/main/java/com/nba/service/GraphService.java:353-358 | with an active minimum exactly the records with a games count at least that, else everything; order kept |
| RecordFilters.MinutesStep | backend/src/main/java/com/nba/service/GraphService.java:362-374 | with an active minimum the records without minutes or with at least that many, else everything; order kept |
| RecordFilters.PositionStep | backend/src/main/java/com/nba/service/GraphService.java:444-449 | with a selective list exactly the records whose position is listed, else everything; order kept |
| RecordFilters.AwardStep | backend/src/main/java/com/nba/service/GraphService.java:452-464 | with a selective list exactly the records with a non-blank award text one of whose trimmed tokens is listed; order kept |
| RecordFilters.TeamStep | backend/src/main/java/com/nba/service/GraphService.java:467-477 | with a selective list exactly the records whose trimmed non-blank team is listed; order kept |
| RecordFilters.AgeStep | backend/src/main/java/com/nba/service/GraphService.java:480-497 | with a selective list exactly the records whose age equals some entry that parses as an integer; order kept |
| RecordFilters.Dedup | backend/src/main/java/com/nba/service/GraphService.java:378-397 | keeps the records without a team and the aggregate rows, and drops a per-team row exactly when its (player, year) has an aggregate row |
| RecordFilters.DedupKeepsAggregateKeys | backend/src/main/java/com/nba/service/GraphService.java:378-397 | the set of aggregated (player, year) pairs is unchanged by dedup |
| RecordFilters.DedupIdempotent | backend/src/main/java/com/nba/service/GraphService.java:378-397 | dedup twice is dedup once |
| RecordFilters.DedupAggregateWins | backend/src/main/java/com/nba/service/GraphService.java:378-397 | for a pair with an aggregate row, only the aggregate row (or a team-less row) survives |
| RecordFilters.PlayerFilters | backend/src/main/java/com/nba/service/GraphService.java:353-397 | the line-path filters in source order: games, minutes, then dedup (definition; properties in `PlayerFiltersSubsequence`, `PlayerFiltersIdempotent` and `PlayerStore.PlayerDataSelects`) |
| RecordFilters.SeasonSteps | backend/src/main/java/com/nba/service/GraphService.java:429-497 | the season-path record filters in source order: minutes, positions, awards, teams, ages (definition; `SeasonStepsSelect` states what they keep) |
| RecordFilters.SeasonFilters | backend/src/main/java/com/nba/service/GraphService.java:429-537 | the season-path record filters followed by dedup (definition; properties in `SeasonFiltersSubsequence`, `SeasonFiltersIdempotent` and `PlayerStore.SeasonDataSelects`) |
| RecordFilters.EarlyStepsSelect | backend/src/main/java/com/nba/service/GraphService.java:429-464 | the minutes, position and award filters together keep exactly the records meeting those criteria |
| RecordFilters.LateStepsSelect | backend/src/main/java/com/nba/service/GraphService.java:467-497 | the team and age filters together keep exactly the records meeting those criteria |
| RecordFilters.SeasonStepsSelect | backend/src/main/java/com/nba/service/GraphService.java:429-497 | the season-path filters keep exactly the records meeting every active criterion, in order |
| RecordFilters.SeasonStepsFixed | backend/src/main/java/com/nba/service/GraphService.java:429-497 | data that already meets every criterion passes unchanged |
| RecordFilters.SeasonFiltersSubsequence | backend/src/main/java/com/nba/service/GraphService.java:429-537 | the season filter result is a subsequence of its input |
| RecordFilters.SeasonFiltersIdempotent | backend/src/main/java/com/nba/service/GraphService.java:429-537 | applying the season filters twice equals applying them once |
| RecordFilters.PlayerFiltersSubsequence | backend/src/main/java/com/nba/service/GraphService.java:353-397 | the player filter result is a subsequence of its input |
| RecordFilters.PlayerFiltersIdempotent | backend/src/main/java/com/nba/service/GraphService.java:353-397 | applying the player filters twice equals applying them once |
| RecordFilters.NonNumericAgeNeverMatches | backend/src/main/java/com/nba/service/GraphService.java:486-493 | an age entry other than "All" that does not parse as an integer matches no age |
| RecordFilters.DecimalAgeEntryMatches | backend/src/main/java/com/nba/service/GraphService.java:486-493 | a rendered number matches exactly that age |
| LineGraph.PairOptions | backend/src/main/java/com/nba/service/GraphService.java:115-125 | the optional (x, y) pair of each record, in record order |
| LineGraph.AxisPairs | backend/src/main/java/com/nba/service/GraphService.java:115-125 | the pairs of the records with both values, at most one per record |
| LineGraph.AxisPairsComplete | backend/src/main/java/com/nba/service/GraphService.java:115-125 | every record with both values contributes its pair |
| LineGraph.AxisPairsSound | backend/src/main/java/com/nba/service/GraphService.java:115-125 | every pair comes from some record with both values |
| LineGraph.InsertByKey | backend/src/main/java/com/nba/service/GraphService.java:138 | insertion adds exactly the one pair |
| LineGraph.SortByKey | backend/src/main/java/com/nba/service/GraphService.java:133-138 | `comparingByKey` sort: a permutation sorted by x |
| LineGraph.InsertSorted | backend/src/main/java/com/nba/service/GraphService.java:138 | inserting into a key-sorted list keeps it sorted |
| LineGraph.InsertWithKey | backend/src/main/java/com/nba/service/GraphService.java:138 | an inserted pair goes after every pair with the same key |
| LineGraph.SortStable | backend/src/main/java/com/nba/service/GraphService.java:138 | the sort is stable: the pairs with any one x keep their relative order |
| LineGraph.Keys | backend/src/main/java/com/nba/service/GraphService.java:142-145 | the x values of the pairs, position by position |
| LineGraph.Values | backend/src/main/java/com/nba/service/GraphService.java:142-145 | the y values of the pairs, position by position |
| LineGraph.CollectValues | backend/src/main/java/com/nba/service/GraphService.java:115-126 | the collecting loop yields the x and y values of the axis pairs, in record order |
| LineGraph.Zip | backend/src/main/java/com/nba/service/GraphService.java:134-137 | the pairs of two equally long lists, position by position |
| LineGraph.ZipUnzip | backend/src/main/java/com/nba/service/GraphService.java:134-145 | unzipping and zipping again gives back the pairs |
| LineGraph.SortPairs | backend/src/main/java/com/nba/service/GraphService.java:130-145 | the zip, sort and unzip yield the sorted pairs' x and y values |
| LineGraph.BuildSeries | backend/src/main/java/com/nba/service/GraphService.java:112-145 | one player's value collection and sort compute that player's series |
| LineGraph.SeriesProperties | backend/src/main/java/com/nba/service/GraphService.java:112-145 | a series ascends in x, has equally many x and y values, and holds exactly the collected pairs |
| LineGraph.PlayerSeries | backend/src/main/java/com/nba/service/GraphService.java:107-145 | one series per requested player, in request order |
| LineGraph.DatasetOptions | backend/src/main/java/com/nba/service/GraphService.java:150-161 | the optional dataset of each requested player, in request order |
| LineGraph.LineDatasets | backend/src/main/java/com/nba/service/GraphService.java:150-161 | the emitted datasets: at most one per player |
| LineGraph.BuildLineDatasets | backend/src/main/java/com/nba/service/GraphService.java:106-163 | the player loop: no dataset without a player list, else the datasets of the players with a non-empty series |
| LineGraph.LineDatasetsWellFormed | backend/src/main/java/com/nba/service/GraphService.java:150-158 | each emitted dataset belongs to a requested player, in request order, with that player's label and index colour, no fill, equal non-empty ascending x and y lists |
| LineGraph.DatasetOfWellFormed | backend/src/main/java/com/nba/service/GraphService.java:150-158 | a dataset carries the player label, the index colour, no fill and ascending x values |
| LineGraph.SortedKeysAscending | backend/src/main/java/com/nba/service/GraphService.java:142-145 | a key-sorted series has ascending x values |
| LineGraph.LineDatasetsComplete | backend/src/main/java/com/nba/service/GraphService.java:150-158 | every player with a non-empty series has a dataset |
| LineGraph.SeriesNonEmptyIff | backend/src/main/java/com/nba/service/GraphService.java:150 | a series is empty exactly when no record of the player has both values, the case `No valid data points` |
| Histogram.ValidValues | backend/src/main/java/com/nba/service/GraphService.java:202-205 | the present stat values, at most one per record, and every present value is among them |
| Histogram.ValidValuesSound | backend/src/main/java/com/nba/service/GraphService.java:202-205 | every valid value is the value of some record |
| Histogram.ValidValuesEmptyIff | backend/src/main/java/com/nba/service/GraphService.java:209 | there are no valid values exactly when no record has one |
| Histogram.MinOf | backend/src/main/java/com/nba/service/GraphService.java:216 | the stream `min`: a member that is at most every value |
| Histogram.MaxOf | backend/src/main/java/com/nba/service/GraphService.java:217 | the stream `max`: a member that is at least every value |
| Histogram.EdgeEnds | backend/src/main/java/com/nba/service/GraphService.java:226-228 | the first edge is the minimum and the last one the maximum |
| Histogram.EdgeMonotone | backend/src/main/java/com/nba/service/GraphService.java:226-228 | with min at most max the edges never decrease |
| Histogram.BinIndex | backend/src/main/java/com/nba/service/GraphService.java:230-251 | the bin a value falls into: always a valid bin |
| Histogram.BinsDisjoint | backend/src/main/java/com/nba/service/GraphService.java:235-251 | no value lies in two bins |
| Histogram.BinIndexCovers | backend/src/main/java/com/nba/service/GraphService.java:235-251 | every value between min and max lies in the bin `BinIndex` names |
| Histogram.BinExactlyOne | backend/src/main/java/com/nba/service/GraphService.java:235-251 | every value between min and max lies in exactly one bin |
| Histogram.FlatBins | backend/src/main/java/com/nba/service/GraphService.java:235-251 | when min equals max every value falls in the last, closed bin only |
| Histogram.Bins | backend/src/main/java/com/nba/service/GraphService.java:230-266 | one record list per bin, each that bin's records |
| Histogram.Counts | backend/src/main/java/com/nba/service/GraphService.java:253-254 | one count per bin, each the size of that bin's records |
| Histogram.SumPointwise | backend/src/main/java/com/nba/service/GraphService.java:253-254 | the sum of a pointwise sum is the sum of the sums |
| Histogram.HitsSum | backend/src/main/java/com/nba/service/GraphService.java:235-251 | a record with a value lies in exactly one bin, one without in none |
| Histogram.CountsSum | backend/src/main/java/com/nba/service/GraphService.java:230-266 | with values between min and max the counts add up to the number of present values |
| Histogram.Edges | backend/src/main/java/com/nba/service/GraphService.java:226-228 | `binCount + 1` edges, each `min + i * width` |
| Histogram.BuildEdges | backend/src/main/java/com/nba/service/GraphService.java:222-228 | the edge loop computes the edges |
| Histogram.FillBins | backend/src/main/java/com/nba/service/GraphService.java:230-266 | the bin loop computes each bin's count and records |
| Histogram.BuildHistogram | backend/src/main/java/com/nba/service/GraphService.java:202-278 | the histogram builder after gathering computes the histogram of the data |
| Histogram.HistogramOf | backend/src/main/java/com/nba/service/GraphService.java:202-278 | the histogram of the data: nothing without values, else the edges, counts and bins over min..max (definition; properties in the `Histogram*` lemmas) |
| Histogram.HistogramEmpty | backend/src/main/java/com/nba/service/GraphService.java:209-213 | without a present value there are no edges, no counts and no metadata, and conversely |
| Histogram.HistogramShape | backend/src/main/java/com/nba/service/GraphService.java:215-266 | 20 bins by default; `binCount + 1` edges and `binCount` counts |
| Histogram.HistogramEdges | backend/src/main/java/com/nba/service/GraphService.java:216-228 | the first edge is the minimum value and the last the maximum |
| Histogram.HistogramEdgesAscending | backend/src/main/java/com/nba/service/GraphService.java:226-228 | the edges ascend |
| Histogram.HistogramDegenerate | backend/src/main/java/com/nba/service/GraphService.java:215-230 | a bin count of 0 gives one NaN edge and no count; a negative one gives neither |
| Histogram.BinMembers | backend/src/main/java/com/nba/service/GraphService.java:230-251 | a record with a value is in bin i exactly when its value falls into bin i |
| Histogram.HistogramMembers | backend/src/main/java/com/nba/service/GraphService.java:230-263 | a record with a value is listed in bin i of the histogram exactly when its value falls into bin i |
| Histogram.HistogramCountsSum | backend/src/main/java/com/nba/service/GraphService.java:230-266 | the counts add up to the number of present values, so no value is dropped or counted twice |
| Histogram.FlatBinEmpty | backend/src/main/java/com/nba/service/GraphService.java:243-251 | when min equals max every bin but the last is empty |
| Histogram.HistogramFlat | backend/src/main/java/com/nba/service/GraphService.java:235-251 | when min equals max the last bin holds every present value |
| Histogram.EdgeInclusionExample | backend/src/main/java/com/nba/service/GraphService.java:235-251 | with four bins over 0..100, 100 lands in the last bin and 25 in bin 1, not bin 0 |
| Scatter.PointOptions | backend/src/main/java/com/nba/service/GraphService.java:306-323 | the optional point of each record, in record order |
| Scatter.PointOf | backend/src/main/java/com/nba/service/GraphService.java:306-320 | the point of one record: present exactly when both stats are, with the record's values, player, team and year, labelled with the player, grey (definition; `PointsFromRecords` states it for the whole list) |
| Scatter.ScatterPoints | backend/src/main/java/com/nba/service/GraphService.java:306-323 | the points of the records with both values: at most one per record |
| Scatter.BuildPoints | backend/src/main/java/com/nba/service/GraphService.java:306-323 | the point loop computes the scatter points |
| Scatter.PointsFromRecords | backend/src/main/java/com/nba/service/GraphService.java:306-323 | each point is drawn from a record with both values, with that record's values, player, team and year, labelled with the player and grey, in record order |
| Scatter.PointsComplete | backend/src/main/java/com/nba/service/GraphService.java:306-323 | every record with both values has its point |
| Scatter.BuildScatter | backend/src/main/java/com/nba/service/GraphService.java:283-335 | the scatter builder after gathering yields the points with the two axis stats as metadata |
| Awards.PlaceListedIff | backend/src/main/java/com/nba/service/GraphService.java:697-698 | a place is listed exactly when it is at most 5 |
| Awards.KeepUnpadded | backend/src/main/java/com/nba/service/GraphService.java:688-692 | an award without padding keeps its filter outcome under trim |
| Awards.KeepMvpPlace | backend/src/main/java/com/nba/service/GraphService.java:695-701 | `MVP-k` is kept exactly when k is at most 5 |
| Awards.KeepDpoyPlace | backend/src/main/java/com/nba/service/GraphService.java:682-740 | `DPOY-k` is kept exactly when k is at most 5 |
| Awards.KeepSixthManPlace | backend/src/main/java/com/nba/service/GraphService.java:682-740 | `6MOY-k` is kept exactly when k is at most 5 |
| Awards.DropUnparseablePlace | backend/src/main/java/com/nba/service/GraphService.java:696-701 | an MVP award whose place is not a number is dropped |
| Awards.KeepAward | backend/src/main/java/com/nba/service/GraphService.java:685-740 | the `getAwards` filter: a non-blank award whose trimmed text passes the per-family place rules (definition; its cases are stated by the `Keep*` lemmas) |
| Awards.LexLeq | backend/src/main/java/com/nba/service/GraphService.java:754 | `compareTo` order: char-code lexicographic order (definition; `LexTotal`, `LexAntisymmetric`, `LexTransitive`) |
| Awards.AwardLeq | backend/src/main/java/com/nba/service/GraphService.java:745-755 | the sort comparator: family rank first, then `compareTo` (definition; `AwardCmpTotalOrder` proves it a total order) |
| Awards.AwardCmp | backend/src/main/java/com/nba/service/GraphService.java:745-755 | the comparator as a function value, agreeing with `AwardLeq` on every pair |
| Awards.AwardOrder | backend/src/main/java/com/nba/service/GraphService.java:759-804 | `getAwardOrder`: one of the ranks 1 to 8, or 999 for an unknown family |
| Awards.LexTotal | backend/src/main/java/com/nba/service/GraphService.java:754 | `compareTo` order is total |
| Awards.LexAntisymmetric | backend/src/main/java/com/nba/service/GraphService.java:754 | `compareTo` order is antisymmetric |
| Awards.LexTransitive | backend/src/main/java/com/nba/service/GraphService.java:754 | `compareTo` order is transitive |
| Awards.AwardTotal | backend/src/main/java/com/nba/service/GraphService.java:745-755 | the award comparator is total |
| Awards.AwardAntisymmetric | backend/src/main/java/com/nba/service/GraphService.java:745-755 | the award comparator is antisymmetric |
| Awards.AwardTransitive | backend/src/main/java/com/nba/service/GraphService.java:745-755 | the award comparator is transitive |
| Awards.AwardCmpTotalOrder | backend/src/main/java/com/nba/service/GraphService.java:745-755 | the comparator is a total order, so the sort is well defined |
| Awards.KeptAwards | backend/src/main/java/com/nba/service/GraphService.java:683-741 | the stored awards that pass the filter, in store order (definition; `KeptAwardsMembers` states its members) |
| Awards.GetAwards | backend/src/main/java/com/nba/service/GraphService.java:682-757 | `getAwards`: the kept awards sorted by the comparator (definition; `GetAwardsSpec` states what it returns) |
| Awards.KeptAwardsMembers | backend/src/main/java/com/nba/service/GraphService.java:683-741 | a token is kept exactly when the store has it and it passes the filter |
| Awards.GetAwardsSpec | backend/src/main/java/com/nba/service/GraphService.java:682-757 | `getAwards`: sorted by the comparator, a permutation of the kept tokens, holding exactly the stored tokens that pass, and the only list with those properties |
| Awards.ExampleRanks | backend/src/main/java/com/nba/service/GraphService.java:759-795 | MVP-2, AS, DPOY-1 and 6MOY-3 rank 1, 2, 3 and 7 |
| Awards.LaterFamilyRanks | backend/src/main/java/com/nba/service/GraphService.java:777-804 | NBA1, DEF2, ROY, MIP and an unknown token rank 4, 5, 6, 8 and 999 |
| Awards.RankExample | backend/src/main/java/com/nba/service/GraphService.java:745-755 | the comparator orders MVP-2 before AS, AS before DPOY-1 and DPOY-1 before 6MOY-3, and not the reverse |
| GraphService.GraphRequest.constructor | backend/src/main/java/com/nba/service/GraphService.java:22 | a request object holds the given field values |
| GraphService.GraphRequest.ApplyDefaults | backend/src/main/java/com/nba/service/GraphService.java:41-86 | the defaulting switch sets the request to its defaulted version |
| GraphService.GraphRequest.GenerateGraph | backend/src/main/java/com/nba/service/GraphService.java:22-97 | `generateGraph` defaults the request in place and returns the outcome of the dispatch on the original request |
| GraphService.WithDefaults | backend/src/main/java/com/nba/service/GraphService.java:41-86 | the defaulted request: missing line axes become age and points, a missing histogram stat points, missing scatter stats steals and blocks (definition; properties in the `Defaults*` lemmas) |
| GraphService.Generate | backend/src/main/java/com/nba/service/GraphService.java:88-97 | the dispatch on the graph type to the three builders, or an error for a missing or unsupported type (definition; `GenerateOutcome` states its outcomes) |
| GraphService.LineChartOf | backend/src/main/java/com/nba/service/GraphService.java:100-175 | `generateLineGraph` on a defaulted request: the datasets of the requested players, none without players, with the two axes (definition; `LineAxesPresent`, `LineWithoutPlayers` and `LineGraph.BuildLineDatasets`) |
| GraphService.HistogramChartOf | backend/src/main/java/com/nba/service/GraphService.java:177-281 | `generateHistogram` on a defaulted request: the histogram of the gathered chart data for the stat (definition; `HistogramStatPresent`, `Histogram.BuildHistogram`) |
| GraphService.ScatterChartOf | backend/src/main/java/com/nba/service/GraphService.java:283-335 | `generateScatterPlot` on a defaulted request: the points of the gathered chart data with both stats as metadata (definition; `ScatterStatsPresent`, `Scatter.BuildScatter`) |
| GraphService.DefaultsKeepSupplied | backend/src/main/java/com/nba/service/GraphService.java:41-86 | defaulting changes only the selectors and never a supplied one; unknown graph types change nothing |
| GraphService.DefaultsFill | backend/src/main/java/com/nba/service/GraphService.java:41-86 | a line chart gets age and points, a histogram points, a scatter plot steals and blocks, each only when missing |
| GraphService.DefaultsIdempotent | backend/src/main/java/com/nba/service/GraphService.java:41-86 | defaulting twice is defaulting once |
| GraphService.GenerateOutcome | backend/src/main/java/com/nba/service/GraphService.java:88-97 | a response exactly for line, histogram and scatter, of the requested type and chart kind; otherwise the error names the missing or unsupported type |
| GraphService.LineAxesPresent | backend/src/main/java/com/nba/service/GraphService.java:167-172 | the line metadata always has both axes, the supplied ones when supplied |
| GraphService.ScatterStatsPresent | backend/src/main/java/com/nba/service/GraphService.java:283-335 | the scatter builder always sees both stats, the supplied ones when supplied |
| GraphService.LineWithoutPlayers | backend/src/main/java/com/nba/service/GraphService.java:106 | a line request without players has no dataset |
| GraphService.HistogramStatPresent | backend/src/main/java/com/nba/service/GraphService.java:275-278 | the histogram metadata names the (defaulted) stat whenever there are values |
| DataService.FirstContained | backend/src/main/java/com/nba/service/DataService.java:366-403 | the first candidate occurring in the text, none before it occurring, or none at all |
| DataService.FirstContainedOrSpec | backend/src/main/java/com/nba/service/DataService.java:366-403 | the earliest candidate occurring in the text, or the fallback when none does |
| DataService.ExtractStat | backend/src/main/java/com/nba/service/DataService.java:366-376 | `extractStat`: one of the known stat names (no method of DataService calls `extractStat`; it is modelled for completeness) |
| DataService.ExtractTeam | backend/src/main/java/com/nba/service/DataService.java:391-403 | `extractTeam`: one of the known team names |
| DataService.ExtractStats | backend/src/main/java/com/nba/service/DataService.java:378-389 | `extractStats`: one of the three stat pairs |
| DataService.ExtractStatsFirstPair | backend/src/main/java/com/nba/service/DataService.java:378-389 | the first pair with both names mentioned, else points and assists |
| DataService.SeasonNamesAreYears | backend/src/main/java/com/nba/service/DataService.java:337-352 | the candidate seasons are the years 2025 down to 2010 |
| DataService.ExtractSeasonLatest | backend/src/main/java/com/nba/service/DataService.java:336-352 | a mentioned year from 2010 to 2025 makes the season the latest such year mentioned |
| DataService.ExtractSeasonFallback | backend/src/main/java/com/nba/service/DataService.java:354-363 | without a mentioned year, the store's last season, else "2023" |
| DataService.ExtractSeason | backend/src/main/java/com/nba/service/DataService.java:336-363 | `extractSeason`: the first of "2025" down to "2010" mentioned, else the last available season, else "2023" (definition; `ExtractSeasonLatest` and `ExtractSeasonFallback`) |
| DataService.NamesByPieces | backend/src/main/java/com/nba/service/DataService.java:312-331 | one separator step gives the first two trimmed pieces around the first separator |
| DataService.NamesBy | backend/src/main/java/com/nba/service/DataService.java:312-331 | one separator step of `extractPlayerNames`: the two trimmed pieces when splitting gives at least two (definition; `NamesByPieces`) |
| DataService.ExtractPlayerNames | backend/src/main/java/com/nba/service/DataService.java:311-334 | always two names |
| DataService.ExtractPlayerNamesSpec | backend/src/main/java/com/nba/service/DataService.java:311-334 | " vs " first, then " and ", then ",", else two empty names |
| DataService.NoDataOnlyForBadAnalysis | backend/src/main/java/com/nba/service/DataService.java:250-300 | routing picks no query exactly when the analysis fails to parse, so the `"[]"` fallbacks of the comparison and scatter handlers cannot fire (the routed queries' own `"[]"` results are not modelled) |
| DataService.RoutePriority | backend/src/main/java/com/nba/service/DataService.java:258-268 | comparison, then season, then scatter, then team, then single player, each route exactly under its condition |
| DataService.RouteOf | backend/src/main/java/com/nba/service/DataService.java:250-272 | `getDataForAnalysis`: no query for an analysis that fails to parse, else the first matching route (definition; `RoutePriority` and `NoDataOnlyForBadAnalysis`) |
| DataService.IsComparison | backend/src/main/java/com/nba/service/DataService.java:258 | the comparison test: the player text contains "vs", "," or "and" (definition) |
| DataService.IsSeasonQuestion | backend/src/main/java/com/nba/service/DataService.java:260 | the season test: the time period contains "202", "season" or "year" (definition) |
| DataService.IsScatterQuestion | backend/src/main/java/com/nba/service/DataService.java:262 | the scatter test: the chart type contains "scatter" or the stat type "vs" (definition) |
| DataService.IsTeamQuestion | backend/src/main/java/com/nba/service/DataService.java:264 | the team test: the lower-cased player text contains "team", "lakers" or "warriors" (definition) |
| DataService.ComparisonNames | backend/src/main/java/com/nba/service/DataService.java:275-281 | a comparison compares the two extracted names on the requested stat |
| DataService.SeasonQuestionRoute | backend/src/main/java/com/nba/service/DataService.java:283-291 | a season question plots age against points when asking for a correlation, else lists the season's top 20 |
| DataService.ScatterQuestionRoute | backend/src/main/java/com/nba/service/DataService.java:262-263 | a scatter question plots the pair `extractStats` finds in the stat type, for the extracted season |
| DataService.TeamQuestionRoute | backend/src/main/java/com/nba/service/DataService.java:264-265 | a team question asks for the team `extractTeam` finds in the player text |
| DataService.SinglePlayerRoute | backend/src/main/java/com/nba/service/DataService.java:266-267 | any other question asks for the stats of the player text with the stat type as given |
| DataService.HandlePlayerComparison | backend/src/main/java/com/nba/service/DataService.java:275-281 | `handlePlayerComparison`: always a comparison of the two extracted names on the stat type, so its `"[]"` fallback never fires |
| DataService.HandleSeasonAnalysis | backend/src/main/java/com/nba/service/DataService.java:283-291 | `handleSeasonAnalysis`: for the extracted season, age against points exactly when the stat type mentions `vs` or `scatter`, else the top 20 on the stat type |
| DataService.HandleScatterPlot | backend/src/main/java/com/nba/service/DataService.java:293-300 | `handleScatterPlot`: always a scatter of the pair `extractStats` finds, for the extracted season, so its `"[]"` fallback never fires |
| OpenAIService.KeyGuard | backend/src/main/java/com/nba/service/OpenAIService.java:21-43 | no request without a non-empty key; the project flavour exactly for keys starting with `sk-proj-` |
| OpenAIService.KeyKindOf | backend/src/main/java/com/nba/service/OpenAIService.java:21-43 | the key check of both entry points: an error for a missing or empty key, else the project flavour for `sk-proj-` keys and the standard one otherwise (definition; `KeyGuard`) |
| OpenAIService.KeptLines | backend/src/main/java/com/nba/service/OpenAIService.java:282-290 | the kept lines: a subsequence of the split lines holding exactly the non-blank, non-`//` ones |
| OpenAIService.IsContentLine | backend/src/main/java/com/nba/service/OpenAIService.java:286-287 | a line is kept when its trimmed text is non-empty and does not start with `//` (definition; `KeptLines`) |
| OpenAIService.CommentEnd | backend/src/main/java/com/nba/service/OpenAIService.java:292 | the first comment closer before any line break, or none |
| OpenAIService.StripBlockComments | backend/src/main/java/com/nba/service/OpenAIService.java:292 | removing block comments never lengthens the text |
| OpenAIService.KeptTextJoinsKept | backend/src/main/java/com/nba/service/OpenAIService.java:285-290 | the builder holds the kept lines, each followed by a newline |
| OpenAIService.AppendKeptLines | backend/src/main/java/com/nba/service/OpenAIService.java:283-290 | the line loop fills the builder with the kept lines |
| OpenAIService.RemoveComments | backend/src/main/java/com/nba/service/OpenAIService.java:281-293 | `removeComments` computes the cleaned text |
| OpenAIService.CommentsRemoved | backend/src/main/java/com/nba/service/OpenAIService.java:281-293 | the cleaned text: the kept lines joined with newlines, block comments removed, trimmed (definition; `RemoveComments` computes it) |
| OpenAIService.StripWithoutComments | backend/src/main/java/com/nba/service/OpenAIService.java:292 | text without a comment opener is left alone |
| OpenAIService.StripLeadingComment | backend/src/main/java/com/nba/service/OpenAIService.java:292 | a one-line block comment at the start is removed |
| OpenAIService.StripOneComment | backend/src/main/java/com/nba/service/OpenAIService.java:292 | a one-line block comment after comment-free text is removed and the text before it kept |
| OpenAIService.JsonSpan | backend/src/main/java/com/nba/service/OpenAIService.java:263-266 | the span from the first `{` to just past the last `}`, when that is non-empty |
| OpenAIService.JsonSpanBounds | backend/src/main/java/com/nba/service/OpenAIService.java:263-266 | a span exists exactly when a `{` occurs before the last `}`; it starts at the first `{` and ends just past the last `}` |
| OpenAIService.ExtractJson | backend/src/main/java/com/nba/service/OpenAIService.java:261-279 | no JSON when there is no span, else the cleaned span if it parses and an invalid-JSON error if not; a success always parses |
| SetupDatabase.FirstMatchFrom | setup_database.py:144 | `re.search`: the leftmost match position, or none when the pattern matches nowhere |
| SetupDatabase.ExtractYearNone | setup_database.py:142-145 | no year exactly when the pattern matches nowhere |
| SetupDatabase.ExtractYearLeftmost | setup_database.py:142-145 | the year comes from the leftmost match |
| SetupDatabase.ExtractYear | setup_database.py:142-145 | `extract_year_from_filename`: the four digits of the leftmost match, or none (definition; `ExtractYearNone`, `ExtractYearLeftmost`, `SeasonFileYear`) |
| SetupDatabase.FourDigits | setup_database.py:144 | a year from 1000 to 9999 renders as four digits |
| SetupDatabase.SeasonFileYear | setup_database.py:142-145 | a season file name in a directory without `N` yields its year |
| SetupDatabase.ImportIff | setup_database.py:189-192 | a file is imported exactly when its year is read and is not 0 |
| SetupDatabase.ShouldImport | setup_database.py:189-192 | `if not year: continue`: a file is imported when its year is present and nonzero (definition; `ImportIff`) |
| SetupDatabase.ImportSeasonFile | setup_database.py:183-192 | every season file of the data directory is imported |
| SetupDatabase.SkipYearZero | setup_database.py:189-192 | `NBA_0000_per_game_stats.csv` matches with year 0 and is still skipped |
| SetupDatabase.StripStartIndex | setup_database.py:154 | the first non-whitespace position at or after a start |
| SetupDatabase.StripEndIndex | setup_database.py:154 | the end of a range once trailing whitespace is dropped |
| SetupDatabase.IsPySpace | setup_database.py:154 | the characters `str.strip` removes: Python's whitespace set (definition) |
| SetupDatabase.PyStrip | setup_database.py:154 | `str.strip`: an infix with non-whitespace ends, around which only whitespace was removed |
| SetupDatabase.PyStripIdempotent | setup_database.py:154 | stripping twice is stripping once |
| SetupDatabase.CleanStripped | setup_database.py:155-172 | the cleaning of a stripped string: a float, an int without a dot, the raw string only when the matching conversion fails, never a pass-through value |
| SetupDatabase.CleanValue | setup_database.py:147-174 | `clean_value`: other values pass through unchanged, and each string outcome is the stripped text under its conversion rule |
| SetupDatabase.CleanValueNone | setup_database.py:149-163 | `None` exactly for a missing cell, an empty or blank string, or a leading-dot string that is not a float |
| SetupDatabase.LeadingDotNeverRaw | setup_database.py:159-163 | a stripped string starting with `.` becomes a float or `None`, never itself |
| SetupDatabase.CleanValueStripped | setup_database.py:154 | surrounding whitespace does not change the cleaned value |
| Constants.GenerateYears | frontend/src/constants.js:69-75 | 41 years "2025" down to "1985", each the rendering of its year, reading back as it, all distinct |
| Constants.GenerateAgeRanges | frontend/src/constants.js:77-83 | "All", then "18" up to "44": 28 entries, each rendered age parsing to an age from 18 to 44 and none "All" |
| Constants.YearsReadBack | frontend/src/constants.js:69-75 | the rendered years read back as the years and are distinct |
| Constants.AgesReadBack | frontend/src/constants.js:77-83 | the rendered ages read back as ages from 18 to 44 and differ from "All" |

## Left out

- I/O, persistence and outside services are parameters of the model:
  - The repository is a `Store` value whose query results are functions of their arguments. The SQL behind them and their row order are not modelled. `findByYearAndMinGames` is modelled as the season's records filtered by games played.
  - `getAllSeasons` is an optional list; it is `None` when the query throws.
- Logging is left out. This covers all `System.out.println` output, the `print` calls of `setup_database.py`, and the early-season debug block of `getSeasonData`. None of it affects a result.
- `getPlayerData` has a case-insensitive name lookup when a player has no rows. It only logs and changes no data, so it is left out.
- The stat values are Java `double`s, modelled as exact `real`s:
  - Edges and bin membership are exact, so bins partition the range exactly. With floating-point rounding a value could land next to an edge.
  - `binCount == 0` gives the single NaN edge the code produces.
  - The `"%.1f"` label text of a bin member is not modelled; a bin lists its records instead of their label strings.
- The `limit(10)` debug stream and the unused `statName` argument of `getSeasonData` are left out. So are the `template` field and `getValueForAxis`, which is a plain call to `getValueForStat`.
- `getStatLabel`, `getRandomColor` and `getConcentrationColor` are helpers the core builders never call, so they are not part of this model. The same holds for `searchPlayers` and `getTeams`, which are plain repository pass-throughs.
- `JavaText.ToLower`: only ASCII letters are lowered; Java's full Unicode case mapping is not modelled.
- `JavaText.Trim` follows Java `trim` (chars up to U+0020).
- `Awards.LexLeq`: `compareTo` is modelled as char-code order. That is UTF-16 order for the BMP characters the tokens use.
- `JavaText.ParseInt`: only ASCII digits are accepted. Java also accepts other Unicode digits. The value read and the accepted inputs are stated by `ParseSignedDigits` and its corollaries.
- The dedup key: Java builds the string `player + "_" + year`. The model uses the pair (player, year). A year's decimal text contains no `_`, so two different pairs never give the same string and the two keys agree.
- A `null` entry inside a request's year, player or filter list is not modelled; such an entry would throw in the source.
- For the OpenAI service:
  - The REST calls, the prompts and the two request flavours' bodies are out of scope. `OpenAIService.KeyGuard` states only the choice between them.
  - Jackson's `readTree` is modelled by the abstract predicate `isJson`.
  - The block-comment pass follows Java `replaceAll("/\\*.*?\\*/", "")`. `.` matches no line terminator, and the leftmost shortest match is taken.
- `DataService`: the bodies of the query methods (`getPlayerComparison`, `getSeasonAnalysis`, `getScatterPlotData`, `getTeamStats`, `getPlayerStats`) are repository queries serialised to JSON. The model returns the query chosen, a `Route`, instead of its JSON. JSON parsing of the analysis is modelled as `Option<Analysis>`: `None` for input that fails to parse or lacks a field, which the catch-all turns into "[]".
- DataService.NoDataOnlyForBadAnalysis: states only that routing picks no query for a bad analysis. The routed queries also answer `"[]"` themselves: `getPlayerStats` with no rows (`DataService.java:57-58`), a comparison with both players empty (`127-128`), `getSeasonAnalysis` with no rows (`178-179`), `getScatterPlotData` with no rows (`220-221`), and the catch blocks of the five queries (`83-84`, `109-110`, `169-170`, `205-206`, `245-246`). Only the catch-all of `getDataForAnalysis` itself (`270-271`) is modelled. Those results are not modelled, because the query bodies are not part of this model.
- For `setup_database.py`:
  - pandas, psycopg2 and the row loop of `import_data` (the table inserts) are not modelled.
  - `pd.isna` is the `Missing` cell.
  - Python's `float()` and `int()` acceptance is given as the abstract predicates `floatOk` and `intOk`.
  - `\d` of the file-name pattern is modelled as ASCII digits. Python's `\d` also matches other Unicode decimal digits.
- The `GraphController`, the DTO classes beyond the request fields the builders read, and the React components are not part of this model.
- The record model is built from the accessors GraphService calls on a record (`getYear`, `getPlayer`, `getTeam`, `getAge`, `getGamesPlayed` and the stat getters) together with the columns of the `player_stats` table of `setup_database.py:86-123`. The `PlayerStats` entity class is not part of this model. The request class carries the filter fields `awards`, `teamsFilter` and `ageRange` that `getSeasonData` reads.
- StatAccessor.ValueForStat / Records.SeasonRecord: year and player are assumed present. `player_stats.player_id` and `season_id` are nullable references (`setup_database.py:89-91`), so the source can see a null year or player. The model leaves out the null branch of the `year` case (`GraphService.java:554-555`) and the `"null"` text a dedup key (`GraphService.java:380`, `518`) would then contain.
- What the builders return, as the code has it:
  - No builder attaches a completeness warning to its response.
  - A histogram bin lists "player (year) - value" strings; the model lists the records themselves.
  - The histogram metadata names only the stat and the bin members.
  - An empty histogram gets empty edges and counts, and no metadata.
