# Match predictor core, modelled in Dafny

The modelled system predicts the outcomes of Counter-Strike matches. Python scrapers read
HLTV pages into MySQL tables: team rankings, weekly team statistics, series and map results,
upcoming matches and their outcomes. Python code then turns those tables into feature rows
and trains two models on them, a logistic regression and a multi-layer perceptron. Both
models predict the upcoming matches. An Express route and two React panels report dataset
statistics and model metrics.

This project models the deterministic rules of that pipeline, one Dafny module per source
file:

- **Scrapers.**
  - `ScraperUtil`: the date-range helper.
  - `TeamRanking`: the ranking scraper, with id-from-link parsing and upsert-by-id.
  - `TeamStatsByDate`: the weekly team-statistics scraper. It covers the ranking list, the
    50-day window, the percent conversion, the join of the two tables and the weekly loop.
  - `MatchInfo`: the series scraper. It covers the tier code, map tallies, series outcome,
    best-of and the grouping of rows into series.
  - `MatchOutcome`: the results scraper. It covers headline cleaning and date parsing, the
    keep/skip/raise rules, the outcome rule and the outcome update.
  - `UpcomingMatches`: the upcoming-match scraper and its insert.
- **Machine learning.**
  - `MlUtil`: `process_matches` and its 20-slot rows.
  - `NnPredict`: the live feature loop of the neural network, the decision rule and the
    insert loop.
  - `LrPredict`: the live prediction run of the logistic regression.
  - `NnModel`: the hyperparameter grid, best-configuration selection and batch sizes.
  - `Mlp`: the layer list of `MLP`.
- **Front end and routes.**
  - `Metrics`: ROC AUC and log loss.
  - `DatasetInfo`: the feature-vector distribution and correlation colours.
  - `ModelPerformance`: the confusion-matrix scores and colours.
  - `MetricsRoutes`: the dataset-statistics routes.
- **Shared modules.**
  - `Common`: Option/Result, sums and filters.
  - `Sorting`: a stable sort by a real key. It stands for Python `sorted` and
    `Array.prototype.sort`, which are stable, and for SQL `ORDER BY`, which leaves the order of
    ties open; there the model picks input order (this fixes the order of matches with the
    same date and time in `NnPredict.WindowSpec`).
  - `Text`: `strip`, `split`, `int` and `float` on decimal text.
  - `Calendar`: proleptic Gregorian dates, `timedelta` in days, `strptime` with
    `%Y-%m-%d [%H:%M:%S]`, and `strftime('%Y-%m-%d')`.
  - `JsMath`: JavaScript numbers, where `None` stands for NaN or an infinity.

**What the model takes as inputs.**

- Pages are records of optional fields: a missing element is `None`, and a lookup on it raises.
- Database tables are sequences or maps of rows. A query result is an input, either the rows
  or a failure.
- Trained models, the scaler, `ln` and `sqrt` are parameters. So are the helpers that the
  source imports but does not define (`get_hth_wins`, `get_team_stats_by_date`,
  `get_past_stats`), and the fitted encoder's classes that the logistic-regression run loads.
- `process_matches` fits its own encoders; the model computes those classes from the tables.

**What the models prove.**

- Methods that loop in the source are methods here, with loop invariants. Each is proved
  equal to a specification function.
- The properties are lemmas about those functions: round trips, bounds, last-write-wins maps,
  order and filter preservation, and if-and-only-if rules for every skip/raise path.

**The feature rows.** They are not built by a chronological replay of past matches.
`process_matches` reads the `team_stats` row of the match itself
(backend/ml_model/ml_util.py:67-89). The live predictors read the most recent rows with no
date cutoff (backend/ml_model/lr_predict.py:73-77). The model follows that code.

## Model

| member | source | states |
|---|---|---|
| ScraperUtil.GetDateRange | backend/scraper/scraperUtil.py:20-25 | succeeds exactly when the text matches `%Y-%m-%d %H:%M:%S` and the earlier day is representable; both dates are 10 characters |
| ScraperUtil.DateRangeSpan | backend/scraper/scraperUtil.py:20-25 | the pair is (end, start): end is the timestamp's day, start is exactly `delta` days earlier across month/year ends, delta 0 gives start = end, delta ≥ 0 gives start ≤ end |
| Calendar.OrdinalOrder | backend/scraper/teamStatsByDate.py:119 | comparing dates field by field agrees with comparing day numbers, and day numbers identify dates |
| Calendar.NextDayOrdinal | backend/scraper/teamStatsByDate.py:139 | the next day is one day number later |
| Calendar.PrevDayOrdinal | backend/scraper/scraperUtil.py:23 | the previous day is one day number earlier |
| Calendar.AddDaysOrdinal | backend/scraper/teamStatsByDate.py:139 | adding k days (either sign) moves the day number by exactly k |
| Calendar.ParseFormatYmd | backend/scraper/teamStatsByDate.py:116-117 | parsing `%Y-%m-%d` text that `strftime` wrote gives the same date back |
| Calendar.ParseYmdHmsFormatted | backend/scraper/scraperUtil.py:21 | a timestamp written as `%Y-%m-%d %H:%M:%S` parses back to the same date and time |
| Calendar.ParseYmd | backend/scraper/teamStatsByDate.py:116 | a successful parse yields a date `datetime` can represent |
| Calendar.ParseYmdHms | backend/scraper/scraperUtil.py:21 | a successful parse yields a representable date and a valid time of day |
| Calendar.FormatYmd | backend/scraper/scraperUtil.py:22 | `%Y-%m-%d` output is always ten characters |
| Calendar.PaddedValue | backend/scraper/teamStatsByDate.py:47-48 | zero-padded digits read back as the number modulo the power of ten |
| Text.StripCharEnds | backend/scraper/teamRanking.py:26 | `strip(c)` keeps text that neither starts nor ends with c, and removes one trailing c |
| Text.JoinSplit | backend/scraper/teamRanking.py:26 | joining the fields of `split(sep)` with sep gives the text back |
| Text.ParseIntNatText | backend/scraper/teamRanking.py:27 | `int` of the decimal text of n is n |
| Text.DigitsValueNatText | backend/scraper/teamRanking.py:27 | the digits written for n have value n |
| Text.StripNoSpace | backend/scraper/teamRanking.py:28 | `strip()` keeps text with no white space at its ends |
| Text.ParseDecimalOfParts | backend/scraper/teamStatsByDate.py:91 | `float("<whole>.<frac>")` reads the digits of both parts, scaled by the fraction's length |
| Text.DecimalPartsValue | backend/scraper/teamStatsByDate.py:91 | that number equals whole + frac / 10^len(frac) |
| TeamRanking.TeamIdFromHrefRoundTrip | backend/scraper/teamRanking.py:25-27 | a link `/team/<id>/<slug>` yields the id back |
| TeamRanking.UpsertsKeepAbsent | backend/scraper/teamRanking.py:30-35 | a team absent from the page keeps its previous row, and no row is created for it |
| TeamRanking.UpsertsLastWins | backend/scraper/teamRanking.py:21-37 | the row of an id holds the name and the rank (page position + 1) of its last occurrence |
| TeamRanking.GetTeams | backend/scraper/teamRanking.py:21-41 | the table is the upsert of every team read before the first raising block; `stopped` exactly when a block raised |
| TeamStatsByDate.RankingSpec | backend/scraper/teamStatsByDate.py:16-41 | a list exists exactly when every block reads, and then entry k is block k's id and name with rank k + 1 |
| TeamStatsByDate.GetTeamRanking | backend/scraper/teamStatsByDate.py:18-41 | the counter loop returns that list, or None after an exception |
| TeamStatsByDate.WindowStartFifty | backend/scraper/teamStatsByDate.py:45 | the window starts exactly 50 days before, strictly earlier than the date |
| TeamStatsByDate.PercentScale | backend/scraper/teamStatsByDate.py:91-101 | dividing by 100 is moving the decimal point two places |
| TeamStatsByDate.PercentOfDecimal | backend/scraper/teamStatsByDate.py:91 | "w.f%" becomes (w + f/10^len f) / 100 |
| TeamStatsByDate.FirstRow | backend/scraper/teamStatsByDate.py:73-74 | the row found has the team's exact name; None exactly when no row has it |
| TeamStatsByDate.BuildStatRowSpec | backend/scraper/teamStatsByDate.py:86-102 | a row is built iff all eight percent cells convert; it carries the id, name, rank and date, MultiK/ADR/FA unchanged and each converted cell in its column |
| TeamStatsByDate.JoinRowsJoined | backend/scraper/teamStatsByDate.py:67-76 | only teams found by exact name in both tables get a row, with their own id, rank and the date |
| TeamStatsByDate.JoinRowsRollback | backend/scraper/teamStatsByDate.py:132-137 | once a team's conversion raised, the whole date is rolled back |
| TeamStatsByDate.InsertTeamStat | backend/scraper/teamStatsByDate.py:66-104 | the loop over the ranked teams executes exactly the joined rows, or raises |
| TeamStatsByDate.ProcessDate | backend/scraper/teamStatsByDate.py:124-137 | one date commits the joined rows, or nothing when the ranking or a conversion raised |
| TeamStatsByDate.WeeklyRun | backend/scraper/teamStatsByDate.py:116-140 | visits start, start+7, … up to end inclusive, (end − start)/7 + 1 dates, none when start > end; a missing ftu table ends the run at that date; commits each date's rows in order |
| TeamStatsByDate.ConfiguredRange | backend/scraper/teamStatsByDate.py:112-117 | the configured run covers 2024-05-27 to 2025-05-26, exactly 52 weeks |
| MatchInfo.TierCodeSpec | backend/scraper/matchInfo.py:14-25 | exactly Majors, BigEvents, Lan and Online get a code, codes are 1–4 and distinct |
| MatchInfo.TallySpec | backend/scraper/matchInfo.py:27-32 | A's and B's map wins add up to the map count, and A's are the maps with outcome 1; raises iff a map has no outcome |
| MatchInfo.BestOfSpec | backend/scraper/matchInfo.py:39-51 | best-of is 1, 3 or 5, covers 1–5 maps, and three maps give 3 exactly when the margin is 1 |
| MatchInfo.SeriesAveragesBounds | backend/scraper/matchInfo.py:55-66 | the averaged rating lies within the per-map ratings |
| MatchInfo.SeriesInfoSpec | backend/scraper/matchInfo.py:7-89 | an inserted row has the type's tier code, a covering best-of, the winner by map count (None on a tie) and the first map's date, tournament and teams |
| MatchInfo.SeriesInfoSucceeds | backend/scraper/matchInfo.py:27-89 | a series with all outcomes, a named first map, non-zero mean deaths and a known type is always inserted |
| MatchInfo.InsertSeriesInfo | backend/scraper/matchInfo.py:7-89 | in the source's order (the tally loop, outcome and best-of from its counts, both teams' averages, the header names, the tier code) the statements insert exactly SeriesInfo's row, or raise its error |
| MatchInfo.RunsFlatten | backend/scraper/matchInfo.py:218-227 | the runs put back together are the rows in order |
| MatchInfo.RunsUniform | backend/scraper/matchInfo.py:218-227 | every run is non-empty and shares one class |
| MatchInfo.RunsMaximal | backend/scraper/matchInfo.py:218-227 | neighbouring runs have different classes |
| MatchInfo.RunsOneClass | backend/scraper/matchInfo.py:218-227 | rows of a single class form one run |
| MatchInfo.FlushedSpec | backend/scraper/matchInfo.py:208-216 | only buffers holding a map are flushed, and together they hold every map in order |
| MatchInfo.GroupsKeepAllMaps | backend/scraper/matchInfo.py:218-253 | without exceptions every extracted map is inserted once, in table order, in a non-empty series |
| MatchInfo.OneClassOneSeries | backend/scraper/matchInfo.py:218-253 | a table of one class is one series, flushed at the end |
| MatchInfo.ScanMeaning | backend/scraper/matchInfo.py:218-251 | the row-by-row buffer state equals the run decomposition of the rows read |
| MatchInfo.GroupsAtEnd | backend/scraper/matchInfo.py:218-253 | the series are the buffers flushed in the loop plus the final non-empty buffer |
| MatchInfo.GroupsAtMissingClass | backend/scraper/matchInfo.py:219 | a row without a class loses the open buffer |
| MatchInfo.GroupsAtRaise | backend/scraper/matchInfo.py:239-240 | a raising page loses the run that row belongs to, after the row's class change |
| MatchInfo.ProcessCurrentGroup | backend/scraper/matchInfo.py:208-216 | one insert attempt exactly when the buffer holds a map |
| MatchInfo.ReadRow | backend/scraper/matchInfo.py:229-240 | a row without a statistics link contributes nothing; otherwise its page's extract |
| MatchInfo.ScrapeTeamData | backend/scraper/matchInfo.py:189-256 | the loop attempts one insert per flushed series, in order |
| MatchInfo.EnterGroup | backend/scraper/matchInfo.py:221-227 | comparing a row's class with the current group: on a change the buffer is flushed and a new group starts, so the state matches the row-at-a-time scan after the row |
| MatchInfo.InsertAll | backend/scraper/matchInfo.py:212 | one insert attempt per series |
| MatchOutcome.HeadlineRoundTrip | backend/scraper/matchOutcome.py:47-52 | a headline such as "Results for March 21st 2024" yields its date |
| MatchOutcome.DropWords | backend/scraper/matchOutcome.py:50 | removing "Results for " leaves the rest of the headline |
| MatchOutcome.DropSuffix | backend/scraper/matchOutcome.py:51 | the ordinal suffix after the day is removed and nothing else |
| MatchOutcome.ParseClean | backend/scraper/matchOutcome.py:52 | `%B %d %Y` reads the cleaned text as the date |
| MatchOutcome.DropOrdinalsDay | backend/scraper/matchOutcome.py:51 | a day with its suffix loses only the suffix |
| MatchOutcome.DropOrdinalsNone | backend/scraper/matchOutcome.py:51 | text without lower-case letters is unchanged |
| MatchOutcome.DropResultsForNone | backend/scraper/matchOutcome.py:50 | text without "R" is unchanged |
| MatchOutcome.MonthFromTitle | backend/scraper/matchOutcome.py:52 | a month name in any case is recognised as that month, and no earlier month matches |
| MatchOutcome.ParseResultSpec | backend/scraper/matchOutcome.py:56-95 | a result is kept iff event, two teams, winner and both scores exist; raises iff only the winner is missing; outcome 1/0 by the winner's name, none on a blank text |
| MatchOutcome.CollectedSpec | backend/scraper/matchOutcome.py:42-100 | all kept records without a raise, those before the first raise otherwise; every record comes from a kept result |
| MatchOutcome.CollectedFirstRaise | backend/scraper/matchOutcome.py:97-100 | the first exception returns what was collected before it |
| MatchOutcome.CollectedSticky | backend/scraper/matchOutcome.py:97-100 | nothing after the exception is collected |
| MatchOutcome.ParseResultsLoop | backend/scraper/matchOutcome.py:39-100 | the nested loops over day blocks and results compute exactly those records |
| MatchOutcome.AsWrittenNeedsEveryOutcome | backend/scraper/matchOutcome.py:24-33 | as written, the update runs only when every record has an outcome |
| MatchOutcome.BlankScoreBlocksUpdate | backend/scraper/matchOutcome.py:24-33 | a page with one unscored result writes no outcome at all |
| MatchOutcome.UpdateValuesSpec | backend/scraper/matchOutcome.py:24-33 | one tuple per record with an outcome; equal to the source's list whenever that list exists |
| MatchOutcome.ApplyAllSpec | backend/scraper/matchOutcome.py:13-35 | only `actual_outcome` changes, to that of the last update matching (team A, team B, day, tournament) |
| UpcomingMatches.ParseOneSpec | backend/scraper/upcomingMatches.py:37-60 | kept iff it has an event, a readable time and two team names; date × 1000 = the `data-unix` value; teams are the first two names, stripped |
| UpcomingMatches.ParseAllAppend | backend/scraper/upcomingMatches.py:37-62 | page order is kept |
| UpcomingMatches.ParseAllSpec | backend/scraper/upcomingMatches.py:37-62 | succeeds iff no element raises; then a match is returned iff some element keeps it |
| UpcomingMatches.ParseUpcomingMatches | backend/scraper/upcomingMatches.py:31-62 | only the first section is read, None without one |
| UpcomingMatches.InsertValuesSpec | backend/scraper/upcomingMatches.py:12-28 | one row per match, in order, with its four fields; rows differ when matches differ |
| MlUtil.StrLessTransitive | backend/ml_model/ml_util.py:44-49 | Python's string order, by code point with a proper prefix first, is transitive |
| MlUtil.StrLessTotal | backend/ml_model/ml_util.py:44-49 | any two distinct strings are ordered one way or the other |
| MlUtil.StrLessAsymmetric | backend/ml_model/ml_util.py:44-49 | no two strings are each below the other |
| MlUtil.InsertClassSpec | backend/ml_model/ml_util.py:44-49 | putting a name among sorted classes adds exactly that name and keeps them strictly increasing |
| MlUtil.ClassesSpec | backend/ml_model/ml_util.py:42-49 | the fitted classes (`np.unique`) hold exactly the values, strictly increasing, so each once |
| MlUtil.SortedClassesUnique | backend/ml_model/ml_util.py:42-49 | two strictly increasing lists of the same names are equal, so the classes do not depend on the order the names come in |
| MlUtil.CodeIsRank | backend/ml_model/ml_util.py:57-59 | over sorted classes, `transform` gives the number of classes below the name |
| MlUtil.CodeOrder | backend/ml_model/ml_util.py:57-59 | over sorted classes, one code is below another iff its name is below in string order |
| MlUtil.CodeInjective | backend/ml_model/ml_util.py:43-49 | two names share a code iff they are equal |
| MlUtil.LastByKeyDomain | backend/ml_model/ml_util.py:51-52 | a key is in the dict iff some row has it |
| MlUtil.LastByKeyLastWins | backend/ml_model/ml_util.py:51-52 | with duplicate keys the later row wins |
| MlUtil.BuildTables | backend/ml_model/ml_util.py:41-52 | each encoder's classes are exactly the map (team) names of the tables, strictly increasing and duplicate-free, and every match can be encoded |
| MlUtil.EncoderSortsNames | backend/ml_model/ml_util.py:47-59 | one match of "B" against "A" puts code 1 in slot 1 and code 0 in slot 2, the sorted order, not the order the names are met |
| MlUtil.FeatureRowSlots | backend/ml_model/ml_util.py:61-110 | 20 slots: map, A, B codes, A's six stats, B's six, A's map W/L, B's, label |
| MlUtil.LabelRule | backend/ml_model/ml_util.py:107 | label 1 iff A won more rounds; a tie gives 0 |
| MlUtil.SwapTeams | backend/ml_model/ml_util.py:58-107 | swapping teams swaps codes, stat and map blocks; the label flips except on a tie |
| MlUtil.TeamCodeEitherSide | backend/ml_model/ml_util.py:47-59 | a team has the same code as team A or team B |
| MlUtil.MissingStatsDefault | backend/ml_model/ml_util.py:68-77 | missing stats are exactly 1, 0.5, 0.1, 1.0, 70, 80 |
| MlUtil.StatsFromLastRow | backend/ml_model/ml_util.py:68-77 | present stats come from the last row with that (match id, team) |
| MlUtil.MissingMapRecordZero | backend/ml_model/ml_util.py:92-97 | no map record for team A gives 0 wins and 0 losses in slots 15-16 |
| MlUtil.MissingStatsDefaultB | backend/ml_model/ml_util.py:79-89 | missing stats for team B are exactly 1, 0.5, 0.1, 1.0, 70, 80 in slots 9-14 |
| MlUtil.StatsFromLastRowB | backend/ml_model/ml_util.py:79-89 | team B's present stats come from the last row with that (match id, team) |
| MlUtil.MissingMapRecordZeroB | backend/ml_model/ml_util.py:99-104 | no map record for team B gives 0 wins and 0 losses in slots 17-18 |
| MlUtil.MatchFeatures | backend/ml_model/ml_util.py:57-107 | the loop body builds that row |
| MlUtil.ProcessMatches | backend/ml_model/ml_util.py:38-112 | one row per match, in order, each the feature row over encoders fitted on the sorted names of the tables |
| MlUtil.FeatureRows | backend/ml_model/ml_util.py:56-112 | the loop over the matches yields exactly the feature row of each match, in order |
| NnPredict.Past | backend/ml_model/nn_predict.py:18-19 | `past` is two days before today, or the run stops |
| NnPredict.WindowSpec | backend/ml_model/nn_predict.py:21-35 | exactly the matches dated today−2 to today, sorted by date and time |
| NnPredict.WindowCount | backend/ml_model/nn_predict.py:21-35 | one window row per table match in range |
| NnPredict.CopySign | backend/ml_model/nn_predict.py:69 | magnitude of x with the sign of d, 0 counting as positive |
| NnPredict.RankingDiffSign | backend/ml_model/nn_predict.py:68-69 | the compressed gap has the raw gap's sign, maps 0 to 0 and is odd |
| NnPredict.RankingDiffMonotone | backend/ml_model/nn_predict.py:68-69 | a larger raw gap never gives a smaller compressed one |
| NnPredict.HthDiffRule | backend/ml_model/nn_predict.py:62-66 | first count minus second, 0 without a record, negated from B's side |
| NnPredict.DifferentialsSwap | backend/ml_model/nn_predict.py:62-84 | swapping the teams negates all 17 differentials |
| NnPredict.DifferentialsMirror | backend/ml_model/nn_predict.py:68-84 | a team against itself gets all-zero differentials |
| NnPredict.RowDiffs | backend/ml_model/nn_predict.py:52-105 | a filled row has 17 differentials; a missing lookup or raise leaves None |
| NnPredict.FillDifferentials | backend/ml_model/nn_predict.py:49-105 | the loop fills every row's columns in place with that value |
| NnPredict.FeaturesLayout | backend/ml_model/nn_predict.py:107-108 | a kept row has 19 features: tournament type, best-of, then its differentials |
| NnPredict.DropnaSpec | backend/ml_model/nn_predict.py:107 | `dropna` keeps exactly the complete rows in order, all of them when all are complete |
| NnPredict.DecideSpec | backend/ml_model/nn_predict.py:117-121 | prediction 1 iff p > 0.5; confidence is max(p, 1−p) ≥ 0.5 |
| NnPredict.IntendedWritesAt | backend/ml_model/nn_predict.py:127-147 | the i-th kept row gets its scaled vector and then its prediction |
| NnPredict.InsertLoopAsWritten | backend/ml_model/nn_predict.py:119-152 | as written, a single kept row gets its vector but no prediction |
| NnPredict.SingleRowLosesPrediction | backend/ml_model/nn_predict.py:119-124 | the intended writes for one row include a prediction |
| NnPredict.InsertLoop | backend/ml_model/nn_predict.py:127-152 | the corrected loop writes a vector and a prediction per kept row |
| NnPredict.KeptRows | backend/ml_model/nn_predict.py:18-111 | the rows reaching the insert loop are non-empty and all complete; None when the run raises before |
| NnPredict.SelectRows | backend/ml_model/nn_predict.py:18-107 | the window, feature loop and `dropna` give exactly those rows |
| NnPredict.PredictMatch | backend/ml_model/nn_predict.py:12-152 | as written: the run's writes with the insert loop as written, or None when it stops before inserting |
| NnPredict.PredictMatchIntended | backend/ml_model/nn_predict.py:12-152 | corrected: the same run with the corrected insert loop |
| NnPredict.RunWritesAgree | backend/ml_model/nn_predict.py:119-152 | the run as written and the corrected run stop together and write the same, except that with exactly one kept row the run as written writes only the first of the two intended writes, the vector |
| NnPredict.RunWritesSpec | backend/ml_model/nn_predict.py:52-147 | every predicted match is in the window, had all lookups and its tournament type and best-of |
| LrPredict.Encode | backend/ml_model/lr_predict.py:39-49 | −1 iff the name is unknown; otherwise its class index |
| LrPredict.RecentSpec | backend/ml_model/lr_predict.py:72-77 | min(10, own rows) of the team's rows, none left out with a larger match id |
| LrPredict.AverageSpec | backend/ml_model/lr_predict.py:67-78 | no average iff the team has no rows; the rating average lies within the recent ratings |
| LrPredict.AverageColumnBounds | backend/ml_model/lr_predict.py:67-78 | each of the four averages (rating, KDA, KAST, ADR) lies within the bounds of its column over the recent rows |
| LrPredict.StatVectorLayout | backend/ml_model/lr_predict.py:56-91 | 12 entries iff both teams have rows and a head-to-head record exists, laid out codes, A's four and wins, B's four and wins |
| LrPredict.DecideSpec | backend/ml_model/lr_predict.py:96-98 | prediction 1 iff proba[1] ≥ 0.5 (ties to 1); confidence ≥ 0.5 when the probabilities sum to 1 |
| LrPredict.RowStepSpec | backend/ml_model/lr_predict.py:38-123 | unknown iff a team is not encoded; an update carries the match key and the decision on the 12-slot vector |
| LrPredict.RunCount | backend/ml_model/lr_predict.py:38-123 | a full run issues one update per match with known teams |
| LrPredict.RunUpdatesFromRows | backend/ml_model/lr_predict.py:38-123 | every update comes from some pending match |
| LrPredict.RunStep | backend/ml_model/lr_predict.py:38-123 | each row adds nothing, aborts, or adds its update |
| LrPredict.RunAbortSticky | backend/ml_model/lr_predict.py:96 | an incomplete vector raises outside any `try` and ends the run |
| LrPredict.PredictMatch | backend/ml_model/lr_predict.py:10-123 | over the `outcome IS NULL` rows, marks unknown teams −1 in the frame and issues the run's updates |
| LrPredict.ApplyUpdateSpec | backend/ml_model/lr_predict.py:100-119 | only rows with the key change, only in outcome and confidence, and stop being pending; idempotent |
| NnModel.TotalConfigurations | backend/ml_model/nn_model.py:74-85 | the grid has 540 configurations |
| NnModel.ConfigAtIndex | backend/ml_model/nn_model.py:89-94 | each combination is visited at its loop position |
| NnModel.ConfigAtInjective | backend/ml_model/nn_model.py:89-94 | different positions visit different configurations |
| NnModel.PredictedClass | backend/ml_model/nn_model.py:54 | class 1 iff p > 0.5 |
| NnModel.FoldAccuracySpec | backend/ml_model/nn_model.py:54-56 | accuracy in [0, 1], NaN on an empty fold, 1 iff all predictions right |
| NnModel.NanMeanSpec | backend/ml_model/nn_model.py:131 | NaN iff all entries are, otherwise within the entries' bounds |
| NnModel.EnumerateConfigurations | backend/ml_model/nn_model.py:83-142 | `config_idx` ends at 540, one result per configuration in loop order |
| NnModel.EnumerateBatch | backend/ml_model/nn_model.py:92-136 | the two innermost loops append the twelve entries that follow the grid prefix, in loop order |
| NnModel.GridSpec | backend/ml_model/nn_model.py:89-142 | entry k scores the configuration at k, each combination at its index |
| NnModel.BestConfigSpec | backend/ml_model/nn_model.py:144-149 | the best is a valid entry of maximal accuracy, earliest among ties; none iff no entry is valid |
| NnModel.NnCrossValidate | backend/ml_model/nn_model.py:63-229 | raises iff every accuracy is NaN; otherwise returns None and all results |
| NnModel.NnCrossValidateIntended | backend/ml_model/nn_model.py:144-149 | returns the selected best configuration with all results |
| NnModel.FinalTrainingSetup | backend/ml_model/nn_model.py:232-253 | fails iff given None; trains the given configuration for 40 epochs with a batch size in [1, n] |
| NnModel.SearchResultReachesNoTraining | backend/ml_model/nn_training.py:7-8 | as written, final training always fails |
| NnModel.SearchResultTrainsBest | backend/ml_model/nn_training.py:7-8 | with the intended return, final training uses the best valid configuration |
| NnModel.EffectiveBatchSize | backend/ml_model/nn_model.py:110-111 | max(1, min(batch, n)): the batch when it fits, n when smaller, 1 when empty |
| NnModel.FinalBatchSize | backend/ml_model/nn_model.py:168-169 | min(batch, n), possibly 0 |
| NnModel.FinalBatchSizeAgrees | backend/ml_model/nn_model.py:168-169 | agrees with the clamped size on non-empty folds |
| Mlp.BuildLayers | backend/ml_model/models/mlp.py:8-16 | the loop builds the layer list |
| Mlp.MLP.constructor | backend/ml_model/models/mlp.py:6-17 | `model` is that list |
| Mlp.LayerCount | backend/ml_model/models/mlp.py:10-17 | widths × (3 with dropout, 2 without) + 1 layers |
| Mlp.LinearChain | backend/ml_model/models/mlp.py:9-16 | Linear layers chain from the input size through the widths to the output size |
| Mlp.DropoutPresence | backend/ml_model/models/mlp.py:13-14 | a Dropout layer exists iff rate > 0 and a width exists, with that rate |
| Metrics.ComputeRocAuc | frontend/src/assets/util/metrics.js:1-35 | returns the ROC area of the ranked copy, leaving both arrays unchanged |
| Metrics.RankedTotals | frontend/src/assets/util/metrics.js:4-12 | the ranked points hold P positives and n − P others, which are N iff labels are binary |
| Metrics.LabelPartition | frontend/src/assets/util/metrics.js:11-12 | P + N ≤ n, equality iff every label is 0 or 1 |
| Metrics.RocCounts | frontend/src/assets/util/metrics.js:14-22 | tps[k] + fps[k] = k + 1, both non-decreasing and within their totals |
| Metrics.RateAt | frontend/src/assets/util/metrics.js:24-25 | rates over a positive total lie in [0, 1], grow, and reach 1 at the end |
| Metrics.AreaBounds | frontend/src/assets/util/metrics.js:27-32 | trapezoid sum from i = 1 lies in [0, fpr growth] |
| Metrics.RocAucFinite | frontend/src/assets/util/metrics.js:24-34 | a number iff fewer than two points or P, N > 0 |
| Metrics.RocAucBounds | frontend/src/assets/util/metrics.js:11-34 | binary labels with both classes end at (1, 1) with AUC in [0, 1] |
| Metrics.Clamp | frontend/src/assets/util/metrics.js:43 | p clamped into [1e-15, 1 − 1e-15] |
| Metrics.ComputeLogLoss | frontend/src/assets/util/metrics.js:37-47 | returns the negated mean of the clamped terms, and NaN when `y_prob` is shorter than `y_true` |
| Metrics.ItemLossBounds | frontend/src/assets/util/metrics.js:43-44 | one loss lies in [0, −ln 1e-15] |
| Metrics.LogLossBounds | frontend/src/assets/util/metrics.js:37-47 | NaN iff there are no labels or fewer probabilities than labels, otherwise in [0, −ln 1e-15] |
| Metrics.ItemLossExtremes | frontend/src/assets/util/metrics.js:43-44 | confident right answers cost −ln(1 − 1e-15); p = ½ costs −ln ½ |
| Sorting.SortBySorted | frontend/src/assets/util/metrics.js:4 | the sort orders by key |
| Sorting.SortBy | frontend/src/components/DatasetInfo.jsx:88 | the sort is a permutation |
| Sorting.SortByFirst | backend/ml_model/nn_model.py:147-149 | stable: the head is the earliest minimal-key element |
| Sorting.FilterSortBy | frontend/src/components/DatasetInfo.jsx:88 | sorting keeps the count of each kind |
| Common.MeanBounds | frontend/src/components/DatasetInfo.jsx:83 | the mean lies within any bounds of the values |
| DatasetInfo.CalculateFVDistribution | frontend/src/components/DatasetInfo.jsx:76-97 | nothing without vectors; otherwise one distribution per column |
| DatasetInfo.ColumnStats | frontend/src/components/DatasetInfo.jsx:82-93 | mean, sd of population variance and median of a column |
| DatasetInfo.StatsKeys | frontend/src/components/DatasetInfo.jsx:79-93 | keys are the first row's; each holds its column's distribution |
| DatasetInfo.SquaredDeviationsShift | frontend/src/components/DatasetInfo.jsx:85 | Σ(x−m)² = Σx² − 2mΣx + nm² |
| DatasetInfo.VarianceNonNegative | frontend/src/components/DatasetInfo.jsx:85 | variance ≥ 0 |
| DatasetInfo.AscendingSpec | frontend/src/components/DatasetInfo.jsx:88 | the sorted copy is an ascending permutation |
| DatasetInfo.MedianBounds | frontend/src/components/DatasetInfo.jsx:88-92 | median within bounds; one of the values when n is odd |
| DatasetInfo.MedianSplits | frontend/src/components/DatasetInfo.jsx:88-92 | at least half the values lie on each side |
| DatasetInfo.CellColorSpec | frontend/src/components/DatasetInfo.jsx:31-36 | correlation in [−1, 1] gives channels in [0, 255] adding to 255; 0 is blue, ±1 red |
| ModelPerformance.AccuracySpec | frontend/src/components/ModelPerformance.jsx:53 | a number iff total > 0, in [0, 1], 1 iff no false results |
| ModelPerformance.PrecisionSpec | frontend/src/components/ModelPerformance.jsx:54 | a number iff tp + fp > 0, in [0, 1], 1 iff fp = 0 |
| ModelPerformance.RecallSpec | frontend/src/components/ModelPerformance.jsx:55 | a number iff tp + fn > 0, in [0, 1], 1 iff fn = 0 |
| ModelPerformance.F1Closed | frontend/src/components/ModelPerformance.jsx:54-56 | a number iff tp > 0, then 2tp/(2tp+fp+fn) |
| ModelPerformance.F1Between | frontend/src/components/ModelPerformance.jsx:56 | lies between precision and recall |
| ModelPerformance.CalculateLogLoss | frontend/src/components/ModelPerformance.jsx:36-51 | equals the metrics-module log loss, NaN included when `yPred` is shorter than `yTrue` |
| ModelPerformance.CellColorSpec | frontend/src/components/ModelPerformance.jsx:65-71 | channels in [0, 255] adding to 255, empty blue, full red, monotone |
| MetricsRoutes.ReduceCounts | backend/src/routes/metricsRoutes.js:56-62 | the reduction adds the number of feature columns |
| MetricsRoutes.FeatureCountSpec | backend/src/routes/metricsRoutes.js:53-63 | 0 without a row; otherwise the feature columns, ≤ keys, 0 iff none, all iff all |
| MetricsRoutes.DatasetStats | backend/src/routes/metricsRoutes.js:65-71 | missing counts default to 0 and dates to null; feature count of the first row |
| MetricsRoutes.DatasetStatsRoute | backend/src/routes/metricsRoutes.js:47-76 | server error iff a query fails, otherwise that body |

## Left out

- HTML fetching and browser driving (Selenium, BeautifulSoup, `pd.read_html`), and the per-page extractors `extract_match_info` and `extract_match_team_stats`. These are foreign libraries; pages are records of optional fields and extractor results are parameters.
- SQL execution, connections, commits and rollbacks. Tables and query results are values; a commit is the rows kept, a rollback the rows dropped.
- Floating point. Numbers are exact reals. `ln`, `sqrt`, the sigmoid and model outputs are parameters, and `ln`'s needed laws (ln 1 = 0, strictly increasing) are a precondition.
- Training and inference in torch/sklearn: `train_epoch`, `evaluate_model_on_fold`'s loss and its `roc_auc_score` call (backend/ml_model/nn_model.py:57, which raises on a fold with one class), the KFold split, the scaler and `joblib`. Trained models are parameters.
- Helpers the source imports but does not define (`get_hth_wins`, `get_team_stats_by_date`, `get_past_stats`, `db_insert_feature_vector`, `process_matches_nn`, plotting): their results are inputs.
- backend/ml_model/lr_training.py calls `process_matches` with one argument although it takes three; the drivers and cron jobs are not part of this model.
- ModelPerformance.jsx:57 is a syntax error; only the formulas around it are modelled.
- React state, rendering and `toLocaleString` date formatting; the logger and request ids; the pass-through routes of the metrics router.
- Wall-clock reads: "today" is a parameter.
- `strptime` month names are the English ones; locales are not modelled.
- `fromtimestamp` local-time conversion in upcomingMatches.py: the date is kept as seconds.
- insert_upcoming does not write `tournament_type` or `best_of`; NnPredict therefore treats both as optional and rows without them are dropped.
- MatchInfo.SeriesAveragesBounds: states the range bound for the rating only; the other averaged columns follow the same shape but are not stated.
- DatasetInfo.VarianceNonNegative: the shortcut identity Var = mean(x²) − mean² is not proved; only the shift identity and non-negativity are.
- NnModel.FinalBatchSize: a zero batch size on an empty fold makes `DataLoader` raise; that exception is not modelled beyond the size itself.
- Metrics.ComputeRocAuc: a `y_prob` shorter than `y_true` (reading `undefined`) is excluded by the precondition; the in-place sort of the fresh copy is modelled as a sorted value.
- DatasetInfo.CalculateFVDistribution: values are numbers; JavaScript coercion of null or missing fields is not modelled.
- backend/scraper/matchInfo.py:5 imports `get_dates`, which backend/scraper/scraperUtil.py does not define (it defines `load_teams`, `get_date_range`, `cookie_accept` and `db_connect`), so importing the module raises `ImportError`. The model describes the scraper as if the import succeeded.
- backend/scraper/upcomingMatches.py:8 imports `cookie_Accept`, but backend/scraper/scraperUtil.py:28 defines `cookie_accept`, so importing the module raises `ImportError` before any scraping. The model describes the scraper as if the import succeeded; cookie handling is browser driving and is not modelled.
- Text.ParseInt and Text.ParseDecimal accept ASCII digits only. Python's `int` and `float` also accept `_` between digits and non-ASCII decimal digits, and `float` accepts exponents, "inf" and "nan". The scraped numbers are plain decimal text.
- NnPredict: feature-vector and prediction writes are the statements executed; whether a later commit keeps them is not modelled.

## Findings

| source | as written | input that shows it | evidently intended | confidence | as-written member | corrected member |
|---|---|---|---|---|---|---|
| backend/ml_model/nn_predict.py:119-147 | `squeeze()` then `tolist()`; `confidences_list[i]` and `predictions_list[i][0]` index the result | a window where exactly one row survives `dropna`: `confidences_list` is a float, indexing raises inside the `try` after the vector insert | every kept row gets a prediction | not executed; high | NnPredict.InsertLoopAsWritten | NnPredict.InsertLoop |
| backend/scraper/matchOutcome.py:24-33 | `match["actual_outcome"]` for every record | one scored and one unscored result on the page: KeyError, no update at all | update the records that carry an outcome | not executed; high | MatchOutcome.BlankScoreBlocksUpdate | MatchOutcome.UpdateValuesSpec |
| backend/ml_model/nn_model.py:228-229 | `best_config_overall = None` before `return` | any grid with a valid result: `nn_train_final_model` then reads `None['params']` (nn_training.py:7-8, nn_model.py:239) | return the selected configuration | not executed; high | NnModel.SearchResultReachesNoTraining | NnModel.SearchResultTrainsBest |
