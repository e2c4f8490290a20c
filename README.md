# Football MMR calculator — a Dafny model

This project models the core of a football team rating calculator. It has two parts.

The rating engine (`src/mmr_system.py`) reads a table of matches. It:
- checks that the six required columns are present;
- drops the rows whose date did not parse;
- orders the remaining matches by date;
- plays them in that order and keeps an Elo-style rating per team.

Before each match, both teams get a preseason adjustment:
- a team seen for the first time starts at the base rating of its division's tier;
- when a team enters a new season, its rating is blended toward the division base;
- after a tier change, the blended rating is moved by a fixed amount. After a promotion it moves toward the new base by the bonus. After a relegation it moves away from the new base by the penalty. So a relegated team whose blended rating is still above the lower base gains the penalty rather than losing it.

The match update is zero-sum, and every match appends one row to the log.

The viewer (`viz/script.js`) does three things:
- It parses the exported log as CSV text.
- It offers the sorted set of team names for selection.
- For one team, it lists that team's matches in date order with the team's rating before each match.

Modules:

- `Wrappers`: `Option`, `Result` and map lookup.
- `Text`: three groups of string helpers:
  - whitespace stripping: Python's `str.strip` and JavaScript's `trim`, over their own whitespace sets;
  - splitting and joining on one separator character;
  - the default string order of `Array.prototype.sort`, with insertion into a strictly sorted list.
- `Sorting`: an in-place insertion sort by an integer key on arrays, and a sorted copy of a sequence. Both are stable: elements with equal keys keep their relative order, as in `Array.prototype.sort`.
- `Tiers`: the tier and base-rating tables, the tier of a division code, the season key of a date, the actual score, the draw case of the goal-difference factor, and the reading of goal cells.
- `Ratings`: the rating engine.
  - The state of a run is the class `Rater`, which holds the team table and the log. Its methods `PreseasonAdjust`, `ApplyMatch` and `UpdateRatings` change that state in place.
  - Each method is proved against the value-level functions `Adjust`, `Step` and `Settle`.
  - `ProcessMatches` is the whole pass. It is proved against `Run`, the left fold of `Step` over the matches.
- `Csv`: `ParseCSV`.
- `Viz`: the team list, the per-team series (`PlotTeamMMR`), and the page state `Viewer`.

Where the model needs the two floating-point formulas, they are parameters (`Ratings.Formulas`):
- the expected score `1 / (1 + 10^((away - (home + adv)) / 400))`;
- the logarithmic goal-difference factor of a decided match.

Ratings are real numbers, not doubles.

## Model

| member | source | states |
|---|---|---|
| Tiers.GetTierFromDiv | src/mmr_system.py:45-57 | The tier is always 1..5; a code in the division table gets its table tier; an unknown code without digits gets tier 1 |
| Tiers.DigitsValue | src/mmr_system.py:52 | One digit reads as its own value, and a string of zeros reads as 0 |
| Tiers.LeadingZero | src/mmr_system.py:52 | A leading zero does not change the number, as with `int("02") == 2` |
| Tiers.DigitsValueAppend | src/mmr_system.py:52 | Decimal place value: the digits of a followed by those of b read as the number of a times 10 to the length of b, plus the number of b |
| Tiers.LeadingNonZero | src/mmr_system.py:52-54 | A digit string not starting with 0 reads as at least 10 to its length minus one: at least 1 for one digit and at least 10, so tier 5 after clamping, for two or more |
| Tiers.ClampTier | src/mmr_system.py:54 | The tier is always 1..5: a number in range is kept, anything below 1 gives 1 and anything above 5 gives 5 |
| Tiers.FallbackTier | src/mmr_system.py:49-54 | An unknown code with digits gets the number its digits spell, clamped to 1..5 |
| Tiers.Digits | src/mmr_system.py:49 | The digits kept are exactly the decimal digit characters of the code |
| Tiers.DigitsAppend | src/mmr_system.py:49 | The digits of a concatenation are the digits of each part, in order |
| Tiers.DigitsOfChar | src/mmr_system.py:49 | A single character is kept exactly when it is a decimal digit, so with DigitsAppend the digits keep the code's order and multiplicity |
| Tiers.BaseForDiv | src/mmr_system.py:60-61 | The base of a division is 1700 - 100 times its tier, between 1200 and 1600 |
| Tiers.BaseOfTier | src/mmr_system.py:60-61 | Every tier the lookup can return is in the base table, so the 1500 default is never used and the base is the table's entry for the tier |
| Tiers.HigherDivisionHigherBase | src/mmr_system.py:13-19 | A smaller tier number has a higher base, and conversely |
| Tiers.SeasonKey | src/mmr_system.py:64-66 | The key is the date's year from July on and the previous year before July |
| Tiers.SeasonKeyMonotone | src/mmr_system.py:64-66 | A date not after another never has a larger season key |
| Tiers.SeasonSpan | src/mmr_system.py:64-66 | A valid date has season key y exactly when it is on or after 1 July of y and before 1 July of y + 1 |
| Tiers.DayNumberOrder | src/mmr_system.py:159 | On valid dates the sort key orders dates chronologically, in both directions |
| Tiers.ActualScore | src/mmr_system.py:216-221 | The score is 1 exactly for a win, 0.5 exactly for a draw, 0 exactly for a loss |
| Tiers.ActualScoresComplement | src/mmr_system.py:214-221 | Home and away actual scores sum to 1 |
| Tiers.GoalDiffFactor | src/mmr_system.py:80-82 | A draw has factor 1, so it still moves the ratings |
| Tiers.Goals | src/mmr_system.py:198-199 | A missing goal cell reads 0; a number is truncated toward zero |
| Ratings.Blend | src/mmr_system.py:174 | The blended rating moves from the old rating toward the base by the blend weight times their gap: weight 0 keeps the rating, weight 1 gives the base |
| Ratings.Direction | src/mmr_system.py:180 | The direction is +1 exactly when the base is not below the rating and -1 exactly when it is below |
| Ratings.AdjustedState | src/mmr_system.py:164-190 | The adjusted state records this season and the division's tier; a new team gets the division base; a team already seen this season keeps its rating |
| Ratings.Adjust | src/mmr_system.py:164-190 | The adjustment adds the team to the table if new and leaves every other team unchanged |
| Ratings.NewTeamStartsAtBase | src/mmr_system.py:168-170 | A new team starts at its division's base, in this season and tier |
| Ratings.SameSeasonKeepsRating | src/mmr_system.py:188-190 | Within the same season the rating and season stay and only the tier is refreshed |
| Ratings.SeasonChange | src/mmr_system.py:172-187 | On a season change the rating is blended toward the base; then, after a promotion, moved by exactly the bonus toward the base; after a relegation, moved by exactly the penalty away from it; unchanged tier keeps the blend |
| Ratings.RelegationAboveBaseRaises | src/mmr_system.py:172-185 | With the default settings, a team rated 1600 in tier 1 that plays in E1 (tier 2) the next season ends at 1625: the blend gives 1550, which is above the new base of 1500, so the penalty is added |
| Ratings.BlendBetween | src/mmr_system.py:174 | With a blend weight in [0, 1] the blended rating lies between the old rating and the base |
| Ratings.HomeDelta | src/mmr_system.py:210-224 | A draw moves the home rating by k times (one half minus the expected score) |
| Ratings.Settle | src/mmr_system.py:207-250 | The update keeps the set of teams and every other team's state, appends exactly one log row and keeps the earlier rows; the row's ratings before are the two teams' table ratings, each rating after is its rating before plus its delta, and each side's table entry changes only in its rating, which becomes the logged rating after (the home entry when the sides differ) |
| Ratings.Step | src/mmr_system.py:201-250 | After one match both of its teams are in the table and the log has one more row |
| Ratings.StepRatings | src/mmr_system.py:204-231 | The logged ratings before a match are the two teams' preseason-adjusted ratings, and each rating after is its rating before plus its delta |
| Ratings.StepSidesState | src/mmr_system.py:164-190 | After a match both sides carry the match's season and its division's tier: the update writes back only the ratings |
| Ratings.StepZeroSum | src/mmr_system.py:224-231 | The away delta is the negated home delta, the ratings after sum to the ratings before, and the table holds the logged ratings after |
| Ratings.SettleOutcome | src/mmr_system.py:210-249 | The row an update logs has the expected score of the formula applied to the two ratings and the home advantage, the configured k, expected scores summing to 1, and a home delta of k * (0.5 - expected) for a draw and k * factor(gd) * (1 or 0 - expected) for a win or loss; the logged goal difference is home minus away goals |
| Ratings.StepOutcome | src/mmr_system.py:210-249 | The row a whole match step logs scores the match in the same way: expected score from the formula, the configured k, and the outcome-dependent delta |
| Ratings.WinnerGains | src/mmr_system.py:216-224 | With an expected score in [0, 1], k >= 0 and a non-negative factor, the winner's delta is never negative and the loser's never positive |
| Ratings.StepLogsMatch | src/mmr_system.py:233-250 | A match appends exactly one row, naming its date, division, teams and goals |
| Ratings.StepKeys | src/mmr_system.py:204-205 | After a match the table holds exactly the teams it held plus the two sides |
| Ratings.StepFrame | src/mmr_system.py:204-231 | A match adds both teams to the table, changes no other team and keeps earlier log rows |
| Ratings.Run | src/mmr_system.py:192-250 | A run appends exactly one log row per match |
| Ratings.RunSnoc | src/mmr_system.py:192-250 | Running one more match is one more step after the run of the earlier ones |
| Ratings.RunKeepsRows | src/mmr_system.py:161-250 | A run keeps the log rows already written as a prefix |
| Ratings.RunLog | src/mmr_system.py:192-250 | A run appends one row per match, and the i-th new row names the date, division, teams and goals of the i-th match |
| Ratings.RunTeams | src/mmr_system.py:192-205 | After a run the table holds exactly the teams it started with plus every home and away team of the matches |
| Ratings.MatchTeamsMembers | src/mmr_system.py:192-196 | A team is named by the matches exactly when some match has it as home or away side |
| Ratings.FirstMissing | src/mmr_system.py:147-150 | No column is reported exactly when all required columns are present; a reported column is required and absent |
| Ratings.FirstMissingAt | src/mmr_system.py:148-150 | The columns are checked in order, so the first absent one is the one reported |
| Ratings.ToMatch | src/mmr_system.py:193-199 | A row becomes a match on its parsed date; division and team names are the row's cells stripped by Python's strip, so they carry no surrounding whitespace; goals are the cells read by Goals, so missing goals read as 0 |
| Ratings.Survivors | src/mmr_system.py:152-157 | No row survives exactly when no date parsed; no more matches than rows |
| Ratings.SurvivorsAppend | src/mmr_system.py:152-157 | The survivors of a concatenation are the survivors of each part, in order; a single row survives as its match exactly when its date parsed |
| Ratings.ChronologicalSeasons | src/mmr_system.py:159 | Along matches ordered by date, season keys never decrease |
| Ratings.Rater.constructor | src/mmr_system.py:161-162 | A run starts with an empty team table and an empty log |
| Ratings.Rater.PreseasonAdjust | src/mmr_system.py:164-190 | The in-place adjustment leaves the table equal to Adjust of the old table |
| Ratings.Rater.UpdateRatings | src/mmr_system.py:207-250 | The in-place update leaves table and log equal to Settle of the old ones |
| Ratings.Rater.ApplyMatch | src/mmr_system.py:192-250 | One loop iteration leaves table and log equal to Step of the old state |
| Ratings.CheckColumns | src/mmr_system.py:147-150 | The column check reports exactly FirstMissing of the required columns |
| Ratings.PlayAll | src/mmr_system.py:161-250 | The loop's log is Run over the matches from an empty state, one row per match |
| Ratings.ProcessMatches | src/mmr_system.py:133-257 | A missing column fails with the first missing one; no parsed date fails; otherwise the log is the run over the surviving matches arranged by date, one row per survivor |
| Text.PyStrip | src/mmr_system.py:194-196 | Python's strip leaves a string that neither starts nor ends with Python whitespace |
| Text.JsTrim | viz/script.js:29-35 | JavaScript's trim leaves a string that neither starts nor ends with JavaScript whitespace |
| Text.TrimLeftFacts | src/mmr_system.py:194-196 | Left trimming keeps a suffix that does not start with whitespace and drops only whitespace |
| Text.TrimRightFacts | src/mmr_system.py:194-196 | Right trimming keeps a prefix that does not end with whitespace and drops only whitespace |
| Text.StripEnds | src/mmr_system.py:194-196 | A stripped string neither starts nor ends with whitespace |
| Text.StripIsSlice | viz/script.js:35 | The stripped string is the slice of the input between its leading and trailing whitespace runs |
| Text.StripEmptyIffBlank | viz/script.js:29 | A string trims to empty exactly when all its characters are whitespace |
| Text.StripIdempotent | viz/script.js:35 | Trimming twice equals trimming once |
| Text.Split | viz/script.js:29-32 | Splitting yields at least one piece and no piece contains the separator |
| Text.JoinSplit | viz/script.js:29-32 | Joining the pieces of a split with the separator gives back the text |
| Text.SplitJoin | viz/script.js:29-32 | Splitting a join of separator-free pieces gives back the pieces |
| Text.SplitAround | viz/script.js:29 | A separator-free piece between two separators is a piece of its own |
| Text.Less | viz/script.js:55 | A proper prefix sorts before the longer string |
| Text.LessFirstDifference | viz/script.js:55 | After a common prefix, the first differing character decides the order, in both directions |
| Text.LessIrreflexive | viz/script.js:55 | No string sorts before itself |
| Text.LessTransitive | viz/script.js:55 | The sort order is transitive |
| Text.LessTotal | viz/script.js:55 | Any two different strings are ordered one way |
| Text.LessAsymmetric | viz/script.js:55 | Two strings are never each before the other |
| Text.Insert | viz/script.js:55 | Inserting into a strictly sorted list keeps it strictly sorted and adds exactly the new name |
| Text.SortedUnique | viz/script.js:55 | Two strictly sorted lists with the same elements are equal |
| Sorting.WithKeyAppend | viz/script.js:72 | The elements with a given key of a concatenation are those of each part, in order |
| Sorting.SwapKeepsKeyOrder | viz/script.js:72 | Swapping two neighbours with different keys keeps the order of the elements within every key |
| Sorting.SinkStep | viz/script.js:72 | One swap of an out-of-order pair moves the sinking element one place down, keeping the elements and the order within every key |
| Sorting.StableSortUnique | viz/script.js:72 | Two sequences sorted by key with the same order within every key are equal, so a stable sort has exactly one result |
| Sorting.SortByKey | viz/script.js:72 | The array ends sorted by key, holds the same elements as often, and keeps the order of elements with equal keys (a stable sort) |
| Sorting.SinkInto | viz/script.js:72 | One insertion step extends the sorted prefix by one, keeping the elements and the order within every key, and leaves the part after it untouched |
| Sorting.SortSeq | viz/script.js:72 | The copy is sorted by key, is a permutation of the input, and keeps the order of elements with equal keys |
| Csv.Lines | viz/script.js:29 | Every kept line is free of line breaks and not blank after trimming |
| Csv.Keep | viz/script.js:29 | The filter never keeps more lines than it is given; KeepMembers and KeepAppend say which lines and in what order |
| Csv.KeepMembers | viz/script.js:29 | The filter keeps exactly the lines satisfying its test |
| Csv.KeepAppend | viz/script.js:29 | Filtering distributes over concatenation |
| Csv.NonBlank | viz/script.js:29 | Exactly the lines that are not blank after trimming are kept |
| Csv.ParseCSV | viz/script.js:28-39 | Text without a non-blank line is an error; otherwise one record per non-blank line after the header |
| Csv.ParseLines | viz/script.js:29-38 | No lines is an error; otherwise one record per line after the first |
| Csv.ParseLinesRecord | viz/script.js:31-37 | Record i is the record of line i + 1, the lines after the header keeping their order |
| Csv.ParseLinesCell | viz/script.js:31-37 | Record i comes from line i + 1 after the header: under the last header with a given name it holds that line's trimmed cell in that column |
| Csv.ParseCSVCell | viz/script.js:28-38 | Record i of the text holds, under the last header with a given name, the trimmed cell of the (i + 2)-th non-blank line in that column |
| Csv.HeaderNames | viz/script.js:30-35 | There is one name per header token, and each is the token trimmed |
| Csv.Cell | viz/script.js:35 | A cell is the trimmed column text when the column exists, else the empty string |
| Csv.BuildRecord | viz/script.js:34-36 | After the first n header names are written, the n-th name holds the n-th cell: a later column overwrites an earlier one of the same name |
| Csv.RecordKeys | viz/script.js:34-36 | After the first n header names are written, the record's keys are exactly those names |
| Csv.ToRecord | viz/script.js:32-37 | A record is keyed by exactly the header names, and under each name holds the line's trimmed cell in the last column with that name |
| Csv.RecordsKeyedByHeader | viz/script.js:30-37 | Every record has exactly the trimmed header names as keys |
| Csv.LastColumnWins | viz/script.js:34-36 | When header names repeat, the last column with that name supplies the value |
| Csv.ExtraColumnsIgnored | viz/script.js:32-36 | Columns beyond the header count do not change a record |
| Csv.MissingColumnsEmpty | viz/script.js:35 | A short row reads as if padded with empty cells |
| Csv.HeaderOnly | viz/script.js:31 | A header with no data line gives no records |
| Csv.BlankLineIgnored | viz/script.js:29 | A whitespace-only line inserted between two lines does not change the parse |
| Viz.TeamNames | viz/script.js:48-52 | Every row's home and away team names are collected |
| Viz.TeamNamesMembers | viz/script.js:48-52 | A name is collected exactly when some row has it as home or away team |
| Viz.CollectTeams | viz/script.js:48-52 | The loop collects exactly the rows' home and away names, and notes exactly when some row lacks a team field |
| Viz.TeamList | viz/script.js:48-55 | The list is strictly ascending and holds exactly the collected team names; the undefined entry appears exactly when some row lacks a team field |
| Viz.TeamListDetermined | viz/script.js:55 | The sorted team list is the one ascending arrangement of the names |
| Viz.FilterTeam | viz/script.js:68-70 | The filter keeps only rows of the data that involve the team, and never more rows than the data has |
| Viz.FilterTeamAppend | viz/script.js:68-70 | Filtering distributes over concatenation and keeps a single row exactly when it involves the team, so the kept rows stay in data order |
| Viz.FilterTeamCount | viz/script.js:68-70 | A row occurs in the filtered list as often as in the data when it involves the team, else never |
| Viz.RatingColumn | viz/script.js:77-78 | The home rating column is read exactly when the row's home team is the team, else the away rating column |
| Viz.PlotTeamMMR | viz/script.js:67-79 | The series is a permutation of the team's rows, sorted by date, with same-date rows in data order; dates are the rows' Date fields; each rating is read from the home column when the team played at home, else from the away column |
| Viz.TeamSeriesUnique | viz/script.js:67-79 | Only one sequence is the team's rows in stable date order, so the plotted series is fully determined by the data |
| Viz.Viewer.constructor | viz/script.js:1 | The page starts with no data and an empty team list |
| Viz.Viewer.OnFileLoaded | viz/script.js:8-13 | On a parse the data is replaced and the team list rebuilt from it; a failing parse changes nothing |
| Viz.Viewer.OnTeamSelected | viz/script.js:17-22 | Selecting the placeholder plots nothing; a team gets a trace named after it, titled "<team> MMR Over Time", whose points are the dates and ratings of the team's rows in stable date order |

## Left out

- Command-line handling, file input and output, and the CSV writer of the rating engine are outside the core. A run gets the table as a value and returns the log as a value.
- `parse_dates_robust` and pandas' date parsing are not modelled. Each input row carries the parsed date or nothing.
- Ratings.ProcessMatches: pandas' `sort_values` is not stable. The model only promises some arrangement of the surviving matches by day; which of several same-day orders pandas picks is not modelled.
- The expected-score formula and the logarithmic goal-difference factor are floating-point formulas. They are parameters (`Ratings.Formulas`), and ratings are exact reals.
- The rounding of logged values to 3 or 5 decimals is not modelled. Log rows hold the unrounded values, and the date is logged as a date, not as its ISO text.
- `int()` of a digit string is not modelled beyond ASCII digits. Python also accepts other Unicode decimal digits, and very long digit strings raise a ValueError that the code swallows.
- Non-numeric goal cells are not modelled: `float()` raises on them. A goal cell is either a number or missing.
- Non-string division and team cells are assumed to arrive as the text `str()` gives them.
- TeamState's `None` defaults for the last season and tier are not modelled: every state is built with both values.
- TeamState objects are mutated in place in the source. Here they are values in the team map, which is sound because each state is reachable only through its key.
- Ratings.StepZeroSum: for a match whose home and away team are the same, the source's second write wins. The table then does not hold the home rating after, so the table equality is stated only for distinct sides.
- The `__proto__` header name is not modelled: JavaScript objects treat that key specially.
- String order is not UTF-16 code-unit order: it compares Unicode code points. The two differ only beyond the Basic Multilingual Plane.
- `new Date(...)` on the Date text is a parameter of the plot (an integer sort key). So is `parseFloat`.
- The plot's comparator returns NaN when a Date field does not parse, which makes the JavaScript sort order implementation-defined. The model takes the date as an integer key, so every pair of rows compares.
- The DOM updates (the option elements, the placeholder option) and the Plotly call are not modelled. The trace is returned as a value, and the "undefined" option is represented by a flag.
