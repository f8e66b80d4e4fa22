# Basketball league scraper: the sync and normalisation core

This project models the deterministic core of `auto-update-db.py`. That
script keeps a local copy of an Israeli basketball league's data up to date,
and its core covers:

- **Team identity.** The team name map is built from the reference table,
  and scraped labels are resolved through it.
- **Player planning.** `needs_scraping` decides which players are fetched
  again, the season labels and dates of birth are reformatted, and a player's
  season history is read from their page (up to the second youth-league
  entry, with repeated seasons joined).
- **Box-score normalisers.** These produce the per-quarter scores, the player
  rows, the shooting split of composite `made-attempted` cells, and the team
  total rows with their supplemental labels.
- **The incremental game delta.** It selects the completed games not yet
  stored and gathers their details.
- **The integer and ordering parts of `calculate_averages`.** These are the
  games played and started, the opponent pairing, the minimum-method ranks
  with per-column polarity, the column orders and the placement of
  `pts_allowed`.

Parsed HTML pages are plain datatypes (module `Page`): a row is a list of
cells, and each cell keeps its classes, its `data-key`, its first link and
its text. A stat row is a `map<string, Value>` (module `Records`). Loops of
the source are methods, each proved equal to a specification function, and
the properties the script relies on are proved about those functions.

Modules, in dependency order:

| module | models | file |
|---|---|---|
| `Wrappers` | option type | `wrappers.dfy` |
| `Text` | `strip`, `split`, `join`, `isdigit`, `int`, `str`, `find`, `replace` | `text.dfy` |
| `Records` | row values, dict stores, the fold over row outcomes | `records.dfy` |
| `Page` | parsed page elements | `page.dfy` |
| `TeamNames` | `load_team_mapping`, `normalize_team_name` | `team_names.dfy` |
| `PlayerDetails` | `normalize_season`, date of birth, `has_any_history`, `needs_scraping` | `player_details.dfy` |
| `PlayerHistory` | the history loop of `scrape_player_history` | `player_history.dfy` |
| `Quarters` | `scrape_quarter_scores` | `quarters.dfy` |
| `Shooting` | `split_shooting_stats` | `shooting.dfy` |
| `PlayerStats` | `scrape_player_stats` | `player_stats.dfy` |
| `TeamStats` | `scrape_team_stats` | `team_stats.dfy` |
| `Games` | `extract_league_id`, `load_existing_game_ids`, `scrape_game_details`, `scrape_all_games` | `games.dfy` |
| `Columns` | the column orders of `save_to_csv`, `append_to_csv` and `calculate_averages` | `columns.dfy` |
| `Ranking` | the rank columns of `calculate_averages` | `ranking.dfy` |
| `Aggregation` | game counts and opponent pairing of `calculate_averages` | `aggregation.dfy` |

Three behaviours of the code shape the model:

- **Extra results rows.** When the results table has more than two rows,
  `teams[idx]` at line 481 raises on the third row. The handler at lines
  521-523 then returns the eight records the first two rows have built.
- **Team stats are not normalised.** `scrape_team_stats` stores the stripped
  caption text as the team (line 699) and never resolves it through the name
  map, unlike the quarter and player scrapers (lines 474 and 610).
- **Nothing is persisted.** Line 806 calls `scrape_team_stats` with three
  arguments, but it takes two (line 687). The TypeError is caught at line
  880, so every game with a page fails (see Findings).

## Model

| member | source | states |
|---|---|---|
| TeamNames.AddRow | auto-update-db.py:45-54 | one reference row maps its player-details name, its schedule name, its normalized name and its short name (when present) to its normalized name; every other key keeps its value, and no other key appears |
| TeamNames.MappingOf | auto-update-db.py:44-55 | the name map of the reference rows, one row added after another by AddRow; MappingOfKeys, MappingOfValue and MappingOfLookup state its keys and values |
| TeamNames.MappingOfKeys | auto-update-db.py:44-55 | a label is in the map exactly when some reference row lists it |
| TeamNames.MappingOfValue | auto-update-db.py:44-55 | last write wins: a label maps to the normalized name of the last row that lists it |
| TeamNames.MappingOfLookup | auto-update-db.py:44-55 | both halves of the lookup together: which labels are keys, and what each maps to |
| TeamNames.LoadTeamMapping | auto-update-db.py:38-64 | the insertion loop builds exactly the map of the rows, in table order; a missing or unreadable table gives the empty map |
| TeamNames.NormalizeTeamName | auto-update-db.py:66-82 | an empty map returns the label unchanged; the result is always either the label or one of the map's normalized names |
| TeamNames.ResolveAgainstTable | auto-update-db.py:66-82 | against the table's map, a label resolves to the normalized name of the last row listing it; failing that, to that of the last row listing its stripped form; and an unlisted label comes back unchanged |
| TeamNames.CanonicalResolvesToItself | auto-update-db.py:51 | a row's normalized name resolves to itself unless a later row lists that name too |
| TeamNames.ResolveIdempotent | auto-update-db.py:66-82 | over a consistent table, resolving a resolved name changes nothing |
| PlayerDetails.LastTwo | auto-update-db.py:118 | `s[-2:]` has length min(2, \|s\|) and is a suffix of `s` |
| PlayerDetails.NormalizeSeason | auto-update-db.py:114-119 | a label without `-` is returned unchanged |
| PlayerDetails.NormalizeTwoPartSeason | auto-update-db.py:116-118 | `a-b` becomes `a-` followed by the last two characters of `b` |
| PlayerDetails.NormalizeManyPartSeason | auto-update-db.py:119 | a label with two or more dashes is returned unchanged |
| PlayerDetails.NormalizeSeasonIdempotent | auto-update-db.py:114-119 | normalising a normalised label changes nothing |
| PlayerDetails.FormatDob | auto-update-db.py:194 | the reformatted date is empty exactly when the page's date is empty |
| PlayerDetails.FormatIsoDate | auto-update-db.py:193-194 | `year-month-day` becomes `day/month/year` |
| PlayerDetails.FormatDobRoundTrip | auto-update-db.py:194 | splitting the reformatted date on `/`, reversing and joining with `-` gives back the page's date |
| PlayerDetails.HasSeasonEntry | auto-update-db.py:266-271 | true exactly when some column outside the five biography columns holds a value that is neither NA nor blank |
| PlayerDetails.HasAnyHistory | auto-update-db.py:261-271 | true exactly when the player has a stored history row with such a season column |
| PlayerDetails.NeedsScraping | auto-update-db.py:273-293 | the first failing check decides the reason (new player, then a blank or NA date of birth, height or number, then no history); a fetch is asked for exactly when the reason is not "Complete data", which holds exactly for a complete record |
| PlayerDetails.BioOnlyHistoryIsRefetched | auto-update-db.py:290-291 | a complete biography whose history row has only biography columns is fetched again, with the reason "No history data" |
| PlayerHistory.Cutoff | auto-update-db.py:226-231 | the cutoff never passes the end of the entries |
| PlayerHistory.CutoffIs | auto-update-db.py:226-231 | the cutoff is the one prefix length that holds at most one youth entry and is followed by nothing or by the second youth entry |
| PlayerHistory.CutoffStopsAtSecondYouth | auto-update-db.py:226-231 | the prefix kept holds at most one youth entry, and an early stop is at a youth entry that is the second |
| PlayerHistory.YouthCountMonotone | auto-update-db.py:228 | a longer prefix never counts fewer youth entries |
| PlayerHistory.StepEntry | auto-update-db.py:214-237 | one more entry adds one to the youth count exactly when it is a youth entry, and adds one (season, text) pair exactly when it has all three parts |
| PlayerHistory.AccumulateSnoc | auto-update-db.py:233-236 | recording one more pair is one more append-or-insert step |
| PlayerHistory.Accumulate | auto-update-db.py:233-236 | the history dict after recording the (season, text) pairs in order; AccumulateSnoc and AccumulateLookup state what it holds |
| PlayerHistory.AccumulateLookup | auto-update-db.py:233-236 | a season is present exactly when some pair names it, and it then holds the texts of those pairs joined with ", " in encounter order |
| PlayerHistory.RecordedSeasons | auto-update-db.py:214-224 | every recorded pair is the normalised season and the `team (league)` text of an entry that has all three parts |
| PlayerHistory.HistoryOf | auto-update-db.py:202-237 | what a player page's history holds: the complete entries before the second youth entry, accumulated by season; ScrapePlayerHistory is proved to compute it |
| PlayerHistory.ScrapePlayerHistory | auto-update-db.py:202-239 | the loop with its youth counter and `break` gives the accumulated history of the entries before the second youth entry; no page or no teams block gives `{}` |
| Page.FindCell | auto-update-db.py:469 | `find('td', class_=cls)` gives the first cell carrying the class, or None exactly when no cell carries it |
| Quarters.TeamsOf | auto-update-db.py:467-475 | the list of team names never has more names than there are rows |
| Quarters.QuartersOf | auto-update-db.py:456-523 | what `scrape_quarter_scores` returns: nothing without a results body or unless exactly two rows name a team, else the Q1 to Q4 records of the first two rows; QuartersShape and QuartersMirror state its shape |
| Quarters.QuartersShape | auto-update-db.py:477-481 | the result has zero or eight records, and it has eight exactly when exactly two rows name a team |
| Quarters.QuartersMirror | auto-update-db.py:480-517 | in each quarter one team's score is the other's score against, in both directions; each team is the other's opponent, and every record carries the game id |
| Quarters.CollectTeams | auto-update-db.py:467-475 | the name loop computes the teams named by the rows, resolved through the map |
| Quarters.AppendRowRecords | auto-update-db.py:509-517 | the quarter loop appends the row's four records, Q1 to Q4, to the list |
| Quarters.ScrapeQuarterScores | auto-update-db.py:456-523 | the scrape gives nothing without a table or without exactly two named rows; otherwise the first two rows' records, which is also what remains when a third row raises |
| Shooting.SiteDistinct | auto-update-db.py:528-592 | the key names the split reads and writes are pairwise distinct |
| Shooting.Coerce | auto-update-db.py:549-558 | a count always ends up an int: an int is kept, text becomes its stripped digits or 0, and a percentage is truncated |
| Shooting.StepRaises | auto-update-db.py:528-533 | a composite step raises exactly when its composite is not text and prints with a dash |
| Shooting.StepKeeps | auto-update-db.py:528-533 | a composite step leaves every key but its own three alone |
| Shooting.StepSplits | auto-update-db.py:528-533 | a text composite with a dash puts its two stripped halves (digits, else 0) under made and attempted and is deleted |
| Shooting.StepSkips | auto-update-db.py:528-529 | a composite that is absent or has no dash leaves the row as it is |
| Shooting.RunCompositesKeeps | auto-update-db.py:528-547 | a key that no composite step names passes the three steps unchanged |
| Shooting.RunCompositesSome | auto-update-db.py:528-547 | the three steps succeed exactly when none of the input's composites raises |
| Shooting.RunCompositesAt | auto-update-db.py:528-547 | after the three steps, each composite's keys hold what its own step left |
| Shooting.CoerceKeysGet | auto-update-db.py:549-558 | the coercion loop coerces exactly the listed keys that are present and leaves every other key alone |
| Shooting.DropKeysGet | auto-update-db.py:590-592 | the deletion loop removes exactly the listed keys |
| Shooting.SplitRaises | auto-update-db.py:528-547 | the split raises exactly when a composite holds a value that is not text and prints with a dash |
| Shooting.SplitShooting | auto-update-db.py:525-594 | the row `split_shooting_stats` returns for the site's key names, None where it raises; SplitRaises, SplitCounts, SplitTotals and SplitKeeps state its contents |
| Shooting.CoercedAt | auto-update-db.py:528-558 | after the steps and the coercion, a composite's two counts are the ints it stands for: the halves of a split composite, else the coerced separate counts |
| Shooting.CoercedKeeps | auto-update-db.py:528-558 | a key outside the composites and their counts passes unchanged |
| Shooting.AddTotalsKeeps | auto-update-db.py:560-588 | the totals step leaves every key but the six totals alone |
| Shooting.AddTotalsCounts | auto-update-db.py:560-576 | `fgm`/`fga` are the sums of the two- and three-point counts (0 when absent), and `2pt_pct`/`3pt_pct` are their ratios |
| Shooting.AddTotalsFieldGoals | auto-update-db.py:578-581 | `fg_pct` is the ratio of the `fgm`/`fga` just stored |
| Shooting.AddTotalsFreeThrows | auto-update-db.py:583-588 | `ft_pct` is the ratio of the row's free throws |
| Shooting.FinishAt | auto-update-db.py:560-592 | key by key, the finished row holds the totals, has no site percentage cells, and keeps everything else |
| Shooting.FinishedCounts | auto-update-db.py:560-576 | in the finished row, `fgm`/`fga` are the sums of the row's own counts, and the two- and three-point percentages are their ratios |
| Shooting.FinishedRatios | auto-update-db.py:578-592 | in the finished row, `fg_pct` and `ft_pct` are the ratios of its own counts, and `fgpercent`/`threeppercent`/`ftpercent` are gone |
| Shooting.FinishTotal | auto-update-db.py:590-592 | a computed total survives the deletion loop |
| Shooting.FinishKeeps | auto-update-db.py:590-592 | every key but the totals and the site percentage cells keeps what the coercion left |
| Shooting.SplitCounts | auto-update-db.py:528-558 | over the whole split, a split composite becomes two ints and is removed, and one that is not split keeps its value beside its coerced counts |
| Shooting.SplitTotals | auto-update-db.py:560-588 | the split row's totals and percentages are read off its own counts |
| Shooting.SplitKeeps | auto-update-db.py:525-594 | every key the split does not touch keeps its value |
| Shooting.PercentBounds | auto-update-db.py:568-588 | a percentage is 0.0 when nothing was attempted, and lies in 0..100 when made does not exceed attempted |
| Shooting.TextRowsDoNotRaise | auto-update-db.py:528-547 | a row whose composites are text never raises |
| Shooting.SplitCompositeCell | auto-update-db.py:528-533 | one composite block computes the composite step |
| Shooting.CoerceCounts | auto-update-db.py:549-558 | the coercion loop computes the coercion pass |
| Shooting.AssignTotals | auto-update-db.py:560-588 | the assignments compute the totals step, in the source's order |
| Shooting.DeleteKeys | auto-update-db.py:590-592 | the deletion loop computes the drop |
| Shooting.SplitShootingOver | auto-update-db.py:525-594 | the blocks in order compute the whole split over the key names |
| Shooting.SplitShootingStats | auto-update-db.py:525-594 | `split_shooting_stats` computes the split of the row, and raises exactly when a composite is not text and prints with a dash |
| PlayerStats.CellEffects | auto-update-db.py:641-654 | there is one effect per cell |
| PlayerStats.CellEffectsAt | auto-update-db.py:641-654 | a cell under a header has that header's effect, and a cell past the last header is ignored |
| PlayerStats.CellRaises | auto-update-db.py:645-649 | a cell raises exactly when it is a name cell under a header whose link has no `href` |
| PlayerStats.FillCellsRaises | auto-update-db.py:641-654 | the cell loop raises exactly when one of its cells does |
| PlayerStats.FillCellsText | auto-update-db.py:641-654 | the cell loop stores only text |
| PlayerStats.FillCellsStopped | auto-update-db.py:641-654 | once the cell loop has raised it stays raised |
| PlayerStats.FillCellsKeeps | auto-update-db.py:641-654 | a key no filled cell stores under keeps the value it had |
| PlayerStats.FillCellsLast | auto-update-db.py:641-654 | the last filled cell to store under a key decides its value |
| PlayerStats.Minutes | auto-update-db.py:662-675 | the minutes a `min` value converts to; MinutesRounding and MinutesPlain state the conversion |
| PlayerStats.MinutesRounding | auto-update-db.py:665-671 | `mm:ss` gives mm, plus one from 30 seconds up |
| PlayerStats.MinutesPlain | auto-update-db.py:672-675 | bare digits are taken as they are, and text that is no number gives 0 |
| PlayerStats.FilledText | auto-update-db.py:631-654 | a filled row holds text, except the starter flag |
| PlayerStats.FilledRowKeeps | auto-update-db.py:631-654 | a key no cell of the row stores under keeps its value from the starting row: the game id, the resolved team and the starter flag |
| PlayerStats.FilledRowCell | auto-update-db.py:641-654 | the last cell of the row to store under a key decides its value: a field cell's stripped text under its `data-key` or its header, a name cell's stripped name and `href` |
| PlayerStats.Tidy | auto-update-db.py:656-677 | a kept row with `#` moved to `number`, `min` converted and `pm` dropped; TidyShape and EmittedShape state the result |
| PlayerStats.TidyText | auto-update-db.py:659-677 | a tidied row holds text, except the starter flag and the minutes |
| PlayerStats.TidySplits | auto-update-db.py:678 | the shooting split of a tidied row never raises |
| PlayerStats.PlayerRowStep | auto-update-db.py:627-679 | what one body row contributes: skipped as a total row or a row without a player who played, raised by a broken link, else the finished row; PlayerRowOutcome and EmittedShape state each case |
| PlayerStats.PlayerRowOutcome | auto-update-db.py:627-679 | a body row raises exactly when it is not a total row and a name cell's link lacks `href`; it is emitted exactly when it is not a total row, does not raise, has a non-empty name, and its minutes (default `00:00`) are neither `00:00` nor `0:00` |
| PlayerStats.ShapeKeysUntouched | auto-update-db.py:656-678 | `player_name`, `min`, `#`, `pm` and `number` are none of the keys the shooting split touches |
| PlayerStats.EmittedShape | auto-update-db.py:631-679 | an emitted row is its filled row finished: it names a player, its `min` is the conversion of the filled `min`, its `number` is the filled `#` (or the filled `number` when there is no `#`), it has neither `#` nor `pm`, and every other key outside the shooting split has the value the cells left it |
| PlayerStats.EmittedIsSplit | auto-update-db.py:656-679 | an emitted row is the shooting split of the tidied filled row of a player who played |
| PlayerStats.TidyShape | auto-update-db.py:656-678 | the split of a tidied played row names a player, has the converted minutes and the renamed number, and no `#` or `pm` |
| PlayerStats.EmittedKeeps | auto-update-db.py:631-679 | a key neither tidying nor the split touches has in the emitted row the value the cells left it |
| PlayerStats.EmittedStart | auto-update-db.py:631-637 | unless a cell stores under it, the emitted row's `game_id` is the game, its `team` the resolved team, and its `starter` is 1 for a `lineup` row and 0 otherwise |
| PlayerStats.StartRowGet | auto-update-db.py:631-637 | the starting row holds the game id, the team and the starter flag |
| PlayerStats.EmittedCell | auto-update-db.py:641-679 | the last cell to store under a key neither tidying nor the split touches puts its value in the emitted row |
| PlayerStats.EmittedNumber | auto-update-db.py:641-660 | the jersey number is renamed: the last cell storing under `#` gives the emitted row's `number` |
| PlayerStats.HeaderTexts | auto-update-db.py:616-621 | the headers are the stripped `th` texts of the header row, one per cell, or none without a `thead` |
| PlayerStats.RowSteps | auto-update-db.py:627-679 | there is one outcome per body row |
| PlayerStats.RowStepsAt | auto-update-db.py:627-679 | body row `i` has the outcome of that row |
| PlayerStats.SectionResults | auto-update-db.py:603-679 | there is one contribution per performance section |
| PlayerStats.SectionResultsAt | auto-update-db.py:603-679 | section `i` has the contribution of that section |
| PlayerStats.SectionsFoldRows | auto-update-db.py:600-685 | every row collected comes from one of the sections seen |
| PlayerStats.SectionsFoldStopped | auto-update-db.py:683-685 | once a row has raised, nothing more is collected |
| PlayerStats.PlayerStatsOf | auto-update-db.py:596-685 | what `scrape_player_stats` returns: the sections' rows in order, up to the first exception; PlayerStatsShape and BareHeadEndsScrape state its contents |
| PlayerStats.SectionShape | auto-update-db.py:603-679 | every row a section collects names a player and is the finished form of one of the section's body rows |
| PlayerStats.PlayerStatsShape | auto-update-db.py:596-685 | every returned row names a player, and is the finished form of a body row of one of the page's sections: converted minutes, `#` renamed to `number`, no `pm`, and the cells' other values |
| PlayerStats.BareHeadEndsScrape | auto-update-db.py:616-621 | a section whose `thead` has no `tr` raises, and the scrape returns only the rows of the sections before it (handler at lines 683-685) |
| PlayerStats.ReadHeaders | auto-update-db.py:616-621 | the header loop computes the header texts, and raises for a `thead` without a `tr` |
| PlayerStats.FillCell | auto-update-db.py:645-654 | one cell of the cell loop applies that cell's effect |
| PlayerStats.FillRow | auto-update-db.py:641-654 | the cell loop computes the fill over all cells |
| PlayerStats.ScrapePlayerRow | auto-update-db.py:627-679 | one body row computes its outcome |
| PlayerStats.ScrapeRowAt | auto-update-db.py:627-679 | one iteration computes outcome `i` of the table |
| PlayerStats.ScrapeRows | auto-update-db.py:627-679 | the row loop computes the fold of the rows' outcomes |
| PlayerStats.ScrapeSection | auto-update-db.py:603-626 | one section computes its contribution: nothing without a caption or a table, an exception for a `thead` without a `tr`, nothing without a body |
| PlayerStats.ScrapeSectionAt | auto-update-db.py:603-679 | one iteration computes contribution `i` of the page |
| PlayerStats.ScrapePlayerStats | auto-update-db.py:596-685 | the section loop computes the rows collected, up to the first that raises |
| Records.RowsFoldEmitted | auto-update-db.py:679 | every row of a fold is a row that some outcome emitted |
| Records.RowsFoldStopped | auto-update-db.py:683-685 | once a fold has stopped it stays as it is |
| Records.RowsFoldStoppedIff | auto-update-db.py:683-685 | a fold over row outcomes has stopped exactly when one of the outcomes it saw raised |
| Records.RowsFoldNeverStops | auto-update-db.py:790 | a fold over outcomes none of which raises never stops |
| Records.StoreAllKeys | auto-update-db.py:755-757 | after storing, the keys are the old ones plus those some entry names |
| Records.StoreAllKeeps | auto-update-db.py:755-757 | a key that no entry names keeps its value |
| Records.StoreAllLast | auto-update-db.py:755-757 | the last entry naming a key decides its value |
| Records.StoreAllText | auto-update-db.py:755-757 | storing only text keeps a row text-only |
| TeamStats.DataKeyOf | auto-update-db.py:710-716 | the key is None exactly when no class starts with `data-` |
| TeamStats.DataKeyAt | auto-update-db.py:712-715 | the key comes from the first `data-` class, with every occurrence of `data-` removed |
| TeamStats.DataKeyOfTagged | auto-update-db.py:713-714 | a first class `data-k` names `k`, when `k` does not itself contain `data-` |
| TeamStats.HeaderKeys | auto-update-db.py:705-716 | there is one key per header cell of the header row, and none without a `thead` |
| TeamStats.KeysOfAt | auto-update-db.py:709-716 | header cell `i` has the key of its own classes |
| TeamStats.FirstWithClass | auto-update-db.py:719-721 | `find('tr', class_=cls)` is None exactly when no row carries the class |
| TeamStats.FirstWithClassAt | auto-update-db.py:721 | the row found is the first one carrying the class |
| TeamStats.LastTotalLine | auto-update-db.py:723-731 | the reversed scan finds nothing exactly when no body row's name cell contains the totals text |
| TeamStats.LastTotalLineAt | auto-update-db.py:727-731 | the row found is the last totals row of the body |
| TeamStats.TotalRow | auto-update-db.py:718-731 | the footer's `sp-total-row` wins; the body is searched only without one; and there is no total row exactly when neither gives one |
| TeamStats.CellKey | auto-update-db.py:746-753 | a total-row cell stores under its own non-empty key, else under the header key at its position; a key used is never empty |
| TeamStats.TotalEntries | auto-update-db.py:741-757 | there is one entry per total-row cell |
| TeamStats.TotalEntriesAt | auto-update-db.py:741-757 | cell `i` has its own entry |
| TeamStats.TotalEntriesText | auto-update-db.py:755-757 | every entry stores text under a non-empty key |
| TeamStats.LabelValue | auto-update-db.py:786 | digits become their int, and anything else stays text |
| TeamStats.LabelEntries | auto-update-db.py:770-786 | there is one entry per label |
| TeamStats.LabelEntriesAt | auto-update-db.py:770-786 | label `i` has its own entry |
| TeamStats.TeamSteps | auto-update-db.py:694-788 | there is one outcome per section |
| TeamStats.TeamStepsAt | auto-update-db.py:694-788 | section `i` has its own outcome |
| TeamStats.FilledTeamText | auto-update-db.py:734-757 | the filled total row holds nothing but text |
| TeamStats.TeamSectionOutcome | auto-update-db.py:694-788 | a section raises exactly when it has a caption and a table and either its `thead` has no `tr` (lines 708-709) or it has a total row and a label whose first child is an element (line 771); it yields a row exactly when it has a caption, a table, a header row or no `thead`, a total row, and no such label |
| TeamStats.TeamKeysUntouched | auto-update-db.py:734-759 | `game_id` and `team` are none of the keys the shooting split touches |
| TeamStats.FinishTeamRowKeeps | auto-update-db.py:759-786 | for a key that no label names: `min`, `pm`, `#` and `number` are gone, and any other key keeps its split value |
| TeamStats.FinishTeamRowPlain | auto-update-db.py:761-764 | without a team-stats block, the row is the split row without the four per-player columns |
| TeamStats.FinishTeamRow | auto-update-db.py:759-786 | the split row without `min`, `pm`, `#` and `number`, with the labels stored; FinishTeamRowKeeps, FinishTeamRowPlain and LabelStored state its contents |
| TeamStats.LabelStored | auto-update-db.py:774-786 | the last label naming a key decides its value |
| TeamStats.LabelKeys | auto-update-db.py:777-785 | a label's text is stored under one of the five English keys, or else under the text itself |
| TeamStats.SplitKeepsTeam | auto-update-db.py:734-759 | the row keeps the game id and the raw caption text (never resolved through the map) unless a total-row cell stores under those keys |
| TeamStats.TeamStepsRaise | auto-update-db.py:694-794 | exactly the sections that have a `thead` without a `tr`, or a total row and a label whose first child is an element, end the scrape |
| TeamStats.TeamStatsSnoc | auto-update-db.py:694-794 | adding a section adds its team row at the end, unless an earlier section has raised: the result is one row per complete section, in section order, up to the first that raises |
| TeamStats.RaisingSectionEndsScrape | auto-update-db.py:792-794 | a section that raises ends the scrape: only the rows of the sections before it are returned |
| TeamStats.TeamStatsOf | auto-update-db.py:687-794 | what `scrape_team_stats` returns: one row per complete section, in order, up to the first exception; TeamStatsSnoc and RaisingSectionEndsScrape state it |
| TeamStats.FirstDataKey | auto-update-db.py:710-716 | the class loop with its `break` computes the key |
| TeamStats.ReadHeaderKeys | auto-update-db.py:705-716 | the header loop computes the header keys, and raises for a `thead` without a `tr` |
| TeamStats.FindFootTotal | auto-update-db.py:719-721 | the footer search computes the first `sp-total-row` |
| TeamStats.FindTotalLine | auto-update-db.py:723-731 | the reversed body scan computes the last totals row |
| TeamStats.FindTotalRow | auto-update-db.py:718-731 | the search computes the total row |
| TeamStats.TotalCellEntry | auto-update-db.py:742-757 | one iteration computes cell `idx`'s entry |
| TeamStats.FillTeamRow | auto-update-db.py:741-757 | the cell loop computes the stores of all entries |
| TeamStats.ReadLabel | auto-update-db.py:771-786 | one iteration computes label `i`'s entry |
| TeamStats.AddLabels | auto-update-db.py:769-786 | the label loop computes the stores of all label entries, and raises when a label's first child is an element |
| TeamStats.ScrapeTeamSection | auto-update-db.py:694-788 | one section computes its outcome |
| TeamStats.ScrapeTeamSectionAt | auto-update-db.py:694-788 | one iteration computes outcome `i` |
| TeamStats.ScrapeTeamStats | auto-update-db.py:687-794 | the section loop computes the team rows |
| Games.LeagueId | auto-update-db.py:414-421 | the id is None exactly when there is no `href` or it lacks `league_id=` |
| Games.LeagueIdOfLink | auto-update-db.py:416-419 | from `prefix + "league_id=" + id + "&" + rest`, the id is read back |
| Games.ExtractLeagueId | auto-update-db.py:414-421 | the method computes the league id of the link |
| Games.ExistingIds | auto-update-db.py:810-823 | the stored ids are exactly the `game_id` values of the quarters table, or none when it cannot be read |
| Games.GameId | auto-update-db.py:841-845 | a float code gives `str(int(code))`, any other code gives `str(code)`, and a missing code gives none |
| Games.ToScrape | auto-update-db.py:839-848 | never more ids than schedule rows |
| Games.ToScrapeMembers | auto-update-db.py:832-848 | an id is fetched exactly when some completed row with a code names it and it is not stored yet |
| Games.Completed | auto-update-db.py:832 | a completed game has a `Home Score` that is present and not empty |
| Games.ToScrapeSettles | auto-update-db.py:832-848 | once the scheduled ids are stored, nothing is left to fetch |
| Games.ToScrapeAppend | auto-update-db.py:839-848 | the delta of two schedule parts is the first part's delta followed by the second's |
| Games.ToScrapeShrinks | auto-update-db.py:847 | storing more ids never schedules more games |
| Games.GamesToScrape | auto-update-db.py:839-848 | the loop computes the delta, in schedule order |
| Games.Outcomes | auto-update-db.py:860-883 | there is one outcome per game fetched |
| Games.GameDetailsAsWritten | auto-update-db.py:796-808 | `scrape_game_details` as written: none without a page, and with a page the TypeError of the three-argument call at line 806 |
| Games.GameDetails | auto-update-db.py:796-808 | `scrape_game_details` as corrected: none without a page, else the page's quarters, player rows and team rows; GameDetailsQuarters and OutcomesAt state it |
| Games.ScrapeAll | auto-update-db.py:825-883 | `scrape_all_games` as corrected: false without a `Home Score` column, else the details of every game of the delta gathered; QuartersAreNew and GatherKeeps state it |
| Games.ScrapeAllAsWritten | auto-update-db.py:825-883 | `scrape_all_games` as written, every game's details given by GameDetailsAsWritten; AsWrittenGathersNothing and PagedGameIsLost show that it gathers nothing |
| Games.OutcomesAt | auto-update-db.py:866-867 | game `i` has the corrected details of its id |
| Games.GatherNothing | auto-update-db.py:866-883 | outcomes without details gather nothing |
| Games.AsWrittenGathersNothing | auto-update-db.py:806 | as written, a run gathers no quarters, player rows or team rows, whatever the schedule and the pages |
| Games.PagedGameIsLost | auto-update-db.py:806 | for a scheduled game with a page, the corrected run gathers all its quarter records, while the run as written gathers none |
| Games.GatherQuarterIds | auto-update-db.py:866-874 | every quarter record gathered is of a game the loop fetched |
| Games.QuartersAreNew | auto-update-db.py:847-870 | the corrected run gathers quarters only of games not already stored |
| Games.GameDetailsQuarters | auto-update-db.py:804-808 | a game with a page has details holding its page's quarters |
| Games.GatherKeeps | auto-update-db.py:869-874 | everything a game with details contributes is gathered |
| Games.ScrapeGameDetails | auto-update-db.py:796-808 | the method computes the corrected details: none without a page, else the three extractors' results |
| Games.ScrapeGameAt | auto-update-db.py:866-867 | one iteration computes game `i`'s outcome |
| Games.ScrapeAllGames | auto-update-db.py:825-883 | the method computes the corrected run: False without a `Home Score` column, else the delta and every game's details gathered, skipping failures |
| Columns.RankName | auto-update-db.py:1084 | `f"{col}_rank"` ends with `_rank` |
| Columns.RankNameInjective | auto-update-db.py:1084 | different columns get different rank names |
| Columns.LeadingNotRanks | auto-update-db.py:1092 | neither `team` nor `games_played` is a rank name |
| Columns.Present | auto-update-db.py:1024 | the columns kept are exactly the requested ones that exist |
| Columns.Absent | auto-update-db.py:150 | the extra columns are exactly the existing ones that were not requested |
| Columns.PresentDistinct | auto-update-db.py:149 | filtering a duplicate-free list keeps it duplicate-free |
| Columns.AbsentDistinct | auto-update-db.py:150 | filtering a duplicate-free list keeps it duplicate-free |
| Columns.OrderColumnsPermutes | auto-update-db.py:126-129 | requested-then-extra order is a permutation of the table's columns, without duplicates, with every requested column before every extra one |
| Columns.OrderColumns | auto-update-db.py:126-129 | the column order written: the requested columns present, then the others; OrderColumnsPermutes and OrderColumnsOrder state it |
| Columns.OrderColumnsOrder | auto-update-db.py:126-129 | the written order splits into the requested columns, a subsequence of the requested list, followed by the other columns, a subsequence of the table's |
| Columns.PresentSubsequence | auto-update-db.py:127 | the requested columns the table has keep the requested order |
| Columns.AbsentSubsequence | auto-update-db.py:128 | the table's other columns keep the table's order |
| Columns.FinalFromMembers | auto-update-db.py:1092-1098 | the final columns start with `team`, `games_played`, and hold only those and table columns |
| Columns.FinalFrom | auto-update-db.py:1092-1098 | the `final_cols` list after the loop has visited a prefix of the columns; the FinalFrom lemmas state its shape |
| Columns.FinalFromCovers | auto-update-db.py:1093-1095 | every table column that is not a rank column is in the final list |
| Columns.FinalFromRanksFollow | auto-update-db.py:1096-1098 | every rank column in the final list directly follows its own column |
| Columns.FinalFromColumnsPrecede | auto-update-db.py:1096-1098 | every column whose rank column exists is directly followed by it |
| Columns.FinalFromDistinct | auto-update-db.py:1092-1098 | the final list has no duplicates |
| Columns.FinalColumnsShape | auto-update-db.py:1170-1176 | the whole shape of the final list, for the team and the opponent tables alike |
| Columns.FinalColumns | auto-update-db.py:1092-1098 | the loop computes the final column list |
| Columns.AbsentNothing | auto-update-db.py:1158 | dropping columns that are not there changes nothing |
| Columns.AbsentSnoc | auto-update-db.py:1157-1159 | dropping one more column is filtering by the longer list |
| Columns.DropColumns | auto-update-db.py:1156-1159 | the drop loop leaves exactly the columns outside the drop list, in order |
| Columns.IndexOf | auto-update-db.py:1195 | `cols.index(x)` is the first position holding `x` |
| Columns.RemoveFirst | auto-update-db.py:1199-1200 | `remove` fails exactly when the column is absent, and otherwise takes one copy out, keeping every other column |
| Columns.InsertAt | auto-update-db.py:1201-1202 | `insert` adds one copy at the position, or at the end past it, and keeps the rest in order |
| Columns.PointsPosition | auto-update-db.py:1194-1197 | the anchor is `pts_rank` when it exists, else `pts` |
| Columns.ReinsertInside | auto-update-db.py:1201-1202 | the two inserts put `pts_allowed`, `pts_allowed_rank` right after the anchor |
| Columns.Reinsert | auto-update-db.py:1201-1202 | the two inserts after the anchor add exactly `pts_allowed` and `pts_allowed_rank` to the columns |
| Columns.PlacePointsAllowed | auto-update-db.py:1193-1202 | without `pts` the columns stay as they are; with it, the reorder fails exactly when a `pts_allowed` column is missing, and otherwise permutes the columns |
| Columns.PointsAllowedAfterMerge | auto-update-db.py:1184-1202 | after the merge appends the two columns, they are moved right after `pts_rank` (or `pts`), with everything else in its place |
| Ranking.CountBetterZero | auto-update-db.py:1085 | no value counts as better exactly when none is better |
| Ranking.Rank | auto-update-db.py:1085 | the minimum-method rank: one more than the number of values ranked strictly ahead; RankBounds, RankOrder and RankFirst state it |
| Ranking.RankBounds | auto-update-db.py:1085 | every minimum-method rank lies in 1..n |
| Ranking.RankOrder | auto-update-db.py:1085 | one value ranks before another exactly when it is better, and equal values share a rank |
| Ranking.RankFirst | auto-update-db.py:1085 | rank 1 goes exactly to the values nothing beats |
| Ranking.RankNegated | auto-update-db.py:1090 | an ascending rank is the descending rank of the negated values |
| Ranking.WithRank | auto-update-db.py:1084-1085 | the rank column holds the ranks of its column, and every other column is unchanged |
| Ranking.RankColumns | auto-update-db.py:1082-1085 | each listed column present gets its rank column and the other columns are unchanged; when the list has no duplicates and no rank columns exist yet, the new rank columns are appended in list order |
| Ranking.TeamListsHaveNoRankNames | auto-update-db.py:1072-1080 | none of the listed team columns is a rank name |
| Ranking.RankBoth | auto-update-db.py:1082-1090 | higher-better columns are ranked descending, lower-better ones ascending, and non-rank columns are unchanged |
| Ranking.RankTeams | auto-update-db.py:1072-1090 | the team table's 27 higher-better columns are ranked descending, `to`/`pf`/`blka` ascending |
| Ranking.OpponentRankBases | auto-update-db.py:1161 | the ranked opponent columns are exactly those starting with `opp_` other than `opp_to` |
| Ranking.DroppedOpponentsUnranked | auto-update-db.py:1156-1161 | `opp_bench_pts` and `opp_pfa` leave the table before ranking and get no rank column, while every other `opp_` column but `opp_to` is still ranked |
| Ranking.RankOpponents | auto-update-db.py:1161-1168 | every `opp_` column but `opp_to` is ranked ascending, `opp_to` descending, and non-rank columns are unchanged |
| Aggregation.GamesPlayed | auto-update-db.py:987-994 | a group never has more games than there are rows |
| Aggregation.GamesPlayedAppend | auto-update-db.py:987-994 | the game count of two row sets is the sum of their counts |
| Aggregation.GamesStarted | auto-update-db.py:990-997 | `games_started`: the sum of the starter flags over a player's rows; GamesStartedAppend and StartedAtMostPlayed state it |
| Aggregation.GamesStartedAppend | auto-update-db.py:990-997 | the starts of two row sets are the sum of their starts |
| Aggregation.GamesPlayedPositive | auto-update-db.py:1043-1048 | a group has a game exactly when one of its rows has a game id |
| Aggregation.StartedAtMostPlayed | auto-update-db.py:990-997 | with 0/1 starter flags, `games_started` lies between 0 and `games_played` |
| Aggregation.OppName | auto-update-db.py:1116 | `f"opp_{col}"` starts with `opp_` |
| Aggregation.OppNameInjective | auto-update-db.py:1116-1118 | different columns get different opponent names |
| Aggregation.OppNameNotKey | auto-update-db.py:1111-1118 | no opponent name is `team` or `game_id` |
| Aggregation.UniqueIdsMembers | auto-update-db.py:1105 | the unique ids are duplicate-free and are exactly the rows' game ids |
| Aggregation.UniqueIds | auto-update-db.py:1105 | `unique()` of the game ids; UniqueIdsMembers and CollectGameIds state it |
| Aggregation.GameRows | auto-update-db.py:1106 | the game's rows are rows of the table with that id |
| Aggregation.GameRowsOfId | auto-update-db.py:1106 | every row with that id is among the game's rows |
| Aggregation.WithOpponentStatsAt | auto-update-db.py:1114-1118 | the loop over the numeric columns stores under `opp_c` exactly the other team's values of columns it has |
| Aggregation.OpponentRow | auto-update-db.py:1111-1118 | one opponent row: the team, the game id and the other team's numeric columns as `opp_` columns; OpponentRowContents states it |
| Aggregation.OpponentRowContents | auto-update-db.py:1111-1118 | an opponent row holds the team, the game id, and `opp_<c>` equal to the other team's `c` for each numeric column it has, and nothing else |
| Aggregation.OpponentStats | auto-update-db.py:1105-1121 | the opponent rows come in pairs |
| Aggregation.GamePair | auto-update-db.py:1106-1121 | the two mirrored opponent rows of a game with exactly two team rows, else none; OpponentStatsPairs and OpponentStatsComplete state it |
| Aggregation.OpponentStatsPairs | auto-update-db.py:1105-1121 | each consecutive pair is the two mirrored rows of a game with exactly two team rows |
| Aggregation.OpponentStatsComplete | auto-update-db.py:1105-1121 | every game with exactly two team rows contributes its pair |
| Aggregation.BuildOpponentPair | auto-update-db.py:1108-1121 | the loop computes both teams' opponent rows |
| Aggregation.CollectGameIds | auto-update-db.py:1105 | `unique()` computes the ids in order of first appearance |
| Aggregation.PairOpponents | auto-update-db.py:1103-1121 | the pairing loop computes the opponent rows of every game, in id order |
| Text.Strip | auto-update-db.py:76 | the result is trimmed and no longer than its input, and a trimmed string is unchanged |
| Text.StripIdempotent | auto-update-db.py:76 | stripping twice is stripping once |
| Text.Split | auto-update-db.py:116 | split gives at least one piece, and exactly one when the separator is absent |
| Text.SplitJoin | auto-update-db.py:116 | the pieces avoid the separator and join back to the string |
| Text.SplitOfJoin | auto-update-db.py:194 | splitting a join of separator-free pieces gives the pieces |
| Text.NatToString | auto-update-db.py:845 | `str(n)` is digits that read back as `n`, with no leading zero |
| Text.CoerceIntOfNatToString | auto-update-db.py:515 | `int(s) if s.isdigit() else 0` reads back what `str` wrote |
| Text.Find | auto-update-db.py:417 | the first occurrence of the pattern, or none when it does not occur |
| Text.RemoveAll | auto-update-db.py:714 | `replace(p, '')` never lengthens a string and leaves one without `p` unchanged |
| Text.RemoveAllPrefix | auto-update-db.py:714 | removing `p` from `p + s` drops the leading `p` and goes on with `s` |

## Left out

- HTTP, HTML parsing, Excel and CSV reading and writing, file existence checks, `mkdir`, logging, `time.sleep` and `main`. Pages are given as parsed datatypes, stored tables as values, and a fetch that fails as `None`.
- `update_player_details`, `update_game_details`, `scrape_player_list`, `download_games_excel` and `load_existing_data`. These are orchestration or I/O.
- The date-of-birth and height cells are given as their texts. The walk that finds them (`find`, `get_text`, the `general` list) is parsing.
- Floating point: `mean`, `round(..., 1)`, the recomputed averaged percentages and the possessions formula (lines 1000-1011, 1050-1070, 1134-1154). A percentage cell is the exact ratio `made / attempted * 100`, and ranks are over reals.
- NaN. `pd.isna`, `to_numeric(errors='coerce')` and `dropna` are not modelled: every cell of an averaged table is present, and a game without a `game_id` has no opponent rows.
- `str.isdigit` and `int()`: only ASCII digits count, and `int(' 12 ')` with its signs and whitespace is not modelled.
- Key order of the scraped dicts. A row is a map, so the column order that `pd.DataFrame` takes from the first dict is not modelled. The averaged tables' column order is an input to the column functions.
- The pandas merge of `pts_allowed` is modelled as appending its two columns to the team table. `Columns.PointsAllowedAfterMerge` states the reorder for that layout.
- The order in which `calculate_averages` chains the steps is not stated as one function. Each step is modelled and proved on its own.
- A missing `game_id` or `team` column (a `KeyError` in pandas groupby) is not modelled.
- Ranking.RankOpponents: stated for tables with no rank columns yet, which is what the opponent table holds at line 1161.
- Ranking.RankTeams: its ensures speak of names on one list only. The two lists share no name, so this loses nothing for the script's constants.
- Aggregation.StartedAtMostPlayed: assumes the starter values are the 0/1 flags the scraper writes (line 637). A stored percentage starter counts as 0.
- A label's first child that is an element raises in the model, as `contents[0].strip()` does when the element has no `strip` descendant. An element with such a descendant, where bs4's search finds a tag and the call does not raise, is not modelled.
- Games.ScrapeAllGames: the corrected run is the one the rest of the model uses. The run as written is `Games.ScrapeAllAsWritten`, and nothing from it is persisted.
- The stored `game_id` values are taken as strings. How pandas renders a float column with `astype(str)` is not modelled.

## Findings

| source | as written | input that shows it | evidently intended | confidence | as-written member | corrected member |
|---|---|---|---|---|---|---|
| auto-update-db.py:806 | `scrape_team_stats(soup, game_id, team_mapping)` passes three arguments to a function of two (line 687). The TypeError is caught at line 880, so every game with a page is skipped. | any schedule with a completed, not yet stored game whose page can be fetched | `scrape_team_stats(soup, game_id)`, so that the quarters, player rows and team rows of each new game are gathered | not executed | Games.PagedGameIsLost | Games.ScrapeAllGames |
