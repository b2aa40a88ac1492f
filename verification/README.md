# Veikkausliiga Elo engine and match scraper, modelled in Dafny

This project models three parts of a small football-statistics tool for the
Finnish Veikkausliiga and proves what they promise.

- **The per-season Elo engine `laske_elo_arvot`.**
  - It collects the distinct years of the match list and visits them in
    ascending order.
  - It takes each year's matches and sorts them stably by `int(date)`.
  - It starts a fresh rating table in which every team stands at 1500.
  - For each match it splits the score on `" — "`, computes the home side's
    expected result (with a home advantage of 100), and updates both ratings
    with K = 30.
  - It appends a snapshot `"{year}-{date}"`, the two teams and the two rounded
    ratings to that year's history.
- **Team-name alias substitution `normalisoi_joukkueet`.** Each home and away
  name found in the alias table is replaced in place by its canonical name.
- **The row loop of the scraper's `parse_games`.** Every table row of at least
  eight cells becomes a match record:
  - the team cell is split on `" - "`;
  - en dashes in the score become hyphens;
  - the attendance has its spaces removed and is read as an integer when all
    digits, and is 0 otherwise;
  - a row whose team cell has no separator is skipped (in the model this is
    the only way a row of eight or more cells is skipped; see
    `Scraper.ExtractGame` under "Left out").

Modules:

| file | module | contents |
|---|---|---|
| `wrappers.dfy` | `Wrappers` | `Option` and `Result` |
| `text.dfy` | `Text` | the Python string operations the code relies on: `split`, `int()`, `str(int)`, `isdigit`, `replace` |
| `records.dfy` | `Records` | the match record shared by scraper and engine |
| `scraper.dfy` | `Scraper` | the row loop of `parse_games` |
| `aliases.dfy` | `Aliases` | the in-place substitution loop of `normalisoi_joukkueet` |
| `ordering.dfy` | `Ordering` | the sorted year set, the per-year filter, the `int(date)` keys and the stable sort |
| `elo.dfy` | `Elo` | the rating update, the season and history specification functions, and the engine's loops as methods proved equal to them |
| `elo_properties.dfy` | `EloProperties` | what a season and the whole history satisfy |

How the model represents the source:

- Ratings are exact `real`s. Python's `10 ** x` is a parameter `pow10`, of
  which only positivity is assumed (`PowersPositive`). `round(x, 1)` is an
  arbitrary parameter `round1`.
- The engine raises in two places: `int(date)` in the sort key, and the
  unpacking of `map(int, score.split(' — '))`. Either exception ends
  `laske_elo_arvot` without a result. In the model that is a `Failure`
  carrying the offending date or score text.
- The engine's loops are methods:
  - `Elo.ComputeEloHistory` is the loop over years;
  - `Elo.PlaySeason` is one iteration of it;
  - `Elo.PlayMatches` is the loop over a year's matches;
  - `Elo.UpdateRatings` is the pair of in-place rating updates.

  Each method is proved equal to a specification function (`EloHistory`,
  `SeasonStep`, `RunSeason`, `Update`). The properties are proved about those
  functions.
- The rating table (a `defaultdict`) is a `map<string, real>` read through a
  get-or-default lookup (`Rating`). The history is a `map<int, seq<Snapshot>>`
  in which a year becomes a key on its first append.

The scraper's records do not fit the engine:

- the scraper stores scores with a plain hyphen, but the engine splits on
  `" — "` (`Elo.ScrapedScoreRejected`);
- the scraper stores the raw date text of the page, but the engine calls
  `int()` on it.

The model keeps both behaviours exactly as written.

Three behaviours of the engine are worth stating outright, and the model
keeps each as the code has it:

- A malformed score is not skipped. The unpacking at
  veikkausliiga_analyysi.py:41 raises, and the whole computation ends.
- Scores are split only on `" — "` (space, em dash, space). No other dash
  glyph separates the two goal counts.
- A date that `int()` rejects is not ordered by its raw text. The sort key
  at veikkausliiga_analyysi.py:32 raises, and the whole computation ends.

The engine never reads the `audience` field.

## Model

| member | source | states |
|---|---|---|
| `Text.Find` | veikkausliiga_analyysi.py:41 | the result is the first position at or after `from` where the separator occurs, and None when it occurs nowhere there |
| `Text.FindShift` | veikkausliiga_scraper.py:30-31 | searching a suffix from position j finds what searching the whole text from the suffix's start plus j finds, shifted by the suffix's start |
| `Text.Split` | veikkausliiga_scraper.py:30-31 | `str.split(sep)` always yields at least one piece |
| `Text.SplitJoin` | veikkausliiga_scraper.py:30-31 | joining the pieces of `split(sep)` with `sep` gives back the original text |
| `Text.SplitPiecesFree` | veikkausliiga_scraper.py:30-31 | no piece of `split(sep)` contains `sep` |
| `Text.SplitHasTwoPieces` | veikkausliiga_scraper.py:30-31 | `split(sep)` has a second piece exactly when the text contains `sep` |
| `Text.SplitFirstPiece` | veikkausliiga_scraper.py:30 | when the split has two or more pieces, the first piece ends at the first occurrence of the separator |
| `Text.SplitSecondPiece` | veikkausliiga_scraper.py:31 | the second piece ends at the next occurrence after the first, or at the end of the text when there is none |
| `Text.NatToDigits` | veikkausliiga_analyysi.py:54 | the decimal spelling of a natural number is a non-empty string of ASCII digits with no leading zero (unless the number is 0) |
| `Text.DigitsRoundTrip` | veikkausliiga_scraper.py:41 | reading back the decimal spelling of a natural number gives the number |
| `Text.IntToDecimal` | veikkausliiga_analyysi.py:54 | `str(n)` is non-empty and starts with '-' exactly when n is negative |
| `Text.TrimStartDrops` | veikkausliiga_analyysi.py:32 | removing the leading whitespace `int()` skips (space, \t, \n, \v, \f, \r) drops only such characters, all of them, and keeps the rest as a suffix |
| `Text.TrimEndDrops` | veikkausliiga_analyysi.py:32 | removing the trailing whitespace `int()` skips (space, \t, \n, \v, \f, \r) drops only such characters, all of them, and keeps the rest as a prefix |
| `Text.StripNoSpace` | veikkausliiga_analyysi.py:32 | stripping a text that neither starts nor ends with whitespace leaves it unchanged |
| `Text.ParseInt` | veikkausliiga_analyysi.py:32 | `int()` on text: surrounding ASCII whitespace ignored, an optional sign, then ASCII digits, and None for anything else; pinned down by `ParseDigitString`, `ParseIntToDecimal`, `TrimStartDrops` and `TrimEndDrops` |
| `Text.ParseDigitString` | veikkausliiga_scraper.py:41 | `int()` accepts every non-empty string of ASCII digits, with its decimal value |
| `Text.ParseIntToDecimal` | veikkausliiga_analyysi.py:41 | `int(str(n)) == n` for every integer n |
| `Text.ReplaceChar` | veikkausliiga_scraper.py:32 | `replace(a, b)` keeps the length, puts b wherever a was, and leaves every other character in place |
| `Text.RemoveChar` | veikkausliiga_scraper.py:33 | `replace(c, "")` leaves no c, is no longer, and keeps the count of every other character |
| `Text.RemoveCharAppend` | veikkausliiga_scraper.py:33 | removal works piece by piece, so the kept characters stay in their order ("1 234" becomes "1234") |
| `Text.RemoveCharAbsent` | veikkausliiga_scraper.py:33 | removing a character that does not occur changes nothing |
| `Scraper.TeamsOfCell` | veikkausliiga_scraper.py:30-31 | the team cell yields two names exactly when it contains " - "; neither name contains " - "; the cell starts with home, " - ", away |
| `Scraper.Teams` | veikkausliiga_scraper.py:30-31 | the first two pieces of the team cell split on " - ", or None where Python's `[1]` raises IndexError; pinned down by `TeamsOfCell` and `TeamsAtSeparators` |
| `Scraper.TeamsAtSeparators` | veikkausliiga_scraper.py:30-31 | the home name ends at the first " - " of the cell, and the away name ends at the next " - " or at the end of the cell |
| `Scraper.ScoreText` | veikkausliiga_scraper.py:32 | the stored score has the cell's length, a hyphen wherever the cell has an en dash, and every other character unchanged |
| `Scraper.AudienceValue` | veikkausliiga_scraper.py:33-41 | the attendance is never negative; it is `int()` of the space-free text when that text is non-empty and all digits, and 0 otherwise |
| `Scraper.AudienceOfDigits` | veikkausliiga_scraper.py:33-41 | a spelled-out attendance figure is read back as itself |
| `Scraper.ExtractGame` | veikkausliiga_scraper.py:29-42 | a row of eight cells yields a record exactly when its team cell contains " - "; the record is the requested year, cell 0 as date, the two names of `Teams` of cell 4, `ScoreText` of cell 6 and `AudienceValue` of cell 7 |
| `Scraper.RowAccepted` | veikkausliiga_scraper.py:26-45 | a row contributes at most one record, and exactly one when it has at least eight cells and its team cell contains " - " |
| `Scraper.RowGames` | veikkausliiga_scraper.py:26-45 | the records one row contributes: none for a short row or one whose extraction raises, else the extracted record; pinned down by `RowAccepted` |
| `Scraper.GamesOf` | veikkausliiga_scraper.py:25-45 | the records of a sequence of rows, row by row in order; pinned down by `GamesOfAppend` and `GamesOfFacts` |
| `Scraper.GamesOfAppend` | veikkausliiga_scraper.py:25-45 | the records of rows a followed by rows b are those of a followed by those of b: row order is kept and rows are independent |
| `Scraper.GamesOfFacts` | veikkausliiga_scraper.py:25-43 | there are no more records than rows, and every record has the requested year and a non-negative attendance |
| `Scraper.ParseGames` | veikkausliiga_scraper.py:19-46 | a missing table gives no records; otherwise the result is the rows' records in row order, at most one per row, each with the year and a non-negative attendance |
| `Aliases.Normalized` | veikkausliiga_analyysi.py:21-24 | substitution keeps the number of records |
| `Aliases.Canonical` | veikkausliiga_analyysi.py:22-23 | `aliases.get(name, name)`; pinned down record by record by `NormalizedAt` |
| `Aliases.Renamed` | veikkausliiga_analyysi.py:22-23 | one record with both team names passed through `aliases.get(name, name)`; pinned down by `NormalizedAt` |
| `Aliases.NormalizedAt` | veikkausliiga_analyysi.py:21-24 | record k keeps its year, date, score and attendance; each team name in the alias table is replaced by its value, and any other name is kept |
| `Aliases.NormalizedIdempotent` | veikkausliiga_analyysi.py:21-24 | when no canonical name is itself an alias, substituting twice equals substituting once |
| `Aliases.NormalizeTeams` | veikkausliiga_analyysi.py:21-23 | the in-place loop leaves the array equal to the substituted list of its old contents |
| `Ordering.InsertYear` | veikkausliiga_analyysi.py:28 | adding a year to an ascending list of distinct years keeps it ascending and adds exactly that year |
| `Ordering.Years` | veikkausliiga_analyysi.py:28 | the years are strictly ascending, and a year is listed exactly when some match has it |
| `Ordering.MatchesOfYear` | veikkausliiga_analyysi.py:31 | the filter keeps no more records than the input; which records and in what order are stated by `MatchesOfYearMembers` and `MatchesOfYearAppend` |
| `Ordering.MatchesOfYearMembers` | veikkausliiga_analyysi.py:31 | a record is selected exactly when it is in the input with that year |
| `Ordering.MatchesOfYearAppend` | veikkausliiga_analyysi.py:31 | filtering works piece by piece, so the selected matches keep their input order and their multiplicity |
| `Ordering.MatchesOfYearLast` | veikkausliiga_analyysi.py:31 | one more match is selected exactly when it has the year |
| `Ordering.DateKeys` | veikkausliiga_analyysi.py:32 | on success there is one key per match |
| `Ordering.DateKeysSucceed` | veikkausliiga_analyysi.py:32 | keying succeeds exactly when `int()` accepts every date |
| `Ordering.DateKeysAt` | veikkausliiga_analyysi.py:32 | key k belongs to match k and is `int()` of its date |
| `Ordering.InsertByKey` | veikkausliiga_analyysi.py:32 | inserting into a key-sorted list keeps it sorted and adds exactly that element |
| `Ordering.StableSort` | veikkausliiga_analyysi.py:32 | the result is sorted by key and is a permutation of the input |
| `Ordering.StableSortIsStable` | veikkausliiga_analyysi.py:32 | for every key, the elements with that key keep their input order |
| `Ordering.InsertByKeyStable` | veikkausliiga_analyysi.py:32 | inserting x puts it after every element with the same key |
| `Ordering.SortedMatches` | veikkausliiga_analyysi.py:31-32 | the sorted season holds the year's matches and nothing else; each carries `int()` of its date as key; keys do not decrease |
| `Ordering.SameDate` | veikkausliiga_analyysi.py:31-32 | the matches of one year whose date `int()` reads as one value, in input order; the reference for `TiesInInputOrder` |
| `Ordering.KeyedSameDate` | veikkausliiga_analyysi.py:31-32 | before sorting, the keyed matches with one key are that year's matches of that date, in input order |
| `Ordering.TiesInInputOrder` | veikkausliiga_analyysi.py:31-32 | after the stable sort, the matches of one year whose dates read as the same integer are played in their input order |
| `Elo.NoEmDashSplit` | veikkausliiga_analyysi.py:41 | a text without an em dash splits on " — " into itself alone |
| `Elo.ParseScore` | veikkausliiga_analyysi.py:41 | the two goal counts of `map(int, score.split(' — '))`, or None where the unpacking or `int()` raises; pinned down by `ScoreRoundTrip`, `NoEmDashSplit` and `ScrapedScoreRejected` |
| `Elo.ScoreRoundTrip` | veikkausliiga_analyysi.py:41 | a score written "h — a" is read back as (h, a) |
| `Elo.DecimalHasNoEmDash` | veikkausliiga_analyysi.py:41 | `str(n)` contains no em dash |
| `Elo.ScrapedScoreRejected` | veikkausliiga_analyysi.py:41 | a score stored by the scraper from a cell without an em dash does not parse in the engine |
| `Elo.ExpectedHome` | veikkausliiga_analyysi.py:44 | the expected home result lies strictly between 0 and 1 |
| `Elo.Actual` | veikkausliiga_analyysi.py:48 | 1 for a home win, 0.5 for a draw, 0 for a loss; pinned down by `ActualOutcomes` |
| `Elo.ActualOutcomes` | veikkausliiga_analyysi.py:48 | the result is 1 exactly for a home win, 0.5 exactly for a draw, 0 exactly for a home loss, and swapping the goals gives its complement |
| `Elo.Update` | veikkausliiga_analyysi.py:44-50 | the table after both in-place updates; pinned down by `UpdateProperties` |
| `Elo.Rating` | veikkausliiga_analyysi.py:34-44 | the default-1500 lookup of the rating table; pinned down by `UpdateProperties` and `EloProperties.FreshRating` |
| `Elo.PlayMatch` | veikkausliiga_analyysi.py:41-59 | one iteration of the inner loop; pinned down by `PlayMatchStep` and `PlayMatchFails` |
| `Elo.UpdateProperties` | veikkausliiga_analyysi.py:44-50 | only the two teams' entries change; the two changes sum to zero; a team meeting itself keeps its rating; a home win raises home and lowers away, and a home loss does the opposite |
| `Elo.UpdateRatings` | veikkausliiga_analyysi.py:44-50 | the two in-place updates produce `Update` of the old table |
| `Elo.SnapshotOf` | veikkausliiga_analyysi.py:53-59 | the appended entry; its fields are stated per match by `EloProperties.MatchAt` and `EloProperties.SeasonSnapshots` |
| `Elo.RunSeason` | veikkausliiga_analyysi.py:34-59 | one season played in order from a fresh table; pinned down by `EloProperties.RunSeasonSucceeds`, `FirstBadScore`, `RunSeasonState` and `MatchAt` |
| `Elo.SeasonHistory` | veikkausliiga_analyysi.py:31-59 | one year's snapshots, or the first date or score error; pinned down by `EloProperties.SeasonSnapshots` and `SeasonSucceeds` |
| `Elo.Appended` | veikkausliiga_analyysi.py:53 | the `defaultdict(list)` append, where a year becomes a key on its first append; pinned down by `AppendedStep` and `EloProperties.AppendedFresh` |
| `Elo.SeasonStep` | veikkausliiga_analyysi.py:31-59 | one year of the outer loop; pinned down by `SeasonStepDates` and `SeasonStepRun` |
| `Elo.Histories` | veikkausliiga_analyysi.py:30-59 | the loop over the given years; pinned down by `HistoriesStep`, `HistoriesSticky`, `EloProperties.HistoriesSucceed` and `EloProperties.HistoryAt` |
| `Elo.EloHistory` | veikkausliiga_analyysi.py:26-61 | the result of `laske_elo_arvot`; pinned down by `EloProperties.HistoryKeys` and `EloHistorySucceeds` |
| `Elo.PlayMatches` | veikkausliiga_analyysi.py:34-59 | the inner loop from a fresh table produces the season's snapshots appended to the history, or the season's error |
| `Elo.PlaySeason` | veikkausliiga_analyysi.py:31-59 | one year of the outer loop equals `SeasonStep`: a date error, a score error, or the year's snapshots appended |
| `Elo.ComputeEloHistory` | veikkausliiga_analyysi.py:26-61 | the engine's result equals `EloHistory` of its input |
| `Elo.HistoriesStep` | veikkausliiga_analyysi.py:30 | one more year of the outer loop is one more `SeasonStep` |
| `Elo.SeasonStepDates` | veikkausliiga_analyysi.py:32 | a year with a date `int()` rejects fails with that date |
| `Elo.SeasonStepRun` | veikkausliiga_analyysi.py:32-59 | a year whose dates parse is its season played in sorted order and appended to the history |
| `Elo.PlayMatchStep` | veikkausliiga_analyysi.py:41-59 | a match whose score parses updates the table by `Update` and appends its snapshot |
| `Elo.PlayMatchFails` | veikkausliiga_analyysi.py:41 | a match whose score does not parse fails with that score |
| `Elo.RunSeasonFailsAt` | veikkausliiga_analyysi.py:41 | an unparsable score after a successful prefix is the error of the whole season |
| `Elo.AppendedStep` | veikkausliiga_analyysi.py:53 | appending one more snapshot to a year's list extends that list by it |
| `Elo.RunSeasonSticky` | veikkausliiga_analyysi.py:41 | once a prefix of a season fails, the season fails with the same error |
| `Elo.HistoriesSticky` | veikkausliiga_analyysi.py:30-41 | once a prefix of the years fails, the whole history fails with the same error |
| `EloProperties.EveryAt` | veikkausliiga_analyysi.py:36 | a condition checked match by match holds exactly when it holds for every match |
| `EloProperties.RunSeasonScores` | veikkausliiga_analyysi.py:36-41 | a season succeeds exactly when each match's score parses, checked in order |
| `EloProperties.RunSeasonSucceeds` | veikkausliiga_analyysi.py:36-41 | a season succeeds exactly when every score parses: no match is skipped |
| `EloProperties.RunSeasonLast` | veikkausliiga_analyysi.py:36-41 | a season succeeds exactly when its earlier matches succeed and its last score parses |
| `EloProperties.FirstBadScore` | veikkausliiga_analyysi.py:41 | the first unparsable score in processing order is the error |
| `EloProperties.PlaysLast` | veikkausliiga_analyysi.py:37-38 | the teams of a season are those of its earlier matches and the two of its last |
| `EloProperties.RunSeasonState` | veikkausliiga_analyysi.py:34-59 | a successful season has one snapshot per match, and its table holds exactly the teams that have played |
| `EloProperties.RunSeasonPrefix` | veikkausliiga_analyysi.py:36-59 | every prefix of a successful season succeeds, and its snapshots are a prefix of the season's |
| `EloProperties.MatchAt` | veikkausliiga_analyysi.py:41-59 | after match k the table is the previous table updated with k's score; snapshot k has date "{year}-{date}" and both post-match ratings rounded; the unrounded table carries forward |
| `EloProperties.FreshRating` | veikkausliiga_analyysi.py:34 | a team that has not yet played this season stands at 1500, whatever it did in earlier years |
| `EloProperties.SeasonSnapshots` | veikkausliiga_analyysi.py:31-59 | a successful year has one snapshot per match of that year, in the stable `int(date)` order, each with the "{year}-{date}" date and the match's teams |
| `EloProperties.SeasonSucceeds` | veikkausliiga_analyysi.py:31-41 | a year succeeds exactly when every match of that year has a parsable date and a parsable score |
| `EloProperties.HistoriesLast` | veikkausliiga_analyysi.py:30 | the years succeed exactly when the earlier years do and the last year's season does |
| `EloProperties.HistoriesSucceed` | veikkausliiga_analyysi.py:30 | the history succeeds exactly when every processed year succeeds |
| `EloProperties.SeasonsSucceedAt` | veikkausliiga_analyysi.py:30 | when all processed years succeed, each one of them does |
| `EloProperties.SeasonsParse` | veikkausliiga_analyysi.py:30-41 | the processed years all succeed exactly when every match of those years has a parsable date and score |
| `EloProperties.HistoryAt` | veikkausliiga_analyysi.py:27-53 | over distinct years, a year is a history key exactly when it is processed and yields a snapshot, and its list is that year's snapshots |
| `EloProperties.AppendedFresh` | veikkausliiga_analyysi.py:53 | appending to a year not yet in the history makes it a key exactly when something is appended, gives it exactly the appended list, and leaves every other year as it was |
| `EloProperties.HistoryKeys` | veikkausliiga_analyysi.py:27-61 | every distinct year of the input is exactly one history key, whose list is that year's snapshots, one per match of that year |
| `EloProperties.EloHistorySucceeds` | veikkausliiga_analyysi.py:26-61 | the whole computation succeeds exactly when every date and every score in the input parses |

## Left out

- File and JSON input and output are not modelled: `lataa_data`, the alias
  file read in `normalisoi_joukkueet`, and the JSON dump in the scraper's
  `main`. The alias table is a parameter.
- Report rendering in `generoi_raportit` (pandas, matplotlib) is foreign
  library output and is not modelled.
- Network fetching is not modelled: `fetch_year`, the year loop of the
  scraper's `main` and its `time.sleep`.
- BeautifulSoup is not modelled. The games table is an optional sequence of
  rows, and each row is the sequence of its cells' texts, already stripped
  by `get_text(strip=True)`.
- Floating point is not modelled. Ratings are exact reals, so overflow,
  underflow and rounding error do not occur. `10 ** x` is a parameter that
  is only known to be positive. `round(x, 1)` is an arbitrary parameter.
- `Text.ParseInt` models `int()` on text only with ASCII whitespace, an
  optional sign and ASCII digits. It rejects the underscores, non-ASCII
  decimal digits and non-ASCII whitespace that Python accepts. It also reads
  numbers of any length, whereas CPython's `int()` raises ValueError on more
  than 4300 digits by default.
- `Text.IsDigitString` models `isdigit()` with ASCII digits only. Python's
  `isdigit()` is also true of other Unicode digits, such as superscripts and
  the decimal digits of other scripts.
- `Scraper.ExtractGame` does not model a second way a row is skipped. When
  the space-free attendance text holds a digit that `isdigit()` accepts but
  `int()` rejects (a superscript such as '²', or more than 4300 digits),
  `int()` raises inside the `try` at veikkausliiga_scraper.py:41. The row is
  then skipped at lines 44-45. The model keeps that row with attendance 0.
  Likewise, an attendance written in another script's decimal digits is read
  by Python as its value, but by the model as 0.
- The history is a map. The insertion order of the dictionary's keys is
  not modelled; it follows the ascending year order, and both years and
  lists are stated per key.
- The diagnostics the scraper prints for a skipped row are not modelled.
  The row is skipped and nothing else happens.
- Each source loop is a method, but the loop bodies are split across three
  methods: `PlaySeason`, `PlayMatches` and `UpdateRatings`.
