# FAB Event Scraper — a verified model of the head-to-head engine

FAB Event Scraper reads the round pages of a Flesh and Blood tournament's
coverage site. It builds a hero-versus-hero results table, which the web
front end shows as win percentages and as a breakdown per hero. This
project models the core of that program in Dafny:

- `helpers/scraper.py` (imperative, modelled imperatively):
  - `url_to_data_df` grows a DataFrame in place, match by match: byes are
    skipped; a hero gets a zero column and a zero row on first sighting;
    the three result banners update cells; any other banner raises; rows
    and columns are sorted at the end. The DataFrame is the class
    `ResultMatrix.DataFrame`. The loop is the method `Scraper.UrlToDataDf`,
    proved equal to the reference function `Scraper.Aggregate`.
  - `data_df_to_ratio_df` (`Projectors.DataDfToRatioDf`) fills a table of
    "M" / "--" / "n%" cells in a double loop.
  - `data_df_to_hero_df` (`Projectors.DataDfToHeroDf`) appends one row per
    opponent met.
  - The '/'-stripping of hero names in `_get_heroes_and_winner`
    (`Scraper.GetHeroesAndWinner`) is modelled too.
- `app.py` (pure, modelled as functions):
  - `is_valid_fab_url` and `get_last_segment` are modelled the way
    Python's backtracking regular-expression matcher runs their patterns:
    greedy runs, giving characters back, `search` trying each start
    position in turn. Each is then characterised by declarative lemmas;
    those for `get_last_segment` cover URLs without line breaks (see
    "Left out").
  - The sheet-name cleaning of `download_csv` is `App.CleanSheetName`.

Modules: `Wrappers` (Option, Result), `Text` (deleting characters, decimal
notation), `HeroOrder` (code-point order on names, insertion sort standing
for `sort_index`), `ResultMatrix` (the table as a value, its invariant
`WellFormed`, win/draw totals, and the `DataFrame` class), `Scraper`,
`Projectors`, `App`.

The input of the aggregation is the list of round pages. Each page is
the list of its match rows as `RawMatch(p1Text, p2Text, resultText)`: the
hero-box texts with links removed, and the result-box text. The table's
invariant `WellFormed` holds after every match:

- the row labels and the column labels are the same heroes, in the same
  order, none of them twice;
- there is a cell for every pair of heroes and for no other pair;
- draws are recorded alike in both orientations.

## Model

| member | source | states |
|---|---|---|
| Text.Without | helpers/scraper.py:31-33 | deleting a set of characters keeps exactly the characters outside the set and never lengthens the string |
| Text.WithoutConcat | app.py:161-169 | deleting characters distributes over concatenation, so the kept characters stay in order |
| Text.WithoutIdempotent | helpers/scraper.py:32-33 | deleting the same characters twice changes nothing more |
| Text.WithoutCounts | app.py:169 | each kept character occurs as often as before; deleted ones do not occur |
| Text.NatToString | helpers/scraper.py:95 | the decimal form of a percentage is non-empty, all digits, and has no leading zero unless the number is 0 |
| Text.NatToStringRoundTrip | helpers/scraper.py:95 | reading the decimal form back gives the number |
| Text.NatToStringInjective | helpers/scraper.py:95 | different numbers are written differently |
| HeroOrder.LeReflexive | helpers/scraper.py:76 | the name order used by `sort_index` is reflexive |
| HeroOrder.LeTotal | helpers/scraper.py:76 | any two names are comparable |
| HeroOrder.LeAntisymmetric | helpers/scraper.py:76 | two names each at most the other are equal |
| HeroOrder.LeTransitive | helpers/scraper.py:76 | the name order is transitive |
| HeroOrder.PrependSorted | helpers/scraper.py:76 | a name at most every element of a sorted list can go in front |
| HeroOrder.Insert | helpers/scraper.py:76 | inserting into a sorted list gives a sorted list with one more occurrence of the name |
| HeroOrder.Sort | helpers/scraper.py:76 | the sorted labels are in ascending order and a permutation of the labels |
| HeroOrder.SameHead | helpers/scraper.py:76 | two sorted permutations of each other start with the same name |
| HeroOrder.SortedUnique | helpers/scraper.py:76 | there is only one sorted arrangement of a list of labels |
| ResultMatrix.WithColumn | helpers/scraper.py:54 | `data_df[p] = [(0, 0)] * len(data_df)`: the same rows, one more last column holding (0, 0) in every existing row, every other cell kept |
| ResultMatrix.WithRow | helpers/scraper.py:55 | `data_df.loc[p] = [(0, 0)] * len(data_df.columns)`: one more last row holding (0, 0) in every column, every other cell kept |
| ResultMatrix.Registered | helpers/scraper.py:53-59 | a new hero gets one new last row and column of (0, 0) cells, old cells unchanged, the invariant kept; a known hero changes nothing |
| ResultMatrix.FreshHeroDraws | helpers/scraper.py:53-59 | the zero cells of a new hero keep the draws symmetric |
| ResultMatrix.SortTable | helpers/scraper.py:76 | rows and columns sorted, each a permutation of the old labels, every cell under its own pair of labels, the invariant kept |
| ResultMatrix.SortedWellFormed | helpers/scraper.py:76 | reordering the labels of a well-formed table keeps it well formed |
| ResultMatrix.AddWin | helpers/scraper.py:61-66 | one more win in the (winner, loser) cell, its draws and every other cell and label unchanged |
| ResultMatrix.AddDraw | helpers/scraper.py:67-72 | one more draw in one cell, its wins and every other cell and label unchanged |
| ResultMatrix.RegisteredTotals | helpers/scraper.py:53-59 | registering a hero leaves the win and draw totals unchanged |
| ResultMatrix.AddWinTotals | helpers/scraper.py:61-66 | one win adds one to the win total and nothing to the draw total |
| ResultMatrix.AddDrawTotals | helpers/scraper.py:67-72 | one draw entry adds one to the draw total and nothing to the win total |
| ResultMatrix.SortTableTotals | helpers/scraper.py:76 | sorting leaves both totals unchanged |
| ResultMatrix.DataFrame.constructor | helpers/scraper.py:42 | a new DataFrame has no rows, columns or cells |
| ResultMatrix.DataFrame.AddColumn | helpers/scraper.py:54 | a new last column, zero in every existing row |
| ResultMatrix.DataFrame.AddRow | helpers/scraper.py:55 | a new last row, zero in every column |
| ResultMatrix.DataFrame.CellAt | helpers/scraper.py:62-71 | `data_df.at[row, col]` reads the (wins, draws) cell of that pair |
| ResultMatrix.DataFrame.Put | helpers/scraper.py:63-72 | `.at[row, col] = c` rewrites that one cell and nothing else |
| ResultMatrix.DataFrame.SortIndex | helpers/scraper.py:76 | the DataFrame becomes the sorted table |
| Scraper.GetHeroesAndWinner | helpers/scraper.py:31-37 | hero names lose every '/', are unchanged when they hold none; the result text passes through |
| Scraper.AddWinEffect | helpers/scraper.py:61-66 | a win adds one to the winner's wins against the loser and changes no other cell or label |
| Scraper.DrawEffect | helpers/scraper.py:67-72 | a draw adds one draw in each orientation (two to a mirror match's single cell), nothing else changes, symmetry kept |
| Scraper.Apply | helpers/scraper.py:61-74 | each banner changes exactly its cells; an unknown banner, and only that, is an error |
| Scraper.MatchHeroes | helpers/scraper.py:49-59 | the heroes a match registers are non-empty and '/'-free; a bye registers none |
| Scraper.KindOf | helpers/scraper.py:49-74 | a match is a bye exactly when a stripped hero name is empty, and unrecognised exactly when it is not a bye and its banner is none of the three |
| Scraper.Step | helpers/scraper.py:48-74 | one match: fails exactly on an unknown banner of a non-bye match, a bye leaves the table as it is, the heroes become the old ones plus the match's two, the invariant kept |
| Scraper.Flatten | helpers/scraper.py:43-46 | the matches of all round pages, page by page in round order; a match is in it exactly when it is on some page |
| Scraper.RegisteredMembers | helpers/scraper.py:53-59 | registering a hero adds exactly that hero to the heroes and keeps the invariant |
| Scraper.RegisterPair | helpers/scraper.py:53-59 | registering both heroes of a match adds exactly those two |
| Scraper.Fold | helpers/scraper.py:47-74 | the match loop keeps the invariant; its only error is the unknown banner |
| Scraper.Aggregate | helpers/scraper.py:39-77 | the returned table is well formed, sorted on both axes with equal labels, and draws are symmetric for all pairs |
| Scraper.Register | helpers/scraper.py:53-59 | the in-place registration yields exactly `Registered` |
| Scraper.RecordWin | helpers/scraper.py:61-66 | `.at` read then write adds one win to that cell and nothing else (`AddWin`) |
| Scraper.RecordDraw | helpers/scraper.py:67-72 | the two `.at` updates add one draw to each orientation (`AddDraw` twice) |
| Scraper.Record | helpers/scraper.py:61-74 | the in-place banner dispatch succeeds exactly when `Apply` does, leaving its table |
| Scraper.ProcessMatch | helpers/scraper.py:48-74 | the in-place loop body yields `Step`'s table, or its error |
| Scraper.ProcessPage | helpers/scraper.py:46-74 | the loop over one page succeeds exactly when folding that page from the current table succeeds, and then leaves the DataFrame holding the folded table |
| Scraper.FoldAppend | helpers/scraper.py:43-46 | processing two runs of matches in turn is processing their concatenation: an error in the first is the error of the whole, otherwise the second continues from the first's table |
| Scraper.UrlToDataDf | helpers/scraper.py:39-77 | builds the round addresses, then the nested loop over their pages and matches and the sort return exactly `Aggregate` of the pages |
| Scraper.TallyPartition | helpers/scraper.py:49-74 | every match is a bye, a win for either side, a draw, or unrecognised, and only one of them |
| Scraper.FoldFails | helpers/scraper.py:73-74 | the loop fails exactly when some match has an unrecognised banner |
| Scraper.FoldHeroes | helpers/scraper.py:53-59 | the row labels after the loop are the old ones plus the heroes of non-bye matches |
| Scraper.StepCounts | helpers/scraper.py:61-72 | a win adds one to the win total, a draw two draw entries, a bye nothing |
| Scraper.FoldCounts | helpers/scraper.py:61-72 | over the loop the win total grows by the decisive matches and the draw total by twice the drawn ones |
| Scraper.AggregateFails | helpers/scraper.py:73-74 | the aggregation raises, and returns no table, exactly when a non-bye match has an unknown banner |
| Scraper.AggregateHeroes | helpers/scraper.py:31-59 | the heroes of the result are exactly those of non-bye matches, all non-empty and '/'-free |
| Scraper.HeroesAreNames | helpers/scraper.py:31-51 | hero names of non-bye matches are non-empty and '/'-free |
| Scraper.AggregateGames | helpers/scraper.py:61-72 | wins total + draws total / 2 equals the number of non-bye matches, mirror matches included |
| Scraper.MirrorRegistered | helpers/scraper.py:53-59 | in a mirror match the hero is registered once and the diagonal cell is the one from before |
| Scraper.MirrorWin | helpers/scraper.py:61-63 | a first-player win in a mirror match adds one win on the diagonal |
| Scraper.MirrorDraw | helpers/scraper.py:67-72 | a drawn mirror match adds two draws on the diagonal |
| Scraper.RoundUrls | helpers/scraper.py:40 | one page address per round |
| Scraper.RoundUrlsDistinct | helpers/scraper.py:40 | no round page is fetched twice |
| Scraper.WinThenDraw | helpers/scraper.py:39-77 | a first-player win of `a` over `b`, a draw back and a bye give the table [b, a] with (1 win, 1 draw) for `a` and (0, 1) for `b` |
| Scraper.SortTwo | helpers/scraper.py:76 | sorting two heroes puts the smaller name first and keeps the cells |
| Scraper.WinThenDrawFold | helpers/scraper.py:46-74 | the same matches before the sort, heroes in order of appearance |
| Scraper.FoldStep | helpers/scraper.py:47-74 | the loop over a match and the rest is one step, then the rest |
| Scraper.FirstMeeting | helpers/scraper.py:53-66 | two new heroes are registered in order of appearance and the winner gets one win |
| Scraper.FirstWinStep | helpers/scraper.py:53-63 | the first match of two new heroes won by the first player is both registrations then one win |
| Scraper.FirstWinCells | helpers/scraper.py:61-63 | one win on two fresh heroes gives (1, 0) to the winner and leaves (0, 0) for the loser |
| Scraper.RegisterTwo | helpers/scraper.py:53-59 | registering two different heroes into the empty table gives both, zero cells |
| Scraper.DrawBetweenKnown | helpers/scraper.py:67-72 | a draw between known heroes registers nobody and adds one draw per orientation |
| Projectors.Losses | helpers/scraper.py:85 | the losses of the row hero against the column hero are the column hero's wins against it |
| Projectors.Games | helpers/scraper.py:84-87 | wins + draws + losses of a pair; zero exactly when both of its cells record nothing against the other |
| Projectors.DrawsSymmetric | helpers/scraper.py:67-72 | in a well-formed table draws read the same in both orientations |
| Projectors.GamesSymmetric | helpers/scraper.py:84-87 | a pair of heroes counts the same number of games in both orientations |
| Projectors.WinPercent | helpers/scraper.py:94 | the win percentage is the whole part of 100 * wins / games, at most 100 |
| Projectors.RatioOf | helpers/scraper.py:84-95 | "M" exactly on the diagonal, "--" exactly when the pair never met, otherwise the rounded-down win percentage in 0..100 |
| Projectors.Render | helpers/scraper.py:89-95 | every cell text is non-empty |
| Projectors.RenderShape | helpers/scraper.py:89-95 | a cell text starts with a digit exactly when it is a percentage |
| Projectors.RenderInjective | helpers/scraper.py:89-95 | different cell values never print the same text |
| Projectors.NoGamesSymmetric | helpers/scraper.py:91-92 | "--" shows in both orientations or in neither |
| Projectors.FloorShares | helpers/scraper.py:94 | two rounded-down shares of the same games sum to at most 100, and to at least 99 when nothing else was played |
| Projectors.PercentComplement | helpers/scraper.py:84-95 | the two percentages of a pair sum to at most 100, and to 99 or 100 without draws |
| Projectors.RatioTable | helpers/scraper.py:80 | the ratio table has the same labels and the same cells as the results table |
| Projectors.RatioTableCells | helpers/scraper.py:80-95 | every pair has a cell: "M" iff diagonal, "--" iff never met, otherwise the rounded-down percentage followed by "%" |
| Projectors.RatioCell | helpers/scraper.py:84-95 | the inner loop body writes the rendered ratio of the pair |
| Projectors.FillRow | helpers/scraper.py:83-95 | the inner loop writes one correct cell per column of the row and keeps the others |
| Projectors.DataDfToRatioDf | helpers/scraper.py:79-97 | the double loop returns exactly `RatioTable` |
| Projectors.RowFor | helpers/scraper.py:103-113 | the row one opponent contributes: one row exactly for another hero met, none otherwise (`continue`) |
| Projectors.BreakdownRows | helpers/scraper.py:102-113 | the rows of the loop over a list of opponents, in list order, never more than there are opponents |
| Projectors.HeroBreakdown | helpers/scraper.py:99-115 | fails, naming the hero, exactly when there is a column and the hero is not a row |
| Projectors.DataDfToHeroDf | helpers/scraper.py:99-115 | the loop returns exactly `HeroBreakdown` |
| Projectors.OpponentRow | helpers/scraper.py:103-113 | the loop body for one opponent yields that opponent's row, or none when skipped |
| Projectors.RowForSpec | helpers/scraper.py:103-113 | a row is produced exactly for another hero met, and it agrees with both tables |
| Projectors.BreakdownRowsSpec | helpers/scraper.py:102-113 | each row has the table's wins, losses, draws, a positive game count and the ratio table's win rate; the opponents listed are exactly those met other than the hero |
| Projectors.BreakdownRowsOrder | helpers/scraper.py:102-113 | over a sorted column list the opponents are listed once each in name order |
| Projectors.HeroBreakdownSpec | helpers/scraper.py:99-115 | on a sorted table: one row per opponent met, in name order, each agreeing with both tables |
| Projectors.IdleHero | helpers/scraper.py:108-109 | a hero who met nobody else gets an empty breakdown |
| App.DollarAt | app.py:29-34 | `$` without MULTILINE matches only at the end or just before a final line break |
| App.RunEnd | app.py:29-34 | a greedy run stops at the first stop character, or at the end |
| App.SlashEndFrom | app.py:34 | the `.+` backtracking for `/$`; when it succeeds the URL has a character after the prefix and ends in '/' or a line break |
| App.IsValidFabUrl | app.py:33-35 | `is_valid_fab_url`: an accepted URL starts with the coverage prefix, has at least two more characters, and ends in '/' or a line break |
| App.SlashEndFromSpec | app.py:34 | backtracking `.+` succeeds exactly when some end of the run is followed by '/' and `$` |
| App.ValidFabUrlShape | app.py:33-35 | a URL is accepted exactly when it is the prefix, a non-empty middle without line breaks, and '/' (optionally one final line break) |
| App.ShapeIsValid | app.py:33-35 | every URL of the accepted shape is accepted |
| App.ValidHasShape | app.py:33-35 | every accepted URL has that shape |
| App.ValidFabUrlPlain | app.py:33-35 | without line breaks: accepted exactly when it starts with the coverage prefix, ends with '/', and has something between |
| App.SlashThenEndAt | app.py:29 | the lookahead `(?=(?:\/)?$)` holds only within two characters of the end; without line breaks, exactly at the end or before a final '/' |
| App.BacktrackEnd | app.py:29-30 | backtracking finds the longest end of the run where the lookahead holds, or none |
| App.MatchAt | app.py:29-30 | an attempt at a position succeeds exactly when a '/' precedes it and a '/'-free run ends where the lookahead holds |
| App.SearchFrom | app.py:30 | `search` returns the leftmost succeeding position, or none when no position succeeds |
| App.GetLastSegment | app.py:24-31 | a returned segment is non-empty and '/'-free |
| App.NoSlashNoSegment | app.py:29-31 | a string without '/' gives None |
| App.DoubleSlashNoSegment | app.py:29-31 | a string ending in "//" gives None |
| App.LastSegmentOf | app.py:25-31 | for a non-empty segment without '/' or line breaks, `p + "/" + seg` and `p + "/" + seg + "/"` both give `seg` |
| App.LastSegmentSound | app.py:25-31 | without line breaks, a returned segment is what ends the string after a '/', possibly followed by one '/' |
| App.TrailingSlash | app.py:25-31 | for a non-empty URL without line breaks that does not already end in '/', adding a trailing '/' does not change the result |
| App.CleanSheetName | app.py:161-169 | the sheet name keeps exactly the characters of the hero name that are not `: \ / * ? [ ]` |
| App.CleanSheetNameChars | app.py:161-169 | cleaning works character by character and keeps the order |
| App.CleanSheetNameIdempotent | app.py:161-169 | cleaning twice equals cleaning once; a clean name is kept as it is |

## Left out

- Fetching and parsing (`_get_soup`, `_get_text_excluding_links`, the
  `find`/`find_all` calls): network I/O and HTML parsing. The model takes
  the already extracted texts of each round page as its input.
- The Flask routes, session ids, the cache, redirects and templates:
  web and session state. `get_last_segment`'s `.replace("-", " ").title()`
  for the event name is left out with them, because `.title()` follows
  Unicode case rules.
- The Excel export (`pd.ExcelWriter`, header rotation, `send_file`):
  foreign library calls. Only the sheet-name cleaning is modelled.
- `highlight_cells`, `make_index_clickable`, `make_opponent_hero_clickable`:
  colour interpolation in floating point and HTML wrapping, no effect on
  the tables.
- Projectors.WinPercent: the source computes `int((wins / n_games) * 100)`
  in floating point, which for some ratios is one lower than the exact
  whole part (29 of 100 gives 28). The model uses the exact whole part of
  100 * wins / games.
- Projectors.DataDfToRatioDf and Projectors.DataDfToHeroDf take a table
  with the shape `url_to_data_df` returns (`WellFormed`). On other tables
  the source may fail with a missing label, and the model does not cover
  that.
- Projectors.HeroBreakdown: a hero that is not a row fails only when the
  table has at least one column. On an empty table the source's loop runs
  zero times and returns an empty breakdown, and the model follows that.
- pandas internals: how column and row insertion and `sort_index` are
  implemented. Only the resulting labels and cells are modelled, with the
  sort as an insertion sort on code-point order.
- Scraper.UrlToDataDf: the round addresses are built but not fetched; the
  caller supplies one list of match rows per address (`pages[k]` for the
  `k`-th), so the model requires as many pages as rounds.
- App.TrailingSlash, App.LastSegmentOf, App.LastSegmentSound: the
  declarative account of `get_last_segment` covers URLs (and segments)
  without line breaks only. In the pattern, `$` also matches before a final
  line break and `[^\/]` matches a line break, so "x/y/\n" gives "y" and
  "x/y/\n/" gives "\n". `App.GetLastSegment` itself models those inputs as
  the matcher treats them; only the lemmas leave them out.
