# Asgard boss-raid spreadsheet: a Dafny model

`parse-boss-json.py` turns a Hero Wars guild-raid ("Asgard") dump into a
workbook with three sheets: "Player Summaries", "Boss Match Detail" and
"Hero Summary". This project models the logic underneath its spreadsheet
calls, starting from already-parsed records:

- the catalog lookups: color ranks, heroes, pets, and the roster's player names;
- the player-summary ordering and the quota flags on attempt counts;
- the match-detail row logic:
  - the `write_column` / `finish_row` cursor and its styling rule;
  - the boss-progress figures and the buff string;
  - `get_attacker`, the five hero blocks and the pet block;
  - the stable ordering of all (player, match) pairs;
- the hero-summary aggregation:
  - a match-by-hero table filled in place;
  - per-hero counts and averages over strictly positive entries;
  - the ranking by team damage per power;
- the dispatch on the length of the dump's results list.

A sheet is modelled by its `worksheet.write(row, col, value, format)` calls in
order: the match-detail and hero pages as one flat list, the player-summary
page as a list of rows, each holding that row's writes. Any exception that ends the run is a `Fault`. The
modules are:

- `Records`: the parsed input.
- `Catalog`: the lookups.
- `Ordering`: the stable descending sort that `sorted` / `list.sort` perform.
- `Text`: decimal rendering, `join` and `split`.
- `Sheet`: cells, formats and writes.
- `PlayerSummary`, `MatchDetail` and `RowCursor`: the first two pages.
- `HeroSummary`: the third page.
- `Convert`: the top level.

The two imperative parts keep the source's form:

- The cursor is a class with `row`, `col` and the write log. Its methods are
  proved against `Sheet.SheetWrites`.
- The hero table is filled in `array`/`array2` values by loops. The filled
  arrays are proved equal to column functions of the matches, and the page
  procedure is proved equal to `HeroSummary.HeroSummarySheet`.

## Model

| member | source | states |
|---|---|---|
| Catalog.AllColors | parse-boss-json.py:17-25 | the rank table has exactly 19 labels, "NONE" first, "W" second, "R+2" last |
| Catalog.PyIndex | parse-boss-json.py:99 | Python list indexing: defined exactly for -len <= i < len, and a negative index counts from the end |
| Catalog.LookupColor | parse-boss-json.py:104-108 | ids 0..18 give `ALL_COLORS[id]`; ids -19..-1 give `ALL_COLORS[19 + id]`, as Python's negative indexing does; ids >= 19 are an unknown-color fault; ids below -19 are an IndexError; every label returned is in the table |
| Catalog.LookupPet | parse-boss-json.py:95-99 | id 0 is "no pet" whatever the catalog; any other id resolves exactly when id - 6000 is a valid list index, to `pets[id - 6000]` for a non-negative index and to `pets[len(pets) + id - 6000]` for a negative one |
| Catalog.LookupHero | parse-boss-json.py:76-77 | resolves exactly when the id is a valid list index, to `heroes[id]` for a non-negative id and to `heroes[len(heroes) + id]` for a negative one; otherwise an IndexError |
| Catalog.LookupPlayer | parse-boss-json.py:54-58 | a missing key anywhere on the roster path gives None; it fails only when `results` has fewer than two entries, because only KeyError is caught; it gives a name exactly when the roster holds that name |
| Ordering.SortDesc | parse-boss-json.py:136 | the sorted list has the same length and the same elements (a permutation) |
| Ordering.SortDescNonIncreasing | parse-boss-json.py:136 | the keys never increase along the sorted list (`reverse=True`) |
| Ordering.SortDescStable | parse-boss-json.py:136 | the elements sharing any one key keep their input order (Python's sort is stable) |
| Ordering.StableOrderUnique | parse-boss-json.py:262 | two non-increasing orders with the same per-key subsequences are equal |
| Ordering.SortDescUnique | parse-boss-json.py:262 | any stable descending sort of the input gives exactly `SortDesc`'s result |
| Ordering.InsertNonIncreasing | parse-boss-json.py:136 | inserting into a non-increasing list keeps it non-increasing |
| Ordering.InsertWithKey | parse-boss-json.py:136 | insertion puts the new element before its equal-key elements, as though it were placed at the front |
| PlayerSummary.QuotaFormat | parse-boss-json.py:144-148 | an attempt cell gets the error style exactly when the count differs from the quota; otherwise it is unformatted |
| PlayerSummary.SortedStats | parse-boss-json.py:136 | the summary entries, permuted into non-increasing `bossDamage` order, with ties in response order |
| PlayerSummary.NameWrite | parse-boss-json.py:138-141 | the roster name, unformatted, when the roster has one; otherwise "Unknown player: " + id in the error style; it fails exactly when `lookup_player` raises |
| PlayerSummary.SummaryRow | parse-boss-json.py:137-148 | five writes in columns 0..4 of the row: name, boss damage, boss attempts (flagged iff != 5), minion points, minion attempts (flagged iff != 9); the attempt cells carry `QuotaFormat`, so a met quota is written unformatted; damage and points are never flagged |
| PlayerSummary.SummaryRows | parse-boss-json.py:137-148 | one row per entry, numbered consecutively; fails exactly when the entries are non-empty and the roster's results list is too short, and then with IndexError |
| PlayerSummary.SummaryHeader | parse-boss-json.py:131-135 | five unformatted text writes in row 0, columns 0..4: "Player", "Boss Damage", "Boss Attempts", "Minions Points", "Minions Attempts" |
| PlayerSummary.SummaryPage | parse-boss-json.py:131-148 | for entries already in page order: the header, then row k+1 is the summary row of entry k; fails exactly when the entries are non-empty and the roster's results list is too short, and then with IndexError |
| PlayerSummary.SummarySheet | parse-boss-json.py:131-148 | the header, then row k+1 is the summary row of the k-th entry in sorted order; a failed page carries the IndexError that `lookup_player` lets through (line 55) |
| PlayerSummary.SummarySheetOrdered | parse-boss-json.py:136-142 | down the written page the boss-damage column never increases |
| Sheet.CellFormat | parse-boss-json.py:198 | an explicit format wins; without one, the error style applies exactly when `canError` holds and the value is None |
| Sheet.RowWrites | parse-boss-json.py:197-199 | the k-th column of a row is written at (row, col + k) with its styled format |
| Sheet.SheetWritesAppend | parse-boss-json.py:200-202 | writing two blocks of rows one after the other continues the row numbering |
| Sheet.SheetWritesAt | parse-boss-json.py:196-202 | in a page of equal-width rows, column j of row i lands at grid cell (row + i, j) |
| Sheet.CollectRowsSpec | parse-boss-json.py:263-292 | rows are produced exactly when every entry's row succeeds, one per entry and in order |
| Sheet.CollectRowsFirstFailure | parse-boss-json.py:263-292 | the first entry whose row fails gives the fault of the whole page |
| Sheet.CollectRowsFault | parse-boss-json.py:263-292 | a failed page carries the fault of the first entry whose row fails, every earlier entry succeeding |
| Sheet.CollectRowsPrefixFailure | parse-boss-json.py:263-292 | a fault in an earlier entry decides the outcome, whatever follows |
| RowCursor.Cursor.WriteColumn | parse-boss-json.py:197-199 | writes at the current position with the styling rule, moves one column right and keeps the row |
| RowCursor.Cursor.FinishRow | parse-boss-json.py:200-202 | moves to the next row and back to column 0, writing nothing |
| RowCursor.Cursor.WriteRow | parse-boss-json.py:254-256 | writes the columns left to right in the current row, then finishes the row |
| RowCursor.Cursor.WriteEntries | parse-boss-json.py:263-292 | writes each entry's row in turn; the first failing row stops the writing with its fault |
| RowCursor.WritePage | parse-boss-json.py:254-292 | a page written through one cursor from (0, 0) is exactly the header followed by the collected rows, or the first fault |
| RowCursor.MatchDetailPage | parse-boss-json.py:196-292 | the cursor-written page equals `MatchDetail.MatchDetailRows` laid out from row 0, with the same fault |
| MatchDetail.BossesFought | parse-boss-json.py:269-270 | the number of strictly positive figures: at most 2; 0 exactly when neither is positive; 2 exactly when both are |
| MatchDetail.TotalBossDamage | parse-boss-json.py:269-271 | the sum of `damageTaken` and `damageTakenNextLevel` |
| MatchDetail.AllMatches | parse-boss-json.py:257-260 | every (player, match) pair of the response, each counted once, and nothing else |
| MatchDetail.SortedMatches | parse-boss-json.py:261-262 | a permutation of all pairs in non-increasing order of summed `result.damage`, with ties in iteration order |
| MatchDetail.EffectAmount | parse-boss-json.py:274 | the value under the buff name, or None exactly when no buff has that name |
| MatchDetail.BuffStringRoundTrip | parse-boss-json.py:275-278 | splitting the buff string at commas gives one "name:value" part per buff, and each value parses back to its amount (buff names without commas) |
| Text.DecimalRoundTrip | parse-boss-json.py:277 | `str(v)` of an integer parses back to the integer |
| Text.SplitJoin | parse-boss-json.py:278 | `','.join` of comma-free parts splits back into those parts |
| MatchDetail.GetAttacker | parse-boss-json.py:279-284 | the attacker at the slot when it exists, otherwise None |
| MatchDetail.HeroColumns | parse-boss-json.py:203-212 | eight cells: name, color, power, HP, both penetrations (absent means 0), the patron pet's name (empty for "no pet") and patronage power, the numeric ones in the integer format; name and color are unformatted, and the patron cell is unformatted for a resolved pet and error-styled exactly when `favorPetId` is 0; fails exactly when a hero, color or pet lookup fails, and then with the fault of the first failing lookup in the order hero, color, pet (so a color id of 19 or more gives `UnknownColor`) |
| MatchDetail.PetColumns | parse-boss-json.py:214-223 | a missing pet gives three empty warning-styled cells; otherwise the pet's catalog name (empty for "no pet"), error-styled exactly when the id is 0 and unformatted otherwise, then the unformatted color and the power in the integer format; fails exactly when the pet or color lookup fails, and then with the fault of the first failing lookup in the order pet, color |
| MatchDetail.HeroSlots | parse-boss-json.py:285-290 | a success has 8 cells per slot and hero attackers in every slot from the start slot to 4; an attacker list that ends at the start slot fails with a missing attacker there |
| MatchDetail.HeroSlotsSucceed | parse-boss-json.py:285-290 | the hero blocks are written exactly when every slot holds a hero attacker whose eight cells resolve |
| MatchDetail.HeroSlotsBlock | parse-boss-json.py:285-290 | block i of the written hero cells is `write_hero` of the i-th attacker |
| MatchDetail.HeroSlotsFirstFailure | parse-boss-json.py:285-290 | the first slot that is missing, holds a non-hero, or whose lookups fail decides the fault: missing attacker, unknown hero type, or that lookup's fault |
| MatchDetail.HeaderColumns | parse-boss-json.py:242-253 | the header has 10 + 5 * 8 + 3 = 53 columns, all text and unformatted |
| MatchDetail.MatchInfoColumns | parse-boss-json.py:264-278 | ten cells: the player name (empty and error-styled exactly when unknown, unformatted otherwise), the start time, the replay link, the level and bosses fought (all unformatted), the total and both figures in the integer format, the percent buff in the percent format and the unformatted buff string |
| MatchDetail.NoDamageIffNoBoss | parse-boss-json.py:268-270 | with non-negative boss figures, the total-damage cell is 0 exactly when the bosses-fought cell is 0 |
| MatchDetail.MatchColumnsShape | parse-boss-json.py:263-291 | a successful row has 53 cells and five hero attackers in front; a match without "percentDamageBuff_any" fails |
| MatchDetail.MatchColumnsFaults | parse-boss-json.py:263-291 | a row fails exactly when the player lookup, the percent buff, the hero blocks or the pet block fails, and the first of these to fail gives the fault |
| MatchDetail.HeroBlocksFilled | parse-boss-json.py:285-290 | all five hero blocks are written only when the first five attackers exist and are heroes |
| MatchDetail.MatchColumnsParts | parse-boss-json.py:263-291 | a successful row is the ten match cells, then the forty hero cells, then the pet cells |
| MatchDetail.MatchInfoPrefix | parse-boss-json.py:263-278 | a written row opens with the ten match cells of its player, progress and buffs |
| MatchDetail.MatchPetSuffix | parse-boss-json.py:291 | a written row has 53 cells and closes with the pet block of the sixth attacker |
| MatchDetail.MissingPetWarnings | parse-boss-json.py:214-218 | a match with at most five attackers ends its row with three empty warning-styled cells |
| MatchDetail.MatchRows | parse-boss-json.py:263-292 | rows exist exactly when every sorted pair's row succeeds, one 53-cell row per pair and in order; otherwise the fault of the first failing pair |
| MatchDetail.MatchDetailRows | parse-boss-json.py:254-292 | the header and one 53-column row per (player, match) pair; the page is written exactly when every pair's row succeeds |
| MatchDetail.MatchDetailOrder | parse-boss-json.py:261-292 | row k+1 of the written page is the row of the k-th pair in descending damage order |
| MatchDetail.MatchDetailFault | parse-boss-json.py:261-292 | a failed page carries the fault of the first pair, in descending damage order, whose row fails |
| HeroSummary.Slot | parse-boss-json.py:321-323 | numpy's index rule: valid exactly for -n <= key < n, landing at key or key + n |
| HeroSummary.HitsIffPresent | parse-boss-json.py:320-326 | a hero column gets an entry in a match exactly when some hero attacker lands in it, exactly when its count for that match is positive |
| HeroSummary.CountZeroIffAbsent | parse-boss-json.py:320-323 | a hero's count is 0 exactly when no match has that hero |
| HeroSummary.RecordMatch | parse-boss-json.py:320-326 | records one match's hero attackers into its row: counts, power (the last attacker wins), team damage and presence; fails exactly when a hero key is out of range; other rows unchanged |
| HeroSummary.RecordMatches | parse-boss-json.py:312-327 | after all matches: each match's total, each hero's count over all matches, and every table cell as the column functions give it; fails exactly when some hero key is out of range |
| HeroSummary.FillHeroTable | parse-boss-json.py:299-328 | the whole table: an empty hero catalog is an IndexError (no column 0 to seed); column 0 is present in every match with the match total as team damage, and its power is 100000 unless a hero key lands there; a present hero's team damage is the match total |
| HeroSummary.PowerColumn | parse-boss-json.py:338-339 | the k-th entry is match k's power cell |
| HeroSummary.TeamDamageColumn | parse-boss-json.py:338-340 | the k-th entry is match k's team-damage cell |
| HeroSummary.ArrayColumn | parse-boss-json.py:338 | `arr[:, h]`: the k-th entry is the array's cell (k, h) |
| HeroSummary.SumPositiveLower | parse-boss-json.py:338 | the positive sum is at least `lo` times the positive count when every positive entry is at least `lo` |
| HeroSummary.SumPositiveUpper | parse-boss-json.py:338 | the positive sum is at most `hi` times the positive count when every positive entry is at most `hi` |
| HeroSummary.AveragePositive | parse-boss-json.py:338 | undefined exactly when no entry is strictly positive; otherwise the value times the number of positive entries is their sum, and it is at least 1 |
| HeroSummary.Positives | parse-boss-json.py:338 | the entries `where=col > 0` selects: exactly the strictly positive entries of the column |
| HeroSummary.AverageIsMeanOfPositives | parse-boss-json.py:338 | the average is undefined exactly when nothing is selected, and otherwise is the arithmetic mean of the selected entries |
| HeroSummary.PositivesCountSum | parse-boss-json.py:338 | the selected entries number `CountPositive` and sum to `SumPositive` |
| HeroSummary.AverageWithinBounds | parse-boss-json.py:338 | the mean lies between the smallest and the largest bound of the positive entries |
| HeroSummary.AverageIgnoresNonPositive | parse-boss-json.py:338 | a non-positive entry does not change the mean |
| HeroSummary.AbsentColumnsZero | parse-boss-json.py:307-311 | a hero that is in no match has no positive power or team-damage entry |
| HeroSummary.MakeRow | parse-boss-json.py:338-346 | the row carries the name, the count and both averages; the score exists exactly when both averages do, and it is the positive ratio with score * average power = average team damage |
| HeroSummary.HeroRows | parse-boss-json.py:337-347 | one row per hero 1..n-1, in catalog order, from the filled arrays |
| HeroSummary.HeroTable | parse-boss-json.py:299-347 | the rows as functions of the matches; fails exactly when the catalog is empty or a hero key is out of range |
| HeroSummary.AbsentHeroUnscored | parse-boss-json.py:337-346 | a catalog hero with count 0 has no average power and no score |
| HeroSummary.RankHeroes | parse-boss-json.py:348 | the rows permuted into non-increasing score order, ties in catalog order; fails exactly when some row has no score |
| HeroSummary.HeroRowColumns | parse-boss-json.py:349-351 | five cells, all in the integer format: name, count, average power, average team damage and score, each average or score empty where undefined |
| HeroSummary.HeroHeader | parse-boss-json.py:330-334 | five text header cells, unformatted |
| HeroSummary.HeroSheetRows | parse-boss-json.py:330-351 | the header, then row k+1 holds the k-th ranked hero |
| HeroSummary.HeroSummarySheet | parse-boss-json.py:294-351 | an unbuildable table is an IndexError; otherwise the page fails with `UndefinedAverage` exactly when some hero has no score, and a success is the header and the ranked rows written from row 0 |
| HeroSummary.HeroSummaryWidth | parse-boss-json.py:330-351 | a written page holds five cells for the header and five per catalog hero after the placeholder |
| HeroSummary.Matches | parse-boss-json.py:299-304 | the boss matches in response order (this page does not sort them) |
| HeroSummary.HeroSummaryPage | parse-boss-json.py:294-351 | the array-based page equals the functional `HeroSummarySheet` |
| HeroSummary.AbsentHeroFailsPage | parse-boss-json.py:337-351 | a catalog hero that is in no boss match makes the page end in a fault |
| Convert.SelectResults | parse-boss-json.py:355-360 | with three or four results, the last three entries are taken as (summary, minion matches, boss matches); any other count is an `UnknownResultCount` fault; the model keeps the count in the fault, while the source's message does not include it |
| Convert.Conversion | parse-boss-json.py:353-365 | a bad result count, a summary or boss entry of the wrong shape, or a failing page ends the run with that fault, in page order; when every page succeeds there is a workbook, made of the player summary, the match detail and the hero summary of those entries |
| Convert.Convert | parse-boss-json.py:353-365 | building the pages in the source's order, through the cursor and array procedures, gives exactly `Conversion` |

## Left out

- Spreadsheet library: the workbook, worksheet and format objects. Formats are an abstract enum (none, error, warning, integer, percent). Closing and saving the file are not modelled.
- I/O: argument parsing, opening the files and `json.load`. The model starts from parsed records. A mandatory key missing from a match or an attacker is not modelled; those fields are always present in `Records`.
- Dates: `datetime.utcfromtimestamp(...).isoformat()` and the workbook file name. `startTime` is carried as a `Timestamp` cell value without rendering.
- `int(...)` on JSON strings: progress figures, damage values and attacker keys are taken as already-converted integers.
- The progress path `progress[0].defenders.heroes.<first>.extra` is taken as one record of the two figures.
- Floating point: the averages and the score are exact reals, and the table holds integers where numpy holds floats.
- MatchDetail.BuffStringRoundTrip: buff amounts (`Effect.amount`) are integers; a JSON float buff, which `str(v)` renders as "12.5" and the percent cell holds as a float, is not modelled.
- PlayerSummary.SummaryRow: writes `bossDamage` as the integer the sort key reads; the source writes the raw JSON value, which may be a string, so the model does not capture a text cell there.
- HeroSummary.AveragePositive: returns None where `numpy.mean(..., where=...)` would give NaN. HeroSummary.RankHeroes then ends the page with `UndefinedAverage` rather than modelling how NaN sorts and is written.
- The `print` in `lookup_player`'s except-branch is output only and is dropped.
- `lookup_week` is unused by the program.
- The minion-match entry of the results list is selected but never read.
- Hero and pet catalogs are lists of names, indexed as the source indexes them.
- Row-cursor aliasing: `pos` is a closure list; the model has one `Cursor` object per page.
