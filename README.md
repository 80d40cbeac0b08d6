# financial-portfolio-builder: a verified model of the quote backend

This project models the logic behind the portfolio builder's quotes endpoint, in Dafny.

- **Request.** A request names comma-separated tickers, two RFC 3339 instants and optionally a comma-separated list of columns.
- **Tickers and key.** The service parses the tickers and works out a cache key and a column filter. A table cached under that key is returned as it is.
- **Fetching and tables.** On a miss it asks the quote provider for every ticker, one after the other. Each ticker's quotes become a column table (`df_from_quotes`).
- **Combining.** The tables are combined: every column is renamed `"<ticker> <column>"`, and the later tables are full-outer-joined onto the first on the date columns (`combine_dfs`). The result is stored under the key.
- **Business days.** The backend also lists the Monday-to-Friday days of a range as millisecond stamps (`generate_business_days`).
- **Missing values.** It computes the NaN mask of a column and the fraction of true entries in a boolean column.
- **Frontend colours.** The frontend writes chart colours as `rgb(r, g, b)` and derives their half-transparent `rgba` form.

Modules, following the program's structure:

- `Wrappers`: `Option` and `Result`, plus `Outcome`, where `Panicked` stands for a Rust panic (`unwrap`/`expect`).
- `Time`: `OffsetDateTime` as whole seconds since the epoch, a nanosecond and a UTC offset. It holds the weekday by epoch arithmetic (1970-01-01 was a Thursday) and the millisecond stamp.
- `BusinessDays`: `generate_business_days`. The loop is a method proved against the function `Emitted`.
- `Text`: Rust's `split(',')` and `trim()`.
- `DataFrame`: the slice of polars the backend uses.
  - A column view (`Table`) and a row view (`Frame`, whose rows map names to nullable cells).
  - `DataFrame::new` and its duplicate-name and shape errors.
  - Prices are opaque `f64` bit patterns.
- `QuoteTable`: `df_from_quotes`. The column-pushing loop is a method proved against `FromQuotes`.
- `Combining`: `combine_dfs` and polars' full join. The rename loop and the join loop are methods proved against `Renamed`, `JoinFrom` and `Combine`.
- `QuoteHistory`: `get_quotes_history`.
  - The provider is a class whose answers are a function of the request and which logs every request.
  - The two loops are methods proved against `FetchAll`, `Attempted` and `Tables`.
- `Fetching`: `get_dataframe_service`.
  - The cache is a class holding a map, with `Get` and `Insert`.
  - The method is proved against the functions `Service`, `EntriesAfter` and `Requests`.
- `Calculations`: `check_missing_values` and `missing_percentage`.
- `Colors`: `randomRGBColor` (its three random draws passed in) and `backgroundRGBColor`, using JavaScript's first-occurrence `replace` semantics.

## Model

| member | source | states |
|---|---|---|
| Time.EpochIsThursday | backend/src/utils.rs:24 | the epoch, read in UTC, is a Thursday |
| Time.WeekdayNext | backend/src/utils.rs:24-29 | one day later is the next weekday, whatever the offset |
| Time.UnixMillisAddDays | backend/src/utils.rs:26-29 | the millisecond stamp grows by 86 400 000 per day |
| Time.UnixMillisMonotone | backend/src/utils.rs:23-26 | the millisecond stamp respects the instant order |
| BusinessDays.Emitted | backend/src/utils.rs:21-30 | the stamps of the walk from `cur` one day at a time while not after `end`, keeping the Monday-to-Friday days; what it holds is stated by `EmittedMembers`, `EmittedInRange`, `EmittedIncreasing` and `EmittedCount` |
| BusinessDays.BusinessDaysBetween | backend/src/utils.rs:21-30 | the while loop emits exactly `Emitted(start, end)` |
| BusinessDays.GenerateBusinessDays | backend/src/utils.rs:14-32 | panics exactly when a date fails to parse; otherwise the series is named "Business days" and holds the loop's stamps |
| BusinessDays.EmptyWhenStartAfterEnd | backend/src/utils.rs:23 | start after end emits nothing |
| BusinessDays.EmittedMembers | backend/src/utils.rs:23-29 | a value is emitted iff it is the stamp of a Monday-to-Friday day `start + k days` not after `end`: nothing else is emitted and no business day is skipped |
| BusinessDays.EmittedInRange | backend/src/utils.rs:23-29 | every stamp lies between those of start and end, a whole number of days after start |
| BusinessDays.EmittedIncreasing | backend/src/utils.rs:23-29 | the stamps strictly increase by whole days |
| BusinessDays.EmittedCount | backend/src/utils.rs:23-29 | a walk of `n` days emits one value per business day among them |
| BusinessDays.CountByWeekday | backend/src/utils.rs:24-25 | the number of business days among `n` consecutive days depends only on the weekday of the first |
| BusinessDays.SevenDaysFiveBusiness | backend/src/utils.rs:24-25 | any seven consecutive days hold exactly five business days |
| BusinessDays.FiveOfEverySeven | backend/src/utils.rs:23-30 | a range of one week emits five values |
| BusinessDays.EmittedSplit | backend/src/utils.rs:23-30 | the walk over a range is the walk over its first `n` days followed by the walk over the rest |
| BusinessDays.FullWeeks | backend/src/utils.rs:23-30 | a range of `w` whole weeks emits `5 * w` values |
| BusinessDays.WeekAddsFive | backend/src/utils.rs:23-30 | the first seven days of a walk that reaches past them add exactly five values |
| Text.TrimStartSuffix | backend/src/services/fetching.rs:16 | `trim_start` keeps a suffix, drops only whitespace, and what it keeps does not start with whitespace |
| Text.TrimEndPrefix | backend/src/services/fetching.rs:16 | `trim_end` keeps a prefix, drops only whitespace, and what it keeps does not end with whitespace |
| Text.TrimProperties | backend/src/services/fetching.rs:16-17 | `trim` adds no character and leaves no whitespace at either end; it leaves nothing iff the input is all whitespace |
| Text.TrimNoop | backend/src/services/fetching.rs:16 | a string without whitespace at its ends is its own trim |
| Text.TrimLeadingSpace | backend/src/services/fetching.rs:32 | a leading space does not change the trim |
| Text.SplitPieces | backend/src/services/fetching.rs:15 | no piece of a split holds the separator |
| Text.JoinSplit | backend/src/services/fetching.rs:15 | joining the pieces with the separator gives the input back |
| Text.SplitJoin | backend/src/services/fetching.rs:15 | separator-free pieces come back from splitting their join |
| Text.SplitNoSep | backend/src/services/fetching.rs:15 | text without the separator is one piece |
| Text.SplitConcat | backend/src/services/fetching.rs:15 | a separator cuts the split into the splits of both sides |
| DataFrame.ToFrame | backend/src/utils.rs:83-89 | the row view has the table's names and one row per table row, and is well formed when the names are distinct |
| DataFrame.ToFrameCells | backend/src/utils.rs:83-89 | row `i` of the row view holds, under each column's name, that column's `i`-th value |
| QuoteTable.ParseColumn | backend/src/utils.rs:102-157 | a name is recognised iff it is one of the seven column names, and then gives the kind of that name |
| QuoteTable.FromQuotes | backend/src/utils.rs:95-177 | without a filter the seven default columns, with one the recognised names through `DataFrame::new`; its shape is stated by `DefaultColumns`, `FilteredColumns` and `CellsFromQuotes` |
| QuoteTable.ColumnValues | backend/src/utils.rs:112-153 | one cell per quote, in quote order, each that quote's field |
| QuoteTable.Build | backend/src/utils.rs:100-158 | one column per kind, in kind order |
| QuoteTable.DfFromQuotes | backend/src/utils.rs:95-177 | the builder loop returns exactly `FromQuotes(quotes, columns)` |
| QuoteTable.RecognisedNames | backend/src/utils.rs:101-157 | the columns built for a filter are named by its known names, in request order |
| QuoteTable.BuildDistinct | backend/src/utils.rs:159 | built names are distinct iff the kinds are |
| QuoteTable.BuildRectangular | backend/src/utils.rs:100-158 | every built column has one entry per quote |
| QuoteTable.DefaultColumns | backend/src/utils.rs:162-176 | without a filter the table has exactly date, open, high, low, close, volume, adjclose, in that order, each one entry per quote |
| QuoteTable.FilteredColumns | backend/src/utils.rs:99-159 | with a filter the result succeeds iff no known name repeats, and then holds the known names in request order; the only error is a duplicate name |
| QuoteTable.NoKnownColumns | backend/src/utils.rs:154-159 | an empty or all-unknown filter gives a table without columns, not an error |
| QuoteTable.CellsFromQuotes | backend/src/utils.rs:104-176 | row `i` of every column is quote `i`'s field for that name; the date is the raw timestamp read as milliseconds |
| QuoteTable.NamesHaveNoSpace | backend/src/utils.rs:99-176 | a built table's names are distinct and hold no space |
| Combining.Renamed | backend/src/utils.rs:67-74 | column `j` is renamed `"<ticker> <name>"` with its values unchanged |
| Combining.RenameColumns | backend/src/utils.rs:68-72 | the rename loop over one table gives `Renamed(df, ticker)` |
| Combining.RenameAll | backend/src/utils.rs:65-74 | the zip loop renames each table with its ticker, as far as both lists go |
| Combining.CombineDfs | backend/src/utils.rs:57-93 | the two loops return exactly `Combine(dataframes, tickers)` |
| Combining.PrefixInjective | backend/src/utils.rs:71 | a space-free column name can be read back off its prefixed name |
| Combining.RenamedShape | backend/src/utils.rs:71 | renaming keeps the shape and keeps the names distinct |
| Combining.MatchesOf | backend/src/utils.rs:83-89 | the join partners of a row are right rows with the same non-null key, and there are none iff no right row matches; `MatchesOfComplete`, `MatchesOfSingle` and `MatchesOfConcat` state that every matching right row is one, in right order |
| Combining.MatchesOfComplete | backend/src/utils.rs:83-89 | every right row that matches a left row is among its partners |
| Combining.MatchesOfSingle | backend/src/utils.rs:83-89 | a single right row is a partner iff it matches |
| Combining.MatchesOfConcat | backend/src/utils.rs:83-89 | the partners among two runs of right rows are those of the first run followed by those of the second, so partners keep right order |
| Combining.UnmatchedMembers | backend/src/utils.rs:83-89 | a right row is kept unmatched iff no left row matches it |
| Combining.FullJoin | backend/src/utils.rs:83-89 | polars' full join on the two keys: missing keys and clashing names fail; otherwise left columns then right columns, left rows with their partners, then unmatched right rows; stated by `FullJoinOk`, `JoinRows`, `JoinRowCount` and `JoinWellFormed` |
| Combining.JoinRowCount | backend/src/utils.rs:83-89 | with unique right dates a join step has at least as many rows as either side and at most their sum |
| Combining.JoinRows | backend/src/utils.rs:83-89 | with unique right dates: left columns then right columns; each left row with its partner or nulls, in order; then every right row no left row matches, padded with nulls |
| Combining.JoinWellFormed | backend/src/utils.rs:83-89 | a join of well-formed frames is well formed, every row holding exactly the joined columns |
| Combining.FullJoinOk | backend/src/utils.rs:83-89 | a join succeeds iff both keys exist and no name clashes |
| Combining.CombineNoData | backend/src/utils.rs:61-63 | no tables gives `NoData` |
| Combining.Combine | backend/src/utils.rs:57-93 | no tables is `NoData`; otherwise the renamed tables folded by full joins on the date columns onto the first; stated by `CombineDfs`, `CombineColumns`, `CombineRowCount` and `CombineSucceeds` |
| Combining.CombineSingle | backend/src/utils.rs:77-81 | one table gives that table renamed, nothing joined |
| Combining.JoinFromNames | backend/src/utils.rs:81-90 | a successful fold has the accumulated columns followed by those of the remaining tables |
| Combining.JoinFromWellFormed | backend/src/utils.rs:81-90 | a successful fold of well-formed frames is well formed |
| Combining.JoinFromRowCount | backend/src/utils.rs:81-90 | with unique dates in the joined tables, a successful fold has at least the rows of the accumulated frame and of each joined table, and at most all of them together |
| Combining.CombineRowCount | backend/src/utils.rs:57-93 | with unique dates in the later tables, a combined table has at least as many rows as any renamed table and at most all of their rows together |
| Combining.CombineColumns | backend/src/utils.rs:65-92 | a combined table is well formed, its columns are the renamed tables' columns table after table, and each starts with `"<ticker> "` for some ticker |
| Combining.RenamedHasDate | backend/src/utils.rs:71-86 | a renamed table has `"<ticker> date"` iff the table has `date` |
| Combining.CombineNeedsAnchorDate | backend/src/utils.rs:77-89 | with two or more tables and no `date` in the first, combining fails on the missing anchor key |
| Combining.JoinFromOk | backend/src/utils.rs:81-90 | a fold whose every step is ready does not fail |
| Combining.CombineSucceeds | backend/src/utils.rs:65-92 | with distinct tickers and a date in every table, combining succeeds |
| QuoteHistory.YahooConnector.GetQuoteHistory | backend/src/utils.rs:44 | one request returns the provider's answer and is appended to the log |
| QuoteHistory.FetchResponses | backend/src/utils.rs:42-46 | the request loop returns `FetchAll` and logs exactly the tickers attempted |
| QuoteHistory.BuildTables | backend/src/utils.rs:48-52 | the table loop returns `Tables(responses, df_from_quotes)` |
| QuoteHistory.GetQuotesHistory | backend/src/utils.rs:34-55 | both loops return `QuotesHistory` and log the attempted tickers |
| QuoteHistory.FetchAllOk | backend/src/utils.rs:42-46 | fetching succeeds iff every request does, and response `j` answers ticker `j` |
| QuoteHistory.FetchAllFirstError | backend/src/utils.rs:43-44 | a failed fetch reports the first failing ticker's error; the provider is asked exactly up to that ticker |
| QuoteHistory.AttemptedAll | backend/src/utils.rs:43-46 | a successful fetch requests every ticker once, in order |
| QuoteHistory.TablesOk | backend/src/utils.rs:48-52 | successful tables are one per response, each built from that response's quotes |
| QuoteHistory.QuotesHistoryOk | backend/src/utils.rs:34-55 | a successful history holds one table per ticker, built from that ticker's quotes |
| QuoteHistory.NoTickers | backend/src/utils.rs:42-54 | without tickers nothing is requested and the list is empty |
| Fetching.ParseListEntries | backend/src/services/fetching.rs:13-18 | every parsed entry is non-empty, comma-free and without whitespace at its ends |
| Fetching.ParseListConcat | backend/src/services/fetching.rs:13-18 | parsing keeps order: the entries before a comma, then those after it |
| Fetching.ParseListSingle | backend/src/services/fetching.rs:13-18 | comma-free text is one trimmed entry, or none when blank |
| Fetching.ParseListJoin | backend/src/services/fetching.rs:13-18 | a parsed list, joined with commas, parses back to itself |
| Fetching.ParseList | backend/src/services/fetching.rs:13-18 | split on commas, trim each piece, drop the empty ones; stated by `ParseListEntries`, `ParseListConcat`, `ParseListSingle` and `ParseListJoin` |
| Fetching.SpaceAfterComma | backend/src/services/fetching.rs:30-34 | a space after a comma does not change the parsed list |
| Fetching.KeyAndFilter | backend/src/services/fetching.rs:27-41 | the key is the tickers, the two instants and the column text unless absent or empty; the filter is the parsed column list in the same case; stated by `EmptyColumnsAsNone`, `KeyDeterminesFilter` and `TickerListInKey` |
| Fetching.EmptyColumnsAsNone | backend/src/services/fetching.rs:27-40 | `Some("")` and no columns give the same key and no filter |
| Fetching.ColumnSpacingSplitsKeys | backend/src/services/fetching.rs:29-38 | `"a,b"` and `"a, b"` give different keys but the same filter |
| Fetching.KeyDeterminesFilter | backend/src/services/fetching.rs:27-41 | equal keys mean equal filters |
| Fetching.TickerListInKey | backend/src/services/fetching.rs:28-36 | the key holds the parsed tickers in order, so different or reordered ticker lists give different keys |
| Fetching.DfCache.constructor | backend/src/cache.rs:15-18 | an empty cache with a five-minute lifetime and capacity ten |
| Fetching.DfCache.Get | backend/src/services/fetching.rs:44 | the lookup gives the entry under the key, if any, and changes nothing |
| Fetching.DfCache.Insert | backend/src/services/fetching.rs:55 | the entry under the key becomes the table; other entries stay |
| Fetching.HistoryRenamable | backend/src/services/fetching.rs:51-53 | every fetched table can be renamed and combined |
| Fetching.ComputeDataframe | backend/src/services/fetching.rs:48-53 | a miss returns `Compute` and asks the provider for exactly the attempted tickers, none when connecting fails |
| Fetching.GetDataframeService | backend/src/services/fetching.rs:12-58 | the service returns `Service`, leaves the cache as `EntriesAfter` and the request log extended by `Requests` |
| Fetching.Service | backend/src/services/fetching.rs:12-58 | a panic on an unparsable date, the cached table on a hit, the computed answer on a miss; stated by `PanicsOnBadDate`, `HitServesCache`, `MissComputes` and `RepeatIsCached` |
| Fetching.PanicsOnBadDate | backend/src/services/fetching.rs:21-24 | the call panics iff a date does not parse, and then the cache is unchanged |
| Fetching.HitServesCache | backend/src/services/fetching.rs:44-46 | a hit returns the cached table and leaves the cache unchanged |
| Fetching.HitRequestsNothing | backend/src/services/fetching.rs:44-48 | a hit makes no provider request |
| Fetching.MissComputes | backend/src/services/fetching.rs:51-57 | a miss returns the computed answer, and a success is stored under the key |
| Fetching.RepeatIsCached | backend/src/services/fetching.rs:44-57 | after a success, the same request is served from the cache with the same table |
| Fetching.FailureNotCached | backend/src/services/fetching.rs:48-55 | a failed call leaves the cache unchanged |
| Fetching.TickerSpellingShared | backend/src/services/fetching.rs:13-28 | requests whose tickers parse alike share a key |
| Fetching.NoTickersNoData | backend/src/services/fetching.rs:51-53 | a miss without tickers requests nothing and fails with `NoData` |
| Fetching.ComputedColumns | backend/src/services/fetching.rs:51-53 | a computed table is well formed and every column starts with one of the request's tickers |
| Calculations.AnyNaNExists | backend/src/calculations.rs:15 | `any(is_nan)` holds iff some cell is NaN |
| Calculations.NaNMaskAt | backend/src/calculations.rs:16 | the mask has one entry per cell, true exactly at the NaN cells |
| Calculations.CheckMissingValues | backend/src/calculations.rs:14-19 | none iff no cell is NaN; otherwise the mask with `m[i] = isNaN(c[i])` |
| Calculations.CountTrueBounds | backend/src/calculations.rs:22-28 | the true count is at most the length, equals it iff all entries are true, and is 0 iff none is |
| Calculations.MissingPercentage | backend/src/calculations.rs:21-36 | a fraction in [0, 1]; 0 for an empty column; otherwise times the length it is the true count |
| Calculations.CountMask | backend/src/calculations.rs:16-28 | the mask's true count is the number of NaN cells |
| Calculations.MaskPercentage | backend/src/calculations.rs:14-36 | the mask of a column with a NaN has one entry per cell, its true count is the NaN count, and its fraction is positive |
| Calculations.SomeTruePositive | backend/src/calculations.rs:34 | one true entry makes the fraction positive |
| Calculations.PercentageExtremes | backend/src/calculations.rs:21-36 | on a non-empty column the fraction is 1 iff all entries are true and 0 iff none is |
| Colors.IndexOfFirst | src/lib/utils.ts:16 | the search finds the first occurrence, or nothing iff there is none |
| Colors.ReplaceFirst | src/lib/utils.ts:16 | JavaScript's string `replace`: only the first occurrence is replaced; stated by `ReplaceFirstSpec` and `ReplaceFirstLength` |
| Colors.ReplaceFirstSpec | src/lib/utils.ts:16 | without an occurrence nothing changes; otherwise only the first occurrence is replaced and later ones are kept |
| Colors.ReplaceFirstLength | src/lib/utils.ts:16 | a replacement changes the length by the difference of the two texts |
| Colors.DecValue | src/lib/utils.ts:12 | a number is written in decimal digits that read back as the number |
| Colors.RandomRGBColor | src/lib/utils.ts:8-13 | the colour is `rgb(r, g, b)` with each component in 0..255 |
| Colors.BackgroundRGBColor | src/lib/utils.ts:15-17 | the first "rgb" becomes "rgba", then the first ")" becomes ", 0.5)"; stated by `BackgroundOfRgb`, `BackgroundUnchanged` and `BackgroundLength` |
| Colors.BackgroundOfRgb | src/lib/utils.ts:12-16 | `rgb(r, g, b)` becomes `rgba(r, g, b, 0.5)` |
| Colors.BackgroundUnchanged | src/lib/utils.ts:16 | a colour with neither "rgb" nor ")" is returned unchanged |
| Colors.BackgroundLength | src/lib/utils.ts:16 | with both "rgb" and ")" present the result is six characters longer |

## Left out

- Network I/O. The provider is a function from ticker and range to an answer. Creating the connector (`YahooConnector::new`) is an optional error passed in. `async`/`await` is sequential here.
- RFC 3339 parsing (section 5.6 of RFC 3339) is a parser function passed in. The `Display` of `OffsetDateTime` is not modelled.
- The cache key is a record of its parts, not the `format!` string. Two different parts are taken to give different strings.
- moka's time-to-live, eviction and approximate capacity are not modelled. The two limits appear only as constants of the cache. Entries never expire and are never evicted.
- Concurrent requests sharing the cache are not modelled.
- The unused quote cache in backend/src/cache.rs is not modelled.
- Combining.FullJoin: polars does not promise a row order for a full join. The model fixes it: left rows with their partners, then the unmatched right rows. After the first join, how right-only rows with a null anchor date match later tables is stated only through this fixed semantics.
- Combining.FullJoin: a right column whose name clashes with a left one (a ticker repeated in the request) gives a duplicate-name error. polars would add a `_right` suffix.
- Combining.Combine: it requires a ticker whenever there is a table, and tables that `df_from_quotes` could have built (`Renamable`). With tables but no tickers, the source panics indexing the empty renamed list. Renaming is modelled column by column at its position.
- polars' columns are typed. Here a cell is a tagged value, and `Series` dtype casts are not modelled.
- QuoteTable.CellOf: the date column keeps the raw timestamp as a millisecond datetime, as the cast at backend/src/utils.rs:107-108 does. The conversion is not modelled.
- The `time` crate's range limits and `Duration` overflow are not modelled. `current + Duration::days(1)` is unbounded.
- Calculations.MissingPercentage: it takes a boolean column with nulls. A cast of other dtypes to `u32` is not modelled, and neither is the `u32` sum's overflow.
- Calculations: `normalize_column_by_first` is left out, because the model does not compute with floating point. The `f64` ratio is a real number.
- Colors.RandomRGBColor: `Math.random()` is replaced by three draws passed in.
- `cn` (tailwind/clsx) and `formatDateForApi` (`toISOString`) are not modelled.
- The `QuoteQuery` of shared/src/models.rs:6-9 declares only `start` and `end`. backend/src/services/fetching.rs reads `tickers` and `columns` too. The model's request has all four fields, as fetching.rs uses them.
- Not modelled: backend/src/services/finances.rs, backend/src/services/stats.rs, the HTTP routes and the frontend pages.
