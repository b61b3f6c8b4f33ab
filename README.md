# FinancialSpider table pipeline, modelled in Dafny

`FinancialSpider` fetches a company's three financial statements (profit
statement, balance sheet, cash-flow statement) from eniu.com. Each one becomes
a table whose rows are named indicators (`keyName`) and whose columns are
reporting periods. The spider then:

1. cuts each fetched table to its first 25 columns;
2. concatenates the tables row-wise, in URL order, over the union of their columns;
3. deletes every match of the regular expression `<[^>]+>` from every cell, one column at a time, in place;
4. writes the full cleaned table to `FS_<code>_full.csv`;
5. keeps only the rows whose `keyName` is in a fixed allow-list of 21 indicators;
6. drops every row whose `keyName` was already seen, so the first occurrence wins.

When no endpoint produced a table, `run` reports "no data", writes nothing and returns nothing.

The model has six modules:

- `Wrappers` holds `Option` and `Result`.
- `Seqs` holds order-preserving sub-sequences and distinctness.
- `TagStrip` holds the regular-expression rewrite of one cell, as a left-to-right scan with the same leftmost, non-overlapping matches as Python's `re.sub`.
- `Tables` holds tables as values, with truncation, concatenation, cleaning, filtering and deduplication as functions.
- `Frames` holds the `DataFrame` class, whose `CleanCells` method is the in-place loop over columns.
- `Spider` holds the `FinancialSpider` class (`FetchData`, `ProcessData`, `Run`) and the pure `Process` function that specifies them.

The network, HTML and JSON are a parameter, `fetch: string -> Option<Table>`.
It gives, for each URL, the DataFrame that `pd.DataFrame(data_dict)` builds
(spider_eniu.py:42) before `iloc[:, :25]` cuts it, or `None` when any step for
that URL raised. The written CSV file is returned as a value,
`CsvFile(name, table)`.

Three behaviours of the code that the model keeps:

- The one-second delay runs only after a success, because it sits inside the `try`. It does not run after a failed attempt. The delay itself is not modelled.
- In `run`, the lookup of the `keyName` column comes after the file is written. A combined table without that column therefore raises with the file already on disk. `Run` returns `Failed(MissingKeyColumn)` together with the written file.
- `process_data` called with an empty list raises in `pd.concat`. `ProcessData` returns `Err(NoObjectsToConcatenate)`.

## Model

| member | source | states |
|---|---|---|
| `TagStrip.MatchAt` | spider_eniu.py:64 | a match of `<[^>]+>` starts at the head of a string exactly when some prefix is in the pattern's language (`<`, one or more non-`>` characters, `>`); that prefix is unique and is the match |
| `TagStrip.IndexOf` | spider_eniu.py:64 | the position returned holds the searched character and no earlier position does; `None` means the character does not occur |
| `TagStrip.Strip` | spider_eniu.py:64 | the cell rewrite deletes every leftmost, non-overlapping match of `<[^>]+>`, scanning left to right; the result is never longer than the cell |
| `TagStrip.StripSubsequence` | spider_eniu.py:64 | cleaning a cell only deletes characters: the result is an order-preserving sub-sequence of the original |
| `TagStrip.StripMembers` | spider_eniu.py:64 | every character of a cleaned cell occurs in the original cell |
| `TagStrip.StripWithoutOpen` | spider_eniu.py:64 | a cell with no `<` is unchanged |
| `TagStrip.StripPlainPrefix` | spider_eniu.py:64 | text before the first `<` is kept as it is |
| `TagStrip.StripTagPrefix` | spider_eniu.py:64 | a tag at the front is deleted whole and the scan resumes right after it |
| `TagStrip.StripIsTagFree` | spider_eniu.py:64 | after cleaning, no match of the pattern starts at any position |
| `TagStrip.StripTagFree` | spider_eniu.py:64 | a string where no match starts is left unchanged by cleaning |
| `TagStrip.TagFreeHasNoTag` | spider_eniu.py:64 | a string where no match starts has no substring in the pattern's language |
| `TagStrip.StripLeavesNoTag` | spider_eniu.py:62-64 | no substring of a cleaned cell matches `<[^>]+>` |
| `TagStrip.StripIdempotent` | spider_eniu.py:62-64 | cleaning twice is the same as cleaning once |
| `TagStrip.StripSpanExample` | spider_eniu.py:64 | `<span>1,234</span>` cleans to `1,234` |
| `Tables.Truncate` | spider_eniu.py:42 | the result has min(25, n) columns and they are the original's first columns, in order; every row keeps exactly its cells in those columns, with the same values; the row count is unchanged |
| `Tables.TruncateWellFormed` | spider_eniu.py:42 | truncation keeps column names unique and every row complete over the kept columns |
| `Tables.AppendNew` | spider_eniu.py:59 | adding a table's columns to the column union keeps the earlier columns as a prefix, keeps names unique, and yields exactly the union of the two name sets |
| `Tables.UnionColumns` | spider_eniu.py:59 | the concatenation's columns hold no duplicates, include every column of every table, and include nothing else |
| `Tables.AllRows` | spider_eniu.py:59 | the stacked rows number the sum of the tables' row counts |
| `Tables.Concat` | spider_eniu.py:59 | the concatenation's columns are the union columns, it has one row per input row (the sum of the row counts), and every row has a cell for exactly those columns |
| `Tables.AllRowsAt` | spider_eniu.py:59 | row i of table k sits at position (rows of tables before k) + i of the stacked rows |
| `Tables.Pad` | spider_eniu.py:59 | a stacked row gets a cell for exactly the union columns; its own cells keep their values and the cells of columns it lacked hold the missing-value text `"nan"` |
| `Tables.ConcatRowsInOrder` | spider_eniu.py:84 | the concatenated table keeps the rows in list order: row i of table k is at offset (rows before table k) + i, padded to the union columns with the missing-value text |
| `Tables.PadFull` | spider_eniu.py:59 | a row that already has exactly the union columns is not changed by padding |
| `Tables.AppendNewKnown` | spider_eniu.py:59 | columns already in the union add nothing to it |
| `Tables.AppendNewFresh` | spider_eniu.py:59 | new, distinct columns are appended in their own order |
| `Tables.AppendNewOrder` | spider_eniu.py:59 | the columns appended to the union keep the order they have in the table that brings them |
| `Tables.UnionMixedExample` | spider_eniu.py:59 | tables with columns `keyName, 2024` and `keyName, 2023, 2024, 2022` concatenate over `keyName, 2024, 2023, 2022` |
| `Tables.UnionSameColumns` | spider_eniu.py:59 | tables sharing one column list concatenate over that list |
| `Tables.ConcatSameColumns` | spider_eniu.py:59 | well-formed tables with the same columns concatenate to the plain row-wise append of their rows |
| `Tables.AllRowsMember` | spider_eniu.py:59 | every row of the concatenation comes from one of the input tables |
| `Tables.CleanRow` | spider_eniu.py:64 | cleaning a row rewrites every cell and keeps the row's set of cells; no cell gets longer |
| `Tables.CleanTable` | spider_eniu.py:62-64 | cleaning a table keeps its columns, its number of rows and each row's set of cells, rewriting the cells only |
| `Tables.CleanTableSpec` | spider_eniu.py:62-64 | each cleaned cell is a sub-sequence of the old one with no substring matching `<[^>]+>` (the shape of the table is stated by `Tables.CleanTable`) |
| `Tables.CleanTableWellFormed` | spider_eniu.py:62-64 | cleaning keeps every row complete over the columns |
| `Tables.CleanRowIdempotent` | spider_eniu.py:62-64 | cleaning a cleaned row changes nothing |
| `Tables.CleanTableIdempotent` | spider_eniu.py:87-89 | cleaning a cleaned table changes nothing |
| `Tables.Filter` | spider_eniu.py:67 | a row is in the filtered rows if and only if it is in the input and its `keyName` is in the allow-list; the result is no longer than the input |
| `Tables.FilterMultiset` | spider_eniu.py:67 | every row whose `keyName` is allow-listed is kept as many times as it occurs in the input, and every other row not at all |
| `Tables.FilterSubsequence` | spider_eniu.py:97 | filtering keeps the relative order of the rows it keeps |
| `Tables.FilterKeySet` | spider_eniu.py:67 | the indicators left after filtering are exactly the input's indicators that are in the allow-list |
| `Tables.KeyOf` | spider_eniu.py:67 | the indicator of a row is its `keyName` cell, or the missing-value text `"nan"` for a row without one (the definition; `Spider.KeyOfCombined` states it for the combined table) |
| `Tables.FirstIndex` | spider_eniu.py:70 | the returned position holds the given indicator and no earlier row does |
| `Tables.KeySetCons` | spider_eniu.py:70 | the indicators of a row sequence are its first row's indicator plus those of the rest |
| `Tables.DedupFrom` | spider_eniu.py:70 | the kept rows come from the input, none has an indicator already seen, no two share an indicator, and every unseen indicator of the input is kept |
| `Tables.Dedup` | spider_eniu.py:100 | after deduplication no two rows share a `keyName`, every row comes from the input, and every indicator of the input is still present |
| `Tables.DedupFromFirst` | spider_eniu.py:70 | each row kept while scanning is the earliest row of the input with its indicator |
| `Tables.DedupKeepsFirst` | spider_eniu.py:70 | each surviving row is the earliest input row with that `keyName` |
| `Tables.DedupFromSubsequence` | spider_eniu.py:70 | the scan keeps rows in their input order |
| `Tables.DedupSubsequence` | spider_eniu.py:70 | deduplication preserves the relative order of the surviving rows |
| `Tables.DedupFromOrder` | spider_eniu.py:70 | the rows kept while scanning stand in the order of their indicators' first occurrences in the input |
| `Tables.DedupOrder` | spider_eniu.py:100 | the surviving rows stand in the order of their indicators' first positions in the input |
| `Tables.FilterFirst` | spider_eniu.py:67-70 | for an allow-listed indicator, its first row after filtering is its first row before filtering |
| `Tables.FilterFirstIndexOrder` | spider_eniu.py:67-70 | for two allow-listed indicators, the first occurrence of one comes before the other's after filtering if and only if it does before filtering |
| `Frames.CleanOn` | spider_eniu.py:62-64 | partial cleaning over a set of columns keeps the row's set of cells |
| `Frames.CleanColumn` | spider_eniu.py:64 | rewriting one column keeps the number of rows |
| `Frames.CleanOnStep` | spider_eniu.py:62-64 | rewriting one more column in place extends the set of cleaned columns by that column |
| `Frames.CleanOnAll` | spider_eniu.py:62-64 | once every cell's column has been rewritten, the row is fully cleaned |
| `Frames.DataFrame.constructor` | spider_eniu.py:59 | the frame holds the given well-formed table |
| `Frames.DataFrame.CleanCells` | spider_eniu.py:62-64 | the in-place loop over the columns leaves the frame equal to the cleaned old table, and still well-formed |
| `Spider.Fetched` | spider_eniu.py:27-54 | the collected tables number at most the URLs, and each has at most 25 columns |
| `Spider.FetchedSnoc` | spider_eniu.py:31-52 | one more URL appends its truncated table when it succeeded and nothing when it raised |
| `Spider.FetchedEmpty` | spider_eniu.py:79-81 | the list of tables is empty exactly when every endpoint failed |
| `Spider.FetchedAllSucceed` | spider_eniu.py:31-45 | when every endpoint succeeds, table i is endpoint i's table cut to 25 columns |
| `Spider.KeepIndicatorsDistinct` | spider_eniu.py:18-25 | the allow-list holds 21 indicator names, no name twice |
| `Spider.EndpointUrls` | spider_eniu.py:10-14 | there are three endpoint URLs, all different, all on `https://eniu.com/table/` |
| `Spider.FullOutputFilename` | spider_eniu.py:92 | the file name is `FS_`, then exactly the stock code, then `_full.csv`, so the stock code can be read back from it |
| `Spider.Combined` | spider_eniu.py:59-64 | the full table has the union columns, the sum of the row counts, complete rows, and no cell with a substring matching `<[^>]+>` |
| `Spider.KeyOfCombined` | spider_eniu.py:67 | when the combined table has a `keyName` column, every row has a `keyName` cell and its indicator is that cell, as `combined_df['keyName']` reads it |
| `Spider.Process` | spider_eniu.py:56-72 | on success the filtered table has the union columns and complete rows, no two rows share a `keyName`, and every row's `keyName` is in the allow-list |
| `Spider.OnlyFirstEndpoint` | spider_eniu.py:27-64 | if only the first endpoint answers, the tables are that one table cut to 25 columns; the full table has exactly its number of rows and, for a well-formed table, is exactly that truncated table cleaned |
| `Spider.ProcessFails` | spider_eniu.py:59-67 | processing raises exactly when there are no tables or no table has a `keyName` column, and the concatenation error exactly when the list is empty |
| `Spider.ProcessResult` | spider_eniu.py:56-72 | when processing succeeds, the filtered table has the combined table's columns and keeps complete rows; it has one row per allow-listed indicator occurring in the cleaned combined table and nothing else; each row is the earliest one with its indicator; the rows stand in the order of their indicators' first positions in the combined table |
| `Spider.DuplicateRevenueExample` | spider_eniu.py:67-70 | two `营业收入` rows with `2023` = `100` give a full table of 2 rows and a filtered table of exactly that one row |
| `Spider.RevenueCombined` | spider_eniu.py:59-64 | concatenating and cleaning the two-row example table leaves it unchanged |
| `Spider.RevenueConcat` | spider_eniu.py:59 | concatenating the single two-row example table gives the table itself |
| `Spider.RevenueFilter` | spider_eniu.py:67 | both `营业收入` rows pass the allow-list |
| `Spider.RevenueDedup` | spider_eniu.py:70 | two identical rows deduplicate to one |
| `Spider.CleanRowNoOpen` | spider_eniu.py:64 | the example row has no markup, so cleaning leaves it unchanged |
| `Spider.CombineAndClean` | spider_eniu.py:84-89 | a fresh frame holding the concatenation of the tables with every cell cleaned |
| `Spider.FinancialSpider.constructor` | spider_eniu.py:8-25 | the spider holds its stock code, the three endpoint URLs built from it and the 21-indicator allow-list |
| `Spider.FinancialSpider.FetchData` | spider_eniu.py:27-54 | the loop over the URLs returns the successful endpoints' tables, each cut to 25 columns, in URL order |
| `Spider.FinancialSpider.ProcessData` | spider_eniu.py:56-72 | the method returns what `Process` specifies: the errors of the empty list and of the missing `keyName` column, or the filtered, deduplicated table |
| `Spider.FinancialSpider.Run` | spider_eniu.py:74-109 | the run reports no data and writes no file exactly when every endpoint failed; otherwise it writes `FS_<code>_full.csv` with the cleaned combined table and then ends as `Process` says, with `(filtered, combined)` or the error |

## Left out

- HTTP requests, the `user-agent` header, `raise_for_status`, BeautifulSoup's `soup.body.p.text` and `json.loads` (spider_eniu.py:33-39) are network I/O and foreign library calls. They stand behind the `fetch` parameter. `fetch` is a function, so each URL is assumed to answer once, as the loop visits it.
- The printing of the caught exception (spider_eniu.py:51) and every other `print` are output only.
- `time.sleep(1)` (spider_eniu.py:48) is throttling only. In the code it runs only after a success.
- CSV serialisation and UTF-8 encoding by `to_csv` (spider_eniu.py:92-94) are not modelled. The model records the file's name and the table it receives.
- pandas coercion: cells are text from the start. Converting numbers to text with `astype(str)` is not modelled. The NaN that fills a column missing from one table is modelled directly as its text, `"nan"`.
- pandas index handling (`ignore_index`) is not modelled. Rows are positions in a sequence.
- Tables.UnionColumns: its own contract states uniqueness and the exact set of columns, not their order. The order is stated by `Tables.AppendNew` (earlier columns stay a prefix) and `Tables.AppendNewOrder` (the appended columns are a sub-sequence of the new table's columns). With uniqueness and the set of names, these fix the order of first appearance that `pd.concat` uses with its default `sort=False`, for tables whose own columns are distinct. `Tables.UnionMixedExample` shows a case where some columns are shared. A sorted column union is not modelled.
- `main` (spider_eniu.py:111-118) is left out. It is a hardcoded driver, and it unpacks `run()`'s result even when `run` returns `None`.
