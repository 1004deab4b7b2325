# Reporting scripts over FIX logs and baby-name pages, modelled in Dafny

This project models the core of a small set of Python reporting scripts.

**FIX logs** (`python_fix_logs/`):

- `FixLogMixin.get_filenames` picks the `FIX.4.2-CME-*.log` files out of a
  directory listing.
- `OrderStatusAnalyzer` (question 1) counts Execution Reports (`35=8`) by the
  last OrdStatus field (`39=`) of each message, for the statuses it is
  constructed with.
- `ExecutionReportAnalyzer` (question 2) collects, for each order id (`11=`)
  of the messages carrying `55=ES`, the cumulative quantities (`14=`). It then
  keeps each order's maximum and returns the pairs sorted by order id.

A message first passes a window test: `35=8` must occur in
`message[34:min(68, len(message) - 1)]`. It is then split on SOH (`\x01`).

**Baby names** (`python_baby_names/`):

- `BabyNamesMixin` selects the `baby<year>.html` files and checks that each
  year is four digits. It checks each page's title year and the column order
  of its ranking table, and builds the report path.
- `Script` (question 2) builds two tables, male and female. Each has a row per
  year holding the rank of each report name, or `N/A`. The tables come either
  from scraping the pages (the scraped records are then stored) or from the
  records stored by an earlier run. Finally the tables are placed one under the
  other on a spreadsheet.

## Layout

| file | contents |
|---|---|
| `wrappers.dfy` | `Option`, `Result`, `Outcome` (an exception or nothing) |
| `pystr.dfy` | Python string semantics the scripts rely on: slices with negative and clamped bounds, `in`, `re.split` on one character, `str.replace`, `isdigit`, `lower`, `strip`, `int()`, string `<` |
| `seqs.dfy` | filtering, "last assignment wins" dictionaries, sums |
| `fix_common.dfy` | FIX settings, the window test, field split, backward prefix scan |
| `fix_mixins.dfy` | `FixLogMixin` |
| `fix_question1.dfy` | `OrdStatus`, `OrderStatusAnalyzer` (a class updating `report`) |
| `fix_question2.dfy` | `ExecutionReportAnalyzer`, `finish_report`, Python's `max` and `sorted` |
| `baby_mixins.dfy` | baby-name settings and `BabyNamesMixin` |
| `baby_tables.dfy` | table rows, page scraping, grouping of stored records, start rows |
| `baby_question2.dfy` | `Script` (a class; the mutable default list of `get_all_row_data` is one `RowBuffer` object shared by every script) |

Each loop of the scripts is a method with a `while` or `for` loop. The method is
proved equal to, or to satisfy, a specification. Most of these functions recurse over
the input from the right, one element per step. `FirstTitle` recurses from the
left instead, because the loop of `validate_year` stops at the first header tag
found. The properties the scripts promise are lemmas about those functions.
An exception that ends a run is a `Failure` or `Fail` value.

## Model

| member | source | states |
|---|---|---|
| FixMessage.WindowRange | python_fix_logs/question_1.py:62-63 | the window is `message[34..e]` with `e = min(68, len(message) - 1)`, and empty when `e <= 34` |
| FixMessage.ExecutionReportWindow | python_fix_logs/question_1.py:62-64 | the window test holds exactly when `35=8` starts at an index >= 34 and ends inside the window; a message of at most 38 characters never passes |
| FixMessage.LastWithPrefix | python_fix_logs/question_1.py:70-76 | the backward scan finds the highest index whose field starts with the prefix, or reports that no field does |
| FixMixins.GetFilenames | python_fix_logs/mixins.py:7-23 | the loop returns exactly the selection of the listing by the prefix and suffix slice test |
| FixMixins.LogFileNameTest | python_fix_logs/mixins.py:19-21 | the slice comparison is `startswith(prefix) and endswith(".log")`; a selected name is at least 16 characters long |
| FixMixins.SelectedNames | python_fix_logs/mixins.py:18-22 | a name is returned iff it is listed, starts with the prefix and ends with ".log"; shorter names never are |
| FixMixins.SelectionKeepsOrder | python_fix_logs/mixins.py:18-22 | the returned names are the listing's entries at strictly increasing positions, and every passing entry is among them |
| FixMixins.SelectionIdempotent | python_fix_logs/mixins.py:18-22 | selecting from the selection returns it unchanged |
| FixQuestion1.OrdStatus.Value | python_fix_logs/question_1.py:9-24 | each status value is one character, a digit or 'A'..'E' |
| FixQuestion1.OrdStatusValues | python_fix_logs/question_1.py:9-24 | values and members correspond one to one: the lookup by value inverts `value`, and no two members share a value |
| FixQuestion1.OrderStatusAnalyzer.constructor | python_fix_logs/question_1.py:34-49 | the report's keys are exactly `39=<value>` for the requested categories, each count zero |
| FixQuestion1.OrderStatusAnalyzer.ProcessMessage | python_fix_logs/question_1.py:62-80 | one message updates the counts as `Step` says: only the last `39=` field of an Execution Report counts, and only if it is a key |
| FixQuestion1.OrderStatusAnalyzer.ExecuteReport | python_fix_logs/question_1.py:51-83 | the counts after every line of every selected file, in order, are returned and kept in `report` |
| FixQuestion1.StepKeepsKeys | python_fix_logs/question_1.py:77-80 | a message never adds or removes a key (the `KeyError` branch) |
| FixQuestion1.StepCountsLastStatus | python_fix_logs/question_1.py:70-80 | an Execution Report raises the count of its last `39=` field by one when that field is a key, and changes nothing else |
| FixQuestion1.StepIgnoresOtherMessages | python_fix_logs/question_1.py:62-76 | a line failing the window test, or without a `39=` field, changes nothing |
| FixQuestion1.StepRaisesAtMostOne | python_fix_logs/question_1.py:77-80 | a message leaves the counts alone or raises one existing count by exactly one |
| FixQuestion1.ProcessLinesMonotone | python_fix_logs/question_1.py:57-80 | over a file's lines, keys stay fixed, no count decreases, and each grows by at most the number of lines |
| FixQuestion1.ProcessFilesMonotone | python_fix_logs/question_1.py:55-81 | over all files, keys stay fixed and no count decreases |
| FixQuestion2.ExecutionReportAnalyzer.constructor | python_fix_logs/question_2.py:17-19 | the analyzer keeps the symbol tag it is given |
| FixQuestion2.ReadFill | python_fix_logs/question_2.py:49-56 | the forward scan and the order-id assertion compute `FillOf` of the fields |
| FixQuestion2.ScanFieldsSpec | python_fix_logs/question_2.py:49-54 | the scan fails exactly when some `14=` field is not an integer; otherwise it yields the last `11=` text and the last `14=` integer |
| FixQuestion2.ScanFailureSticks | python_fix_logs/question_2.py:53-54 | once `int()` has raised, later fields do not change the outcome |
| FixQuestion2.ExecutionReportAnalyzer.MessageContribution | python_fix_logs/question_2.py:34-56 | window test, split, backward scan for a field equal to `55=ES`, then the fill of the message, as `Contribution` says |
| FixQuestion2.ContributionSpec | python_fix_logs/question_2.py:36-56 | a line contributes iff it passes the window test and some field equals the symbol tag; the fill is then the last order id with the last quantity, and no `11=` raises |
| FixQuestion2.AppendOnlyTouchesItsOrder | python_fix_logs/question_2.py:57-60 | appending gives the order a list ending in the new quantity (a new one-entry list for a new order) and leaves every other order's list unchanged |
| FixQuestion2.AccumulateLinesFailureSticks | python_fix_logs/question_2.py:30-60 | an exception in a line ends the file's accumulation with that exception |
| FixQuestion2.AccumulateFilesFailureSticks | python_fix_logs/question_2.py:28-62 | an exception in a file ends the whole run with that exception |
| FixQuestion2.AccumulateLinesGrows | python_fix_logs/question_2.py:30-60 | accumulating lines only adds orders, and every list is non-empty |
| FixQuestion2.AccumulateFilesGrows | python_fix_logs/question_2.py:28-62 | accumulating files only adds orders, and every list is non-empty |
| FixQuestion2.MaxOf | python_fix_logs/question_2.py:73-80 | the result of `max` is one of the entries and, when present, at least every entry |
| FixQuestion2.MaxOfSpec | python_fix_logs/question_2.py:73-80 | `max` succeeds iff the list has one entry or at least two all present; otherwise it raises, with one error for an empty list and another for a missing quantity |
| FixQuestion2.ExecutedReportMaxima | python_fix_logs/question_2.py:73-80 | for a report built by the script, `max` fails only when a list of two or more quantities holds a missing one |
| FixQuestion2.SortedItems | python_fix_logs/question_2.py:85 | the pairs of the dictionary, each once, in strictly ascending order of order id |
| FixQuestion2.FinishReport | python_fix_logs/question_2.py:66-94 | succeeds iff every order's list has a maximum; it then returns one pair per order with that maximum, ascending by id; otherwise it raises the error of some failing order |
| FixQuestion2.AscendingUnique | python_fix_logs/question_2.py:85-92 | two strictly ascending pair lists with the same ids and values are equal |
| FixQuestion2.FinishedReportUnique | python_fix_logs/question_2.py:83-94 | the finished report is determined by the accumulated report: the result does not depend on dictionary order |
| FixQuestion2.ExecutionReportAnalyzer.ExecuteReport | python_fix_logs/question_2.py:21-64 | the run fails with the first exception of accumulation; otherwise it succeeds iff every order's list has a maximum, and then returns `finish_report` of the report built from every line of every selected file; when `max` raises, the error is that of some order of that report |
| PyStr.PrefixSliceTest | python_fix_logs/mixins.py:19 | `s[:len(p)] == p` iff `s` starts with `p` |
| PyStr.SuffixSliceTest | python_fix_logs/mixins.py:20 | `s[-len(p):] == p` iff `s` ends with a non-empty `p` |
| PyStr.InfixOccurs | python_fix_logs/question_1.py:64 | `sub in s` iff `sub` occurs at some index of `s` |
| PyStr.SplitPiecesFree | python_fix_logs/question_1.py:65 | no piece of a split holds the delimiter |
| PyStr.JoinSplit | python_fix_logs/question_1.py:65 | joining the pieces of a split with the delimiter gives the message back |
| PyStr.SplitJoin | python_fix_logs/question_1.py:65 | splitting a join of delimiter-free pieces gives the pieces back |
| PyStr.ParseIntRoundTrip | python_fix_logs/question_2.py:54 | `int()` reads back the decimal text of every integer |
| PyStr.LexLessIrreflexive | python_fix_logs/question_2.py:85 | string `<` is irreflexive |
| PyStr.LexLessAsymmetric | python_fix_logs/question_2.py:85 | string `<` is asymmetric |
| PyStr.LexLessTransitive | python_fix_logs/question_2.py:85 | string `<` is transitive |
| PyStr.LexLessTotal | python_fix_logs/question_2.py:85 | any two different strings are ordered by `<` |
| PyStr.LeastStringExists | python_fix_logs/question_2.py:85 | every non-empty set of strings has a least element |
| PyStr.ReplaceAbsent | python_baby_names/question_2.py:76 | `replace` leaves a string without the pattern unchanged |
| PyStr.ReplaceExtension | python_baby_names/question_2.py:76 | replacing ".py" in `<stem>.py`, whose stem has no ".py", swaps the extension |
| PyStr.LowerSpec | python_baby_names/mixins.py:118 | `lower()` leaves no upper-case letter, touches nothing else, and is idempotent |
| PyStr.StripPiece | python_baby_names/question_2.py:150 | `strip()` returns a piece of the text that neither starts nor ends with whitespace, and every character it cuts off is whitespace |
| Seqs.FilterMembers | python_baby_names/mixins.py:49-53 | an element is kept iff it is in the input and passes the test |
| Seqs.FilterKeepsOrder | python_baby_names/mixins.py:49-62 | the kept elements are those at strictly increasing positions, and no passing position is missed |
| Seqs.LastWinsSpec | python_baby_names/question_2.py:151-153 | assigning pairs in turn gives a dictionary with exactly their keys, each mapped to its last value |
| BabyMixins.FilenameInfo | python_baby_names/mixins.py:33-64 | on success the two lists have the same length |
| BabyMixins.GetFilenameInfo | python_baby_names/mixins.py:33-64 | the loop returns the file names and years, or the first assertion failure, as `FilenameInfo` says |
| BabyMixins.BabyFileNameTest | python_baby_names/mixins.py:50-55 | the slice test is `startswith("baby") and endswith(".html")`; a selected name is "baby" + its year part + ".html" |
| BabyMixins.FilenameInfoSpec | python_baby_names/mixins.py:49-64 | succeeds iff every selected name's year is four digits; then the names are the selection in listing order, and the years match them index by index |
| BabyMixins.FilenameInfoFailureSticks | python_baby_names/mixins.py:58-60 | an assertion failure ends the loop with that failure |
| BabyMixins.FilenameInfoFirstFailure | python_baby_names/mixins.py:58-60 | a failure names the first selected entry whose year is not four digits: a format error if it is not all digits, a length error otherwise |
| BabyMixins.FirstTitle | python_baby_names/mixins.py:75-81 | a title found is the text of one of the header tags |
| BabyMixins.ValidateYear | python_baby_names/mixins.py:66-87 | the check passes only for a four-digit year, and fails with the missing-title error exactly when no header tag is found |
| BabyMixins.ValidatePageYear | python_baby_names/mixins.py:66-87 | the loop over the header tags, stopping at the first found, and the two assertions give `ValidateYear` |
| BabyMixins.FirstTitleSpec | python_baby_names/mixins.py:75-81 | the title is the text of the first header tag found, in the order h3, h2, h1; there is none only when no tag is found |
| BabyMixins.ValidateYearSpec | python_baby_names/mixins.py:66-87 | the check passes iff a title is found, it is at least four characters long, its last four are the year, and the year is four digits; no title is an error |
| BabyMixins.ValidateTableColumns | python_baby_names/mixins.py:106-120 | passes iff the lower-cased texts of the header row's tag children are rank, male name, female name; otherwise raises naming the file |
| BabyMixins.ColumnOrderSpec | python_baby_names/mixins.py:114-120 | the column order is each tag text lower-cased, so the check holds iff there are three tag children whose lower-cased texts are the expected names |
| BabyMixins.OutputPath | python_baby_names/mixins.py:13-31 | the report path is in the script's directory, after a backslash; a configured file name ends it |
| BabyMixins.OutputPathSpec | python_baby_names/mixins.py:13-31 | a configured file name is used as is; otherwise `<stem>.py` writes `<stem>_report.xlsx` in its own directory |
| BabyQuestion2.CheckExcelFilename | python_baby_names/question_2.py:50-52 | an empty name is accepted; a rejection names the file, which does not end in ".xlsx" |
| BabyQuestion2.ExcelFilenameAccepted | python_baby_names/question_2.py:50-52 | a report file name is accepted iff it is empty or ends in ".xlsx" |
| BabyQuestion2.PklFilenameSpec | python_baby_names/question_2.py:75-76 | `<stem>.py` stores its records in `<stem>_data.pkl` |
| BabyQuestion2.NewScript | python_baby_names/question_2.py:43-56 | construction fails exactly on a rejected file name; otherwise the script holds the given settings and the default row list shared by every script |
| BabyQuestion2.Script.constructor | python_baby_names/question_2.py:43-56 | the script holds the given settings and the default row list shared by every script |
| BabyQuestion2.Script.GetAllRowData | python_baby_names/question_2.py:225-235 | extends the given list in place with one entry per report name, and returns that same list |
| BabyQuestion2.Script.GetAllRowDataDefault | python_baby_names/question_2.py:225-235 | without a list, the entries go to the one default list shared by every script, which keeps those of earlier calls on any script |
| BabyTables.RowEntriesSpec | python_baby_names/question_2.py:229-234 | one entry per report name, in order: the name's rank if it is a key, `N/A` otherwise |
| BabyTables.RowEntriesReadsReportNames | python_baby_names/question_2.py:229-234 | dictionaries that agree on the report names give the same entries |
| BabyQuestion2.Script.GetEmptyDataframes | python_baby_names/question_2.py:98-111 | both tables start without rows; each has the column (title, "Year") and then one column ("", name) per report name |
| BabyTables.HeadersSpec | python_baby_names/question_2.py:98-111 | the first column is (title, "Year"), then one column ("", name) per report name |
| BabyQuestion2.Script.ReadPage | python_baby_names/question_2.py:130-160 | one page: the year check of `ValidatePageYear`, column check, then the ranking rows after the header, as `ScrapePage` says |
| BabyTables.ScrapeRowsSucceeds | python_baby_names/question_2.py:143-148 | a page's rows are read iff every rank text is an integer; otherwise the error is a bad rank |
| BabyTables.ScrapeRowsFailureSticks | python_baby_names/question_2.py:148 | once a rank fails to parse, later rows do not change the failure |
| BabyTables.ScrapeRowsRecords | python_baby_names/question_2.py:155-160 | each row adds its male record, then its female one, with stripped names and the row's rank, in row order |
| BabyTables.RowRecordsPairs | python_baby_names/question_2.py:150-160 | a row's records add one (name, rank) pair to each gender |
| BabyTables.ScrapeRowsDictionaries | python_baby_names/question_2.py:150-153 | each name dictionary is what assigning its gender's records in order leaves: a later row with the same name overwrites |
| BabyQuestion2.Script.DfsFromHtml | python_baby_names/question_2.py:113-175 | the tables and stored records are `HtmlTables` of the listing and pages |
| BabyTables.CollectRowsSucceeds | python_baby_names/question_2.py:126-132 | scraping succeeds iff every page does; otherwise it fails with the first failing page's error |
| BabyTables.CollectRowsSpec | python_baby_names/question_2.py:126-168 | one row per page in file order, each the page's year then its entries; the stored records are the pages' records in order |
| BabyTables.CollectRowsFailureSticks | python_baby_names/question_2.py:126-132 | a failing page ends the run with its error |
| BabyTables.GroupKeys | python_baby_names/question_2.py:204-209 | grouping has a dictionary for exactly the years of the gender's records |
| BabyTables.GroupYears | python_baby_names/question_2.py:204-209 | the years appear once each, in the order they first appear (dictionary insertion order) |
| BabyTables.GroupRanks | python_baby_names/question_2.py:204-209 | each year's dictionary is what assigning that year's records in order leaves |
| BabyTables.GroupRowsSpec | python_baby_names/question_2.py:211-221 | one row per grouped year, the year then its entries |
| BabyQuestion2.Script.GroupTableRows | python_baby_names/question_2.py:213-221 | the loop appends the rows `GroupRows` describes |
| BabyQuestion2.Script.DfsFromPkl | python_baby_names/question_2.py:177-223 | the two tables are `PklTables` of the stored records |
| BabyTables.PklTableRows | python_baby_names/question_2.py:188-223 | a table from stored records has one row per year with a record of a report name, in first-seen order with no repeats; each row holds the last rank of each name for that year |
| BabyQuestion2.Script.SaveToExcel | python_baby_names/question_2.py:237-250 | the report path and sheet, and each table placed at its start row |
| BabyTables.StartRowSteps | python_baby_names/question_2.py:240-248 | the first table starts at row 0, each later one `len(previous) + 2` rows after the one before |
| BabyQuestion2.Script.ExecuteReport | python_baby_names/question_2.py:58-73 | with the stored-records file listed, the tables come from the stored records; otherwise from scraping, whose failure ends the run; a workbook exists iff one is asked for, with the report path, the configured sheet, the male table at start row 0 and the female table at start row len(male rows) + 2 |

## Left out

- File and directory access is not modelled: `os.listdir`, `open`, `readlines`, reading and writing the pickle file, writing the workbook, `print`. The listing, each file's lines (`read`), each page (`pages`), the stored records, and the script's directory and base name are parameters. Written results are return values: the records to store and the `Workbook`.
- HTML parsing is not modelled. A page is given as what the scripts read from it: the text of each header tag found, the header row's children (a tag's text, or none for a non-tag), and the three texts of each ranking row.
- `get_table` is not modelled: `find_all('table')[2]` raises when a page has fewer than three tables. Neither is the row navigation `row.next.next`, nor the `align` filter of `find_all`.
- pandas is not modelled. A table is its column labels and its rows. `query` is modelled as list membership of the name. Cell types are `Text` (years and `N/A`) or `Rank`.
- `get_pkl_path` and `save_pkl` are not modelled; the records `dfs_from_html` would store are returned in `Run.stored`.
- The `timer` decorators, the module-level runs, `python_baby_names/question_1.py` and the `_v2` scripts are not modelled.
- Character classes are ASCII only. `isdigit`, `lower`, `strip` and `int()` are modelled without Unicode digits, Unicode case or Unicode whitespace, and `int()` without underscores between digits.
- Exceptions are error values without their message texts.
- `os.path.basename`, `dirname` and `abspath` are not modelled; the directory and base name are parameters.
- FixQuestion2.FinishReport: when several orders fail `max`, Python raises for the first in dictionary order. The model only promises the error of some failing order; dictionary order is not modelled.
- BabyMixins.ValidateYear: when no header tag is found, the script fails on the unbound `title_text`. The model reports this as `MissingTitle`.
- BabyQuestion2.Script.ExecuteReport: the two branches can disagree. Scraping gives an all-`N/A` row for a year where no report name appears. Stored records give no row for that year.
