# Work-order batch merger, modelled in Dafny

`app.py` merges a folder of work-order exports (CSV and Excel) into a single
workbook named `통합_RAW_DATA_결과.xlsx`. It works as follows:

- It skips editor lock files (`~$…`) and earlier merge results.
- For every remaining file, it reads two things off the basename with regular
  expressions:
  - the work date (`\d{1,2}-\d{1,2}`, otherwise `날짜미상`);
  - the furnace tag (`\((.+?)\)`, otherwise `호기미상`).
- It finds the header row: the first of the leading 15 rows that has a cell
  containing `수주`, otherwise row 0.
- It reads the sheet at that header row and picks the first column whose label
  contains `수주`.
- It drops the rows that have no value in that column.
- It puts the work date and the furnace tag in front as columns `작업지시일`
  and `지시서번호(호기)`.
- It appends the result to a master table and counts the file as merged.
- A file whose processing raises an exception gets one line in the error log,
  `"{basename}: {error}"`, and the loop moves on to the next file.
- The workbook is written only when the master table has rows.

The project models these rules as pure functions over strings and sequences,
plus two methods that follow the shape of the loop. It proves what the rules
promise:

- first-match semantics of the header and key-column searches;
- the exact leftmost-match behaviour of both regular expressions, stated
  declaratively and tied to the scans;
- order-preserving selection of rows;
- placement of the metadata columns;
- what the loop adds up: master rows, the success count and the error log.

Modules (one file each):

| module | file | models |
|---|---|---|
| `Results` | results.dfy | `Option` and `Result` |
| `Literals` | literals.dfy | the fixed strings of `app.py` |
| `Strings` | strings.dfy | Python's `p in s` and `startswith` |
| `Seqs` | seqs.dfy | first match, filter, count, and the kept-position view of a filter |
| `InputFilter` | input_filter.dfy | the basename filter |
| `Metadata` | metadata.dfy | both filename regexes, as scans plus declarative match predicates |
| `Header` | header.dfy | `find_header_row` |
| `Tables` | tables.dfy | key column, row selection, `insert` of the two metadata columns |
| `Batch` | batch.dfy | one file's `try` block, the loop, and the whole run |
| `Examples` | examples.dfy | the filename example from the comment on line 81 |

Things the model takes as inputs instead of computing:

- **Scanned files:** each is a `Batch.SourceFile` carrying:
  - its basename;
  - the outcome of the 15-row probe read, with `None` when that read raised;
  - the full read, as a function from the header index to a table or an
    exception message.
- **Write outcome:** the outcome of writing the workbook is a parameter of
  `Batch.Run`.

Two points where the code does less than a reader might expect:

- **Success count.** `success_count` is raised only after both `insert`
  calls succeed (lines 106-111). `DataFrame.insert` raises when the label
  is already present, so a file that has a key column but already has a
  `작업지시일` or `지시서번호(호기)` label is logged as failed and not
  counted. `Batch.SuccessCountIsKeyedFiles` shows that the count equals the
  number of files with a key column exactly when no such file has a clash.
- **Header search.** The header locator looks for `수주` only. The comment on
  line 30 also mentions `NO.`, but the code never tests for it.

## Model

| member | source | states |
|---|---|---|
| InputFilter.IsInputFile | app.py:59-62 | The basename filter itself. `InputFileExactly` proves that it keeps a name exactly when the name has neither exclusion, and `ResultFileNeverIngested` proves that it rejects the merger's own output name. |
| InputFilter.InputFileExactly | app.py:59-62 | A basename is read exactly when it does not start with `~$` and does not contain `통합_RAW_DATA_결과` anywhere. |
| InputFilter.ResultFileNeverIngested | app.py:61 | The name the merger writes on line 119, `통합_RAW_DATA_결과.xlsx`, fails the input filter, so a later run over the same folder never reads its own output. |
| InputFilter.StemAnywhereExcluded | app.py:61 | Every basename that carries the result stem is rejected, whatever text surrounds the stem. |
| Strings.HasSubstring | app.py:31 | The executable substring scan answers true exactly when the pattern occurs at some position, which is Python's `in` on strings. |
| Metadata.DigitRun | app.py:82 | The greedy `\d{1,2}` at one position: a run of at most two characters that lies inside the name. `DigitRunIsGreedy` proves it is all digits and as long as the name allows. |
| Metadata.DateMatchAt | app.py:82 | The date pattern tried at one position. A non-zero length always lies inside the name, and `DateMatchAtIsLongest` proves it is the longest match starting there. |
| Metadata.FindDateFrom | app.py:82 | `re.search` for the date pattern from a position on. A reported span starts at or after that position and lies inside the name, and `FindDateFromIsLeftmost` proves it is the leftmost match. |
| Metadata.WorkDate | app.py:82-85 | The work date of a basename. `WorkDateIsFirstMatch` proves it is `날짜미상` exactly when no date occurs, and otherwise the date-shaped text of the leftmost, longest match. |
| Metadata.DigitRunIsGreedy | app.py:82 | The greedy `\d{1,2}` consumes only digits and stops short of two only at a non-digit or at the end of the name. |
| Metadata.DateSplitFollowsRuns | app.py:82 | Every match of the date pattern at a position consists of exactly the greedy digit run, a hyphen, and part of the digit run that follows, so backtracking never finds a different match. |
| Metadata.DateMatchAtIsLongest | app.py:82 | The scan at one position returns the longest date match that starts there, and returns 0 only when no match starts there. |
| Metadata.FindDateFromIsLeftmost | app.py:82 | The search reports the leftmost position where any date match starts, together with its longest length. It reports none only when no position matches. |
| Metadata.DateSearchSkips | app.py:82 | A stretch without digits never starts a date match, so the search passes over it unchanged. |
| Metadata.WorkDateIsFirstMatch | app.py:82-85 | The work date is `날짜미상` exactly when the basename holds no date match. Otherwise it is date-shaped (1-2 digits, `-`, 1-2 digits) and is the slice of the leftmost, longest match. |
| Metadata.CloseFrom | app.py:83 | The lazy `.+?` followed by `)`, scanned after an opening `(`. A reported close lies at or after the scan's start and inside the name, and `CloseFromIsNearest` proves it is the nearest one the pattern accepts. |
| Metadata.GroupMatchAt | app.py:83 | The furnace pattern tried at one position. A reported close leaves at least one character inside the group, and `GroupMatchAtIsNearest` proves it is the nearest possible close. |
| Metadata.FindGroupFrom | app.py:83 | `re.search` for the furnace pattern from a position on. A reported group starts at or after that position and closes inside the name, and `FindGroupFromIsLeftmost` proves it is the leftmost group. |
| Metadata.FurnaceTag | app.py:83-86 | The furnace tag of a basename. `FurnaceTagIsFirstGroup` proves it is `호기미상` when no group occurs, and otherwise the text inside the leftmost group, closed at its nearest `)`. The tag is never empty and never holds a line break. |
| Metadata.CloseFromIsNearest | app.py:83 | After an opening `(`, the close scan finds the nearest `)` that leaves at least one character inside. It fails when a line break comes first (`.` does not match `\n`) or when the name ends first. |
| Metadata.GroupMatchAtIsNearest | app.py:83 | The lazy group match at a position, if any, ends at the nearest possible `)`, and there is none when the scan fails. |
| Metadata.FindGroupFromIsLeftmost | app.py:83 | The search reports the leftmost `(` that has a match, with its nearest close. It reports none only when no position matches. |
| Metadata.GroupSearchSkips | app.py:83 | A stretch without `(` never starts a group, so the search passes over it unchanged. |
| Metadata.FurnaceTagIsFirstGroup | app.py:83-86 | The furnace tag is `호기미상` when the basename holds no group. Otherwise it is the text inside the leftmost group up to its nearest `)`. In both cases the tag is non-empty and has no line break. |
| Examples.CommentExampleDate | app.py:81-85 | For the example `11월 작업... - 11-03(1).csv`, the work date is `11-03`. |
| Examples.CommentExampleFurnace | app.py:81-86 | For the same example name, the furnace tag is `1`. |
| Header.Window | app.py:21-26 | The probe sees the first 15 rows of the sheet, or all of them when there are fewer, unchanged and in order. |
| Header.FindHeaderRow | app.py:15-35 | The header index is below 15. When some probed row has a cell containing `수주`, the index is the first such row and no earlier row has one. When no probed row does, or when the probe read failed, the index is 0. |
| Header.MentionsOrder | app.py:29-31 | The header test on one probed row. `MentionsOrderMeaning` proves it holds exactly when some cell contains `수주` as a substring. |
| Header.MentionsOrderMeaning | app.py:29-31 | A row counts as the header exactly when one of its cells contains `수주` as a substring. |
| Header.LaterRowsIgnored | app.py:21-26 | Rows after the first 15 never change the header index. |
| Seqs.FilterByIndices | app.py:103 | A filtered sequence is the original read at the kept positions, with one entry per kept position. |
| Seqs.KeptIndicesAscend | app.py:103 | The kept positions rise strictly, and each one holds an element that passes the filter. |
| Seqs.KeptIndicesComplete | app.py:103 | Every position whose element passes the filter is among the kept positions. |
| Tables.KeyColumn | app.py:99-102 | The key column is the first column whose label contains `수주`, and there is none exactly when no label contains it. |
| Tables.SelectKeyed | app.py:103 | Row selection keeps the labels. It keeps as many rows as have a value in the key column, no more than there were. Every kept row has a value there and comes from the table, and every row with a value there is kept. |
| Tables.SelectKeyedInOrder | app.py:103 | The selection is the table read at the rising positions of exactly the keyed rows, so it keeps every keyed row, drops the rest, and preserves their order. |
| Tables.SelectKeyedAppend | app.py:103 | Selecting from two stacked blocks of rows gives the two selections, stacked in the same order. |
| Tables.Insert | app.py:106-107 | `insert(0, …)` fails exactly when the label is already a column. |
| Tables.Tag | app.py:105-107 | The two inserts put `작업지시일` at column 0 and `지시서번호(호기)` at column 1. In every row those cells hold the date and the tag, followed by the original row. The step fails exactly when either label is already present, and the error names the first label inserted that clashes. |
| Batch.Loaded | app.py:89-95 | The full read of a file at the header index its probe located. `ProcessFile` and `MergedFileShape` state everything the batch does with it. |
| Batch.ProcessFile | app.py:76-107 | A read exception becomes a failure carrying its message. A file is passed over silently exactly when its table has no key column, and merges exactly when it has one and neither metadata label is already present. |
| Batch.MergedFileShape | app.py:99-110 | A merged file contributes one row per keyed row of its table. The labels of those rows are the two metadata labels followed by the table's own. |
| Batch.MergedFileRows | app.py:99-110 | Each row a merged file contributes is led by the file's work date and furnace tag. It continues with a row of the table that has a value in the key column. |
| Batch.Contribution | app.py:101-110 | The rows one file appends to the master table. `MergedFileShape` and `MergedFileRows` prove what a merged file adds, and `ContributionTagged` proves that each such row is tagged by that file. |
| Batch.LogEntries | app.py:113-114 | The log lines one file adds. `ErrorLogOnePerFailure` proves that these lines are exactly one `"{basename}: {error}"` line per failing file. |
| Batch.MasterOf | app.py:68-111 | The master rows after a run over a list of files. `MergeFiles` proves the loop computes it, and `MasterRowCount` and `MasterRecordsTagged` prove its size and its tagging. |
| Batch.ErrorLogOf | app.py:70-114 | The error log after a run over a list of files. `MergeFiles` proves the loop computes it, and `ErrorLogOnePerFailure` proves its contents. |
| Batch.CountStep | app.py:111 | Processing one more file raises the count by one exactly when that file merges. |
| Batch.LoopStep | app.py:75-115 | One turn of the loop, stated on the prefix of files processed so far, for all three accumulators. |
| Batch.MergeFiles | app.py:68-115 | The loop ends with the concatenated contributions of all files in order, the number of merged files, and the per-file log lines in order. |
| Batch.MasterRowCount | app.py:101-111 | The number of master rows equals the sum of keyed-row counts over the files that merged. |
| Batch.NoMergedRows | app.py:101-111 | When no file merges, that sum is 0. |
| Batch.ContributionTagged | app.py:105-110 | Every row a file contributes carries that file's work date and furnace tag in front and has a value in a column whose label contains `수주`. |
| Batch.MasterRecordsTagged | app.py:75-111 | Every master row is tagged in this way by some input file. |
| Batch.ErrorLogOnePerFailure | app.py:113-114 | The error log has exactly one line per failing file, in input order, each line being `"{basename}: {error}"`. Files that merged or had no key column add nothing. |
| Batch.TalliesBounded | app.py:101-114 | The success count plus the number of log lines never exceeds the number of files, because a file cannot both merge and fail. |
| Batch.SuccessCountIsKeyedFiles | app.py:101-111 | A file merges exactly when it has a key column and neither metadata label is already present. The success count plus the number of files with a key column and a clash equals the number of files with a key column. The success count equals that number exactly when no file with a key column has a clash. |
| Batch.AllFilesFail | app.py:113-118 | When every file raises, the master table is empty and the log has one line per file. |
| Batch.Run | app.py:57-134 | The run stops with "no files" exactly when no scanned name passes the filter. It writes exactly when some file passed and the master table has rows, and then always to `통합_RAW_DATA_결과.xlsx`, a name the filter rejects. It reports the master rows, success count, file count and error log of the loop, or the write error when the write raised. |

## Left out

- **User interface.** The tkinter dialogs, message boxes and console prints
  (lines 6-13, 39-45, 64-66, 73, 115, 125-134) are left out. `Batch.Run`
  returns a `Conclusion` that says which message the run ends with.
- **Directory scan.** The folder is scanned with `glob` (lines 48-55), which
  is file-system access, so the scanned files are an input. Their basenames
  (`os.path.basename`, line 77) arrive as given. The extension
  (`os.path.splitext`, line 78) is dropped, because the only thing it
  decides is the choice of reader (lines 22-26 and 92-95), and that choice
  is folded into each file's probe and `SourceFile.read`.
- **Parsing.** `pd.read_csv` and `pd.read_excel` parsing, with any difference
  between the header row the probe sees and the one the full read uses
  (blank CSV lines, for instance), belongs to the library. The probe rows and
  the full read are inputs, and cells arrive already rendered as text by
  `astype(str)`.
- **Duplicate labels.** The readers rename repeated header labels, so a
  `Tables.Table` carries distinct labels as an invariant rather than modelling
  the renaming.
- **Concatenation.** `pd.concat` aligns columns by name and pads missing
  cells with NaN. Each master row keeps its own labels instead (a
  `Batch.Record`), which carries the same information without modelling the
  padding.
- **Writing the workbook.** `to_excel` is file I/O. Its outcome is the
  `writeError` parameter of `Batch.Run`.
- **Exception texts.** The messages of exceptions raised by the readers are
  opaque strings that the caller supplies. The only exception the model
  raises itself is the `insert` clash, rendered as
  `cannot insert {label}, already exists`.
- **Digits.** Python's `\d` on `str` also matches non-ASCII decimal digits
  (Unicode category Nd). `Strings.IsDigit` accepts `0`-`9` only, so a
  basename whose date uses, say, full-width digits is modelled as having no
  date.
- **Regex engine.** Both regular expressions are modelled by scans for those
  two patterns only, not by a general matcher.
