# Bronze cleaning stage of the medallion pipeline

This project models `clean_daily_transactions` from the medallion pipeline's
bronze stage in Dafny, along with its helpers `_coerce_amount` and
`_normalize_status`. For one run date the stage:

1. derives the partition key `strftime("%Y%m%d")`;
2. builds the raw input path and the cleaned output path from the two file
   templates;
3. fails with "not found" when the raw extract is missing;
4. creates the clean directory;
5. reads the CSV;
6. cleans the frame:
   - trims and lower-cases the headers;
   - drops exact-duplicate rows;
   - coerces `amount` to a number;
   - maps `status` onto `completed`/`pending`/`failed`;
   - drops rows missing an identifier, the amount or the status;
   - when there is a `transaction_ts` column, parses it, drops rows that fail to
     parse and adds `transaction_date`;
7. writes the parquet artifact and returns its path.

Modules, in dependency order:

- `Base`: `Option` and `Result`.
- `Text`: `str.strip` and `str.lower` on one string.
- `Seqs`: map, filter, and `FirstOccurrences`, which is `drop_duplicates`
  on a sequence of rows. `Seqs` also holds an imperative `DropDuplicates`
  that is proved equal to `FirstOccurrences`.
- `Partition`: calendar dates, the eight-digit key, and its inverse
  `ParseKey`.
- `Paths`: paths as segment lists, and the file templates as literal pieces
  around a `{ds_nodash}` field.
- `Frame`: cells, rows, tables, and the failures the stage can raise.
- `Cleaning`: the cleaning pipeline, following `transformations.py` step by step
  (`CleanFrame`). It also holds a per-row reference: whether a row is kept
  (`Retained`) and what it becomes (`RefineRow`).
- `CleanedRows`: proves the pipeline equals "deduplicate, keep the retained
  rows, refine each". From that it derives the row-level guarantees.
- `Bronze`: the file system as a set of directories plus a map of files.
  Holds the whole stage as a function from a disk to an outcome and a new
  disk, with consistency, idempotence and path lemmas.
- `Scenarios`: concrete runs. They cover:
  - a missing partition;
  - an extract with a duplicate and an unparseable amount;
  - two rows that differ only in the case of their status;
  - an extract without a status column.

Three behaviours of `transformations.py` shape the model:

- Deduplication runs on the raw values, before amounts and statuses are
  normalised. Two rows that only become equal after normalisation are both
  kept, so the cleaned artifact can hold the same row twice
  (`CleanedRows.DedupBeforeNormalisation`,
  `Scenarios.CaseVariantsBothSurvive`).
- When a `transaction_ts` column exists, a row whose timestamp does not parse
  is dropped. The retention condition (`Cleaning.Retained`) therefore
  includes the timestamp.
- A required column absent from the extract makes `dropna(subset=...)` raise
  `KeyError`. That is a hard failure of the stage, distinct from the
  missing-file case.

Paths follow pathlib: joining a directory with an empty or `.` file name
gives the directory itself. A raw template that formats to such a name makes
the input path the raw directory itself. When that directory exists, the run
fails on the read instead of reporting a missing file.

## Model

| member | source | states |
|---|---|---|
| Partition.PartitionKey | include/transformations.py:39 | the key of a valid date has exactly eight characters, all of them decimal digits |
| Partition.KeyRoundTrip | include/transformations.py:39 | parsing the key back yields the original date, so the key determines the run date |
| Partition.ParseKeyCanonical | include/transformations.py:39 | any key that parses to a date is exactly that date's key, so no other spelling names the same partition |
| Partition.KeyInjective | include/transformations.py:39 | two different valid dates never share a partition key |
| Partition.DecimalOfZeroPad | include/transformations.py:39 | reading back a zero-padded field gives the number that was padded |
| Partition.ZeroPadOfDecimal | include/transformations.py:39 | a digit string is the zero-padded form of its value at its own width |
| Paths.RawFileName | include/transformations.py:10 | the default raw template expands to `transactions_<key>.csv` |
| Paths.CleanFileName | include/transformations.py:11 | the default clean template expands to `transactions_<key>_clean.parquet` |
| Paths.Join | include/transformations.py:40-41 | as with pathlib's `/`, an empty or `.` name gives the directory itself; any other name adds exactly one segment below the directory and keeps the directory's segments |
| Paths.Format | include/transformations.py:40-41 | a template that mentions `{ds_nodash}` formats to a name at least as long as the key |
| Paths.FormatInjective | include/transformations.py:40-41 | a template that mentions the key field maps equal-length keys to names injectively |
| Text.Strip | include/transformations.py:21 | `str.strip()`: the result is no longer than the input and neither of its ends is whitespace |
| Text.StripRemovesPadding | include/transformations.py:21 | `strip` removes only whitespace at the two ends: the result is a contiguous slice of the input, and everything before and after it is whitespace |
| Text.TrimLowerShape | include/transformations.py:21 | a trimmed, lower-cased string has no whitespace at either end and no upper-case ASCII letter |
| Text.TrimLowerIdempotent | include/transformations.py:53 | trimming and lower-casing a second time changes nothing |
| Text.StripPadding | include/transformations.py:21 | whitespace padded on either side is removed by `strip` |
| Text.StripLower | include/transformations.py:21 | stripping and lower-casing commute |
| Cleaning.CoerceAmount | include/transformations.py:14-17 | a text amount becomes a number exactly when the numeric parser accepts it, and missing otherwise instead of raising; a numeric cell keeps its value; missing, timestamp and date cells become missing |
| Cleaning.StatusOf | include/transformations.py:21-27 | a status string maps to its trimmed lower-case form when that is one of the three known statuses, and to missing otherwise |
| Cleaning.NormalizeStatus | include/transformations.py:20-27 | the result is missing or one of `completed`/`pending`/`failed`; it is present exactly when the trimmed lower-cased text is one of those three; a missing cell becomes missing |
| Cleaning.StatusIgnoresPaddingAndCase | include/transformations.py:21 | statuses that differ only in surrounding whitespace and letter case normalise to the same value |
| Cleaning.ParseStamp | include/transformations.py:66 | a text cell becomes a timestamp exactly when the timestamp parser accepts it, a number exactly when the epoch reading (nanoseconds since 1970) accepts it; a parsed timestamp stays, a date becomes its midnight timestamp, and a missing cell stays missing |
| Cleaning.NormalizeHeaders | include/transformations.py:53 | one normalised name per original column |
| Cleaning.NormalizedNames | include/transformations.py:53 | each normalised header is its original name stripped and lower-cased, so it has no whitespace at either end and no upper-case ASCII letter |
| Cleaning.NormalizeHeadersIdempotent | include/transformations.py:53 | normalising already-normalised headers changes nothing |
| Cleaning.UpdateColumn | include/transformations.py:56-60 | replacing one column fails exactly when the name occurs more than once; otherwise header and row count are unchanged (cell contents: `CleanedRows.UpdateColumnCells`) |
| Cleaning.AbsentColumns | include/transformations.py:62 | lists exactly the required names that are not columns |
| Cleaning.DropIncomplete | include/transformations.py:62 | `dropna(subset=...)` fails exactly when a named column is absent; otherwise every remaining row has all named cells present and none are added (which rows: `CleanedRows.DropIncompleteRows`) |
| Cleaning.ConvertColumns | include/transformations.py:56-60 | amount and status conversion fails exactly when one of those names is duplicated, and keeps header and row count (cell contents: `CleanedRows.ConvertColumnsCells`) |
| Cleaning.DeriveDates | include/transformations.py:65-68 | the timestamp step fails exactly when `transaction_ts` is duplicated; the header gains `transaction_date` only when there is a timestamp column, and no rows are added (which rows and cells: `CleanedRows.DeriveDatesRows`) |
| Cleaning.CleanDeduplicated | include/transformations.py:56-68 | the steps after deduplication fail exactly when a required column is absent or amount/status/timestamp is ambiguous; on success the header gains only the date column and no rows are added |
| Cleaning.CleanFrame | include/transformations.py:50-68 | cleaning fails exactly when a required column is missing after header normalisation or amount/status/timestamp is ambiguous; on success the header is the normalised one (plus the date column) and the output never has more rows than the input |
| Cleaning.RowSteps | include/transformations.py:56-68 | for one row, the column conversions followed by the two `dropna` checks keep it exactly when it is `Retained`, and produce `RefineRow` of it |
| Seqs.FirstOccurrences | include/transformations.py:54 | deduplicated rows are drawn from the input, pairwise distinct and never more numerous |
| Seqs.FirstOccurrencesMembers | include/transformations.py:54 | deduplication keeps every distinct row: a row is in the output iff it is in the input |
| Seqs.FirstOccurrencesOrder | include/transformations.py:54 | kept rows appear in the order of their first occurrence |
| Seqs.FirstOccurrencesIsSubsequence | include/transformations.py:54 | the deduplicated rows are an order-preserving subsequence of the input |
| Seqs.DropDuplicates | include/transformations.py:54 | a one-pass loop with a seen-set computes exactly the first occurrences |
| Seqs.FilterIsSubsequence | include/transformations.py:62 | dropping rows keeps the survivors in their original order |
| Seqs.FilterMembers | include/transformations.py:62 | a row survives a filter iff it was present and passes the test |
| CleanedRows.UpdateColumnCells | include/transformations.py:56-60 | on a name that labels at most one column, the cells under that name become `f` of the old cell and every other cell is unchanged |
| CleanedRows.ConvertColumnsCells | include/transformations.py:56-60 | the amount cell becomes `_coerce_amount` of itself, the status cell `_normalize_status` of itself, and every other cell is unchanged |
| CleanedRows.DropIncompleteRows | include/transformations.py:62 | when the named columns exist, `dropna` keeps an order-preserving subsequence of the rows, and a row is kept iff all its named cells are present |
| CleanedRows.DeriveDatesRows | include/transformations.py:65-68 | without a timestamp column the frame is unchanged; with one, a row survives iff its timestamp parses, survivors keep their order, and each holds its parsed timestamp, that timestamp's date in `transaction_date`, and its other cells unchanged |
| CleanedRows.DropnaRows | include/transformations.py:56-62 | with every required column present once, conversion and the first `dropna` keep exactly the rows whose converted form is complete, converted |
| CleanedRows.DeduplicatedRows | include/transformations.py:56-68 | after deduplication exactly the retained rows survive, in order, each refined |
| CleanedRows.CleanFrameSteps | include/transformations.py:53-68 | when cleaning succeeds there is at most one `transaction_ts` column and the result is the timestamp step applied to the converted and completed rows |
| CleanedRows.CleanFrameRows | include/transformations.py:53-68 | the cleaned rows are exactly the deduplicated input rows that are retained, each refined |
| CleanedRows.CleanFrameMembers | include/transformations.py:53-68 | every retained input row appears refined in the output, and every output row is the refinement of some retained input row |
| CleanedRows.CleanFrameInOrder | include/transformations.py:53-68 | the kept rows are an order-preserving subsequence of the input, all retained, and the output is their refinement |
| CleanedRows.RefinedRowIsClean | include/transformations.py:56-68 | a retained row refines to a row with present identifiers, a numeric amount, a known status and, with timestamps, a parsed timestamp whose date is the `transaction_date` |
| CleanedRows.CleanFrameRowsClean | include/transformations.py:62-68 | every row of the cleaned artifact meets those invariants |
| CleanedRows.DedupBeforeNormalisation | include/transformations.py:54-60 | two distinct input rows that are both kept and refine to the same row make the output hold a repeated row |
| Bronze.PartitionPath | include/transformations.py:40-41 | the input and output paths lie in their directory: each is that directory or one level below it, and a file of its own there whenever its template mentions the key |
| Bronze.Exists | include/transformations.py:43 | the empty path (the working directory) always exists, and a path that does not exist is not a file and cannot be read |
| Bronze.MakeDirs | include/transformations.py:48 | `mkdir(parents=True, exist_ok=True)` fails exactly when some directory on the path is a file; otherwise it adds the missing directories and leaves files alone |
| Bronze.ReadCsv | include/transformations.py:50 | reading succeeds exactly on a CSV file that parses, and yields its frame |
| Bronze.WriteParquet | include/transformations.py:70 | writing succeeds exactly when the path is not a directory, its directory exists and no two columns share a name, and then overwrites that one file only |
| Bronze.CleanDailyTransactions | include/transformations.py:30-72 | every outcome in terms of the disk: "not found" exactly when the input path does not exist, naming it and leaving the disk untouched; otherwise a file on the way to the clean directory gives `MkdirFailed` with the disk untouched; an input that is not a parseable CSV gives `ReadFailed`; a cleaning error is returned as is; an output path that is a directory, or a cleaned header with a repeated name (headers that collide after normalisation), gives `WriteFailed`; in each of these the files are unchanged. In every other case the parquet artifact is written at the output path, the clean directory exists, and the run returns that path |
| Bronze.MakeDirsConsistent | include/transformations.py:48 | creating directories keeps the file system well formed |
| Bronze.WriteParquetConsistent | include/transformations.py:70 | writing the artifact keeps the file system well formed |
| Bronze.CleanPreservesConsistency | include/transformations.py:30-72 | a run, whatever its outcome, leaves a well-formed file system well formed |
| Bronze.MissingColumnIsHardError | include/transformations.py:62 | a required column absent from a readable extract makes the run fail with a column error, not "not found", and writes nothing |
| Bronze.EmptyRawNameIsReadFailure | include/transformations.py:40-50 | a raw template that formats to an empty or `.` name points the input at the raw directory itself, so the run fails on the read instead of reporting "not found" |
| Bronze.RerunIsIdempotent | include/transformations.py:30-72 | re-running a successful run on its own result returns the same outcome and the same disk |
| Bronze.DefaultPathsDiffer | include/transformations.py:10-11 | with the default templates, the raw file and the cleaned file are never the same path |
| Bronze.PartitionCorrelation | include/transformations.py:39-41 | both default file names embed the same key at characters 13 to 20, and that key reads back as the run date |
| Bronze.PartitionPathsDistinct | include/transformations.py:39-41 | different run dates give different paths for any template that mentions the key |
| Frame.CountOnce | include/transformations.py:56-60 | a name at a position no other column shares occurs exactly once |
| Scenarios.KeyOf20250115 | include/transformations.py:39 | 15 January 2025 has the key `20250115` |
| Scenarios.MissingPartitionIsSkipped | include/transformations.py:43-46 | with no raw extract for that date, the run reports the input path as not found and the disk is unchanged |
| Scenarios.HeaderIsNormal | include/transformations.py:53 | the canonical header is already normal |
| Scenarios.CompletedIsNormalised | include/transformations.py:21-27 | `Completed` and `completed` both normalise to `completed` |
| Scenarios.DuplicateAndBadAmount | include/transformations.py:50-62 | the duplicated row collapses, the `n/a` amount row is dropped, and the survivor has the amount 12.5 and the status `completed` |
| Scenarios.CaseVariantsBothSurvive | include/transformations.py:54-60 | rows differing only in the case of the status both survive, so the artifact holds the same cleaned row twice |
| Scenarios.MissingStatusFails | include/transformations.py:62 | an extract without a status column fails with exactly that column reported missing |

## Left out

- Scheduling and the dbt runs. The DAG wiring, the silver and gold dbt runs,
  the quality gate and the orchestrator are outside the bronze cleaning step.
- Parser semantics. `pd.to_numeric` and `pd.to_datetime` (with
  `errors="coerce"`) are parameters (`Cleaning.Parsers`): two take one
  string to an optional value, and one takes a number, read as nanoseconds
  since 1970-01-01, to an optional timestamp. Which values they accept is not
  modelled. Format inference across a whole column, where `to_datetime`
  picks one format for every cell, is not modelled either.
- Reading the CSV. `pd.read_csv` type inference is not modelled, nor is
  pandas renaming duplicate headers (`a`, `a.1`). A file's parsed frame is
  part of the disk (`Bronze.Content`), and an unparseable file is a read
  failure.
- Cell types. Cells are text, numbers, timestamps, dates or missing.
  `pd.read_csv` also infers boolean columns; booleans are not modelled.
- `Cleaning.NormalizeStatus`: a status column that `pd.read_csv` infers as
  numeric or boolean with no missing cell keeps a non-text dtype after
  `fillna("")`, and `.str` raises `AttributeError`, a hard failure. The model
  instead maps each non-text cell to missing, which matches pandas only when
  the column also holds text or a missing cell; such a run drops every row
  where `transformations.py` fails.
- `Partition.PartitionKey`: the year is always zero-padded to four digits.
  Some platforms leave years below 1000 unpadded under `%Y`.
- `Text.Lower`: only ASCII letters are lower-cased. Python's `str.lower`
  also folds other Unicode letters, some of them into several characters.
- `Paths.Format`: templates are literal text around `{ds_nodash}`. Other
  `str.format` fields, escaped braces, and templates holding `/` are not
  modelled.
- `Paths.Join`: a file name `..` is kept as an ordinary segment. pathlib also
  keeps it, but the operating system resolves it to the parent directory. So
  for a template that formats to `..`, `transformations.py` finds an existing
  directory and fails reading it, where the model reports the input as not
  found. On the output side the model writes a file named `..` where the
  write fails.
- File-system details. Symbolic links, permissions and write errors other
  than a missing directory, a directory in the way or repeated column names
  are not modelled. A
  parquet file at the input path is treated as unreadable.
- Exceptions. `FileNotFoundError` and the pandas exceptions are modelled as
  outcome values (`Bronze.Outcome`), not as exceptions.
