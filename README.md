# Vehicle-test CSV cleaning and loading, in Dafny

This project models the two stages of a pipeline for vehicle-test (MOT) CSV data. The pipeline is written as calls on pandas DataFrames. The model states the effect of each call on an abstract table, not pandas itself.

- **Cleaning batch** (`process_all_csv_files`, DataLoadingAndCleaning.py):
  - takes the `.csv` names of a folder in listing order;
  - reads each file up to a row cap and fills its missing cells with a placeholder;
  - writes the result as `cleaned_<name>`;
  - turns a failing file into one line of the error log and carries on.
- **Loader and validators** (LoadDataStructure.py):
  - `load_cleaned_data` reads every `.csv` file of the cleaned folder in full and skips those that fail. It stacks the tables on the union of their columns and drops exact-duplicate rows, keeping the first occurrence.
  - `load_and_validate_data` then runs three validators in a fixed order:
    - `validate_dates` coerces the date columns;
    - `validate_numeric_columns` bounds three numeric columns and imputes the median;
    - `standardize_categorical_columns` strips, upper-cases and normalises six categorical columns.

## Data model

- A cell is `Missing`, a string, a number (`real`) or a date (a day number).
- A row is a `map` from column name to cell; a column the row lacks reads as `Missing`.
- A `Frame` is an ordered column list plus a sequence of rows. The column list matters: a validator acts on a column the frame has even when every cell in it is missing, and leaves alone a column the frame lacks.
- `Table.DataFrame` is a class with `columns` and `rows` fields. The validators update it in place through `Assign`, which models `df[c] = series`.
- Each validator method is proved equal to a specification function on frames. The properties are then proved about those functions.

Modules:

| module | contents |
|---|---|
| `Wrappers` | `Option` and `Result` |
| `Sequences` | first-occurrence deduplication (`drop_duplicates`) |
| `Text` | `str.strip` and `str.upper` |
| `Stats` | sorting and the median |
| `Table` | cells, rows, frames, column updates and the `DataFrame` class |
| `Files` | folder listings, the `.csv` filter, `read_csv` outcomes and the fatal errors |
| `DataLoadingAndCleaning` | the cleaning batch |
| `Validators` | the three validators |
| `LoadDataStructure` | concatenation, the loader and the orchestrator |
| `Scenarios` | worked examples on concrete inputs |

## Model

| member | source | states |
|---|---|---|
| `Files.ReadCsvCapped` | DataLoadingAndCleaning.py:44 | A read capped at n fails exactly when the file is unreadable, n is negative, or a malformed line comes before the cap. Otherwise it has the file's header and its first min(rows, n) rows. |
| `Files.CsvFilesMembers` | DataLoadingAndCleaning.py:31 | The kept names are exactly the listed names that end in `.csv`, case-sensitively, in listing order. |
| `Files.CsvFilesAppend` | LoadDataStructure.py:73 | Filtering a concatenated listing gives the two filtered listings concatenated, so order is preserved. |
| `DataLoadingAndCleaning.FillNaSpec` | DataLoadingAndCleaning.py:47 | After filling, no cell is missing and every non-missing cell is unchanged. Columns and row count are kept. Filling again changes nothing. |
| `DataLoadingAndCleaning.CleanFileSpec` | DataLoadingAndCleaning.py:42-62 | A file fails exactly when its capped read fails, and then yields only the line `Error processing file <name>: <msg>`. Otherwise it is written as `cleaned_<name>` with the file's header and min(rows, cap) rows. Each written cell is the file's cell in the same row and column, or the placeholder where that cell was missing, so no cell is missing. |
| `DataLoadingAndCleaning.CleanAllAppend` | DataLoadingAndCleaning.py:37-62 | A failure never stops the batch: the batch over a + b is the batch over a followed by the batch over b, for outputs and log lines alike. |
| `DataLoadingAndCleaning.CleanAllComplete` | DataLoadingAndCleaning.py:37-62 | No file is lost: each `.csv` file's cleaned output or log line is in the batch. |
| `DataLoadingAndCleaning.CleanAllAccounts` | DataLoadingAndCleaning.py:37-62 | There are as many outputs and log lines together as `.csv` files. Every output is some file's cleaned result, has no missing cell and has at most `rows_to_read` rows. Every log line is some file's failure. |
| `DataLoadingAndCleaning.ProcessAllCsvFiles` | DataLoadingAndCleaning.py:5-62 | A missing folder raises `FolderNotFound` before any file is handled. Otherwise the result is the batch over the `.csv` names in listing order. |
| `Files.MessageIdentifiesError` | LoadDataStructure.py:70-94 | `Files.Message` gives the three fatal messages word for word, and two errors with the same message are the same error on the same folder. |
| `Sequences.DropDuplicatesElements` | LoadDataStructure.py:101-104 | After deduplication no two rows are equal, and the same rows are present as before. |
| `Sequences.DropDuplicatesKeepsFirstOrder` | LoadDataStructure.py:101-104 | Kept rows appear in the order of their first occurrence in the input. |
| `Sequences.DropDuplicatesCount` | LoadDataStructure.py:101-104 | The result has one row per distinct input row, so it removes exactly the repeats. |
| `Sequences.DropDuplicatesOfDistinct` | LoadDataStructure.py:101-104 | A table without repeats is left unchanged. |
| `Sequences.DropDuplicatesIdempotent` | LoadDataStructure.py:101-104 | Deduplicating twice is the same as deduplicating once. |
| `Sequences.DropDuplicatesAbsorbs` | LoadDataStructure.py:101-104 | Appending rows that already occur does not change the deduplicated result. |
| `Sequences.DropDuplicatesOfRepeat` | LoadDataStructure.py:101-104 | A distinct table stacked on itself deduplicates back to itself. |
| `LoadDataStructure.UnionColumns` | LoadDataStructure.py:97 | The stacked table's columns hold every loaded table's columns, each once. |
| `LoadDataStructure.AddColumnsOrder` | LoadDataStructure.py:97 | The columns a table adds to the stacked table are its own columns that were not there yet, in the table's own column order. |
| `LoadDataStructure.UnionColumnsExact` | LoadDataStructure.py:97 | The stacked table has no column outside the loaded tables' columns. The union of the earlier tables' columns is a prefix of it. After that prefix come the last table's new columns, in that table's order. So columns keep their order of first appearance. |
| `LoadDataStructure.AlignedRowsAt` | LoadDataStructure.py:97 | Row i of table k sits at position (rows of tables before k) + i of the stack. |
| `LoadDataStructure.ConcatSpec` | LoadDataStructure.py:97 | The stack has as many rows as all the tables together. A row keeps its table's cells, reads missing in the columns its table lacks, and has an entry for exactly the union's columns. |
| `LoadDataStructure.LoadedFramesAppend` | LoadDataStructure.py:80-91 | Loading two parts of a listing and joining the tables gives the tables of the whole listing, in listing order. |
| `LoadDataStructure.LoadedFramesEmpty` | LoadDataStructure.py:80-94 | No table loads exactly when every `.csv` file fails to load. |
| `LoadDataStructure.LoadCleanedErrors` | LoadDataStructure.py:70-94 | The loader fails when the folder is missing, when no name ends in `.csv`, or when every `.csv` file fails to load, and for no other reason. |
| `LoadDataStructure.LoadCleanedResult` | LoadDataStructure.py:80-104 | A successful load has exactly the columns of the loaded tables. Its rows are exactly the distinct rows of the stacked tables, each once, in first-occurrence order. The stack holds the sum of the tables' row counts. |
| `LoadDataStructure.LoadCleanedDeduplicated` | LoadDataStructure.py:101-104 | The loaded table has no duplicates left to drop. |
| `LoadDataStructure.LoadCleanedData` | LoadDataStructure.py:66-106 | The method, with its loop over the files, returns what the loader specification says. |
| `Validators.DatesValidatedSpec` | LoadDataStructure.py:26-32 | Each cell of a present date column becomes a date or missing. A date is kept. A cell becomes missing exactly when it was missing or does not parse. Every other column, and an absent date column, is unchanged. |
| `Validators.ValidateDates` | LoadDataStructure.py:26-32 | The in-place method leaves the frame equal to the date specification applied to its old value. |
| `Stats.Sort` | LoadDataStructure.py:47 | The values in ascending order, as a permutation of the input: the order the median is read from. |
| `Stats.Median` | LoadDataStructure.py:47 | The median is undefined exactly for an empty set of values. |
| `Stats.MedianWithin` | LoadDataStructure.py:47 | The median of values that all lie in [lo, hi] lies in [lo, hi]. |
| `Stats.MedianSplitsValues` | LoadDataStructure.py:47 | At least half of the values are at most the median, and at least half are at least the median. |
| `Validators.NumericCellsSpec` | LoadDataStructure.py:42-47 | Every resulting cell is missing or within the inclusive bounds. An in-range cell, ends included, is kept. Every other cell becomes the median of the in-range values. When no value is in range that median is undefined and the cell stays missing. So a column with both in-range values and missing cells gets its missing cells filled. |
| `Validators.NumericCellsOfValidated` | LoadDataStructure.py:42-47 | A column of in-range numbers and missing cells is left alone when it is either all missing or has no missing cell. |
| `Validators.NumericCellsIdempotent` | LoadDataStructure.py:42-47 | Validating a numeric column twice is the same as validating it once. |
| `Validators.NumericValidatedSpec` | LoadDataStructure.py:34-49 | Each present bounded column (`test_mileage` 0–1000000, `cylinder_capacity` 0–10000, `test_class_id` 1–7) is that column validated cell by cell. It holds only missing cells and in-bound numbers. In-bound numbers are kept. Every other cell becomes the median of the column's in-bound numbers, or stays missing when there are none. Every other column, and an absent bounded column, is unchanged. |
| `Validators.NumericValidatedIdempotent` | LoadDataStructure.py:34-49 | Running numeric validation twice is the same as running it once. |
| `Validators.ValidateNumericColumn` | LoadDataStructure.py:43-47 | The three in-place assignments for one present column (coerce, blank out-of-range numbers, fill with the median) leave that column validated and every other column as it was. |
| `Validators.ValidateNumericColumns` | LoadDataStructure.py:34-49 | The in-place method, looping over the bounded columns, leaves the frame equal to the numeric specification applied to its old value. |
| `Validators.CategoricalStagesCompose` | LoadDataStructure.py:58-62 | The three column assignments (stringify and strip, upper-case, replace nulls) compose to standardising each cell. |
| `Validators.StandardizeCellSpec` | LoadDataStructure.py:58-62 | A standardised cell is a string with no surrounding whitespace, no lower-case ASCII letter and no null spelling. It is "N/A" when the stripped, upper-cased text is a null spelling, and that text otherwise. A missing cell becomes "N/A". |
| `Validators.StandardizeCellIdempotent` | LoadDataStructure.py:58-62 | Standardising a standardised cell changes nothing. |
| `Validators.StandardizedSpec` | LoadDataStructure.py:51-64 | Each present categorical column is its old cells standardised. Every other column, and an absent categorical column, is unchanged. |
| `Validators.StandardizedIdempotent` | LoadDataStructure.py:51-64 | Standardising a frame twice is the same as standardising it once. |
| `Validators.StandardizeCategoricalColumn` | LoadDataStructure.py:56-62 | The three in-place assignments for one present column (stringify and strip, upper-case, replace null spellings) leave that column standardised and every other column as it was. |
| `Validators.StandardizeCategoricalColumns` | LoadDataStructure.py:51-64 | The in-place method leaves the frame equal to the categorical specification applied to its old value. |
| `Text.StripSlice` | LoadDataStructure.py:58 | `strip` keeps one contiguous slice of the text, cut only at whitespace, with no whitespace left at either end. |
| `Text.StripOfStripped` | LoadDataStructure.py:58 | Stripping text that has no surrounding whitespace changes nothing. |
| `Text.UpperFacts` | LoadDataStructure.py:60 | Upper-casing leaves no lower-case ASCII letter, keeps whitespace where it was, and is idempotent. |
| `Table.ApplyColumnsEffect` | LoadDataStructure.py:42-62 | A loop over listed columns changes exactly the listed columns the frame has, each by the column's own step, and leaves every other column as it was. |
| `Table.DataFrame.Assign` | LoadDataStructure.py:58-62 | `df[c] = series` replaces column c, adding it to the columns when new, and changes no other column. |
| `LoadDataStructure.ValidatedSpec` | LoadDataStructure.py:17-24 | After the three validators, date columns hold dates and missing cells. Bounded columns hold missing cells and in-bound numbers. Categorical columns hold stripped strings that are not null spellings. Every other column is as loaded. |
| `LoadDataStructure.LoadAndValidateData` | LoadDataStructure.py:6-24 | Loader errors propagate unchanged. Otherwise the result is the loaded frame passed, in place, through the three validators in order. |
| `Scenarios.MileageFilledWithMedian` | LoadDataStructure.py:44-47 | Mileages 500000, 2000000 and a blank all become 500000. |
| `Scenarios.ClassIdBoundsInclusive` | LoadDataStructure.py:45-47 | Class ids 1 and 7 are kept, and 9 becomes their median, 4. |
| `Scenarios.PaddedNullIsPlaceholder` | LoadDataStructure.py:58-62 | The cell " null " standardises to "N/A". |
| `Scenarios.UpperCaseSuffixIsNotCsv` | LoadDataStructure.py:73-76 | A folder holding only `notes.txt` and `DATA.CSV` fails with the no-CSV error. |

## Left out

- **CSV parsing by `pd.read_csv`** (quoting, the backslash escape, dtype inference): a foreign library. A file's parse is an input, `Files.FileContent`. It gives either a failure before any data, or the well-formed rows plus the error raised by the next line, if any.
- **The filesystem:**
  - The folder's existence and `os.listdir` are one `Option` listing, where None means the folder is missing.
  - `os.makedirs`, `to_csv` and the append to `processing_errors.log` are not performed. The batch returns the files it would write and the log lines it would append.
  - The `output_folder` path is not modelled; only the output file name is.
  - `os.path.join` is not modelled; files are read by name.
- **`to_csv` failures:** a failed write is not modelled. In the source it is caught like a read failure, so the model covers read failures only.
- **Console output:** all `print` output, the `verbose` flag, and the "Removed N duplicate rows" and shape messages are left out. The number of removed rows is still stated, by `Sequences.DropDuplicatesCount`.
- **pandas parsing and printing:** date inference in `pd.to_datetime`, the numeric grammar of `pd.to_numeric`, and `astype(str)` for non-string cells are left out. They are the parameters `Parsers.date`, `Parsers.number` and `Parsers.text`. `astype(str)` of a missing cell is modelled as `"nan"`.
- **Numbers:** numbers are exact reals. Floating-point rounding of the median, and NaN as a value, are not modelled. A missing cell stands for NaN/NaT.
- **Upper-casing:** `Text.Upper` upper-cases ASCII letters only. Python's `str.upper` also maps non-ASCII letters.
- **Whitespace:** `Text.IsSpace` is Python's whitespace set for `str.strip` (ASCII controls 9–13 and 28–32, U+0085, U+00A0, U+1680, U+2000–U+200A, U+2028, U+2029, U+202F, U+205F, U+3000).
- **Column dtypes:** pandas may keep a column's number type after a fill. The model has one cell type for all columns.
- **Not part of this model:** the `__main__` report at LoadDataStructure.py:108-133 and the module-level call at DataLoadingAndCleaning.py:64-68.
- **Default arguments:** the defaults of `process_all_csv_files` (`rows_to_read=50000`, `placeholder="N/A"`, DataLoadingAndCleaning.py:5) are not modelled. The caller of `DataLoadingAndCleaning.ProcessAllCsvFiles` passes both values.
- **Aliasing:** only the validators' in-place update of one frame is modelled, through `Table.DataFrame`. The loader and the batch build new values, as the source does.

### Choices the code makes

- The `.csv` match is case-sensitive, as `f.endswith('.csv')` is, so `DATA.CSV` is not picked up.
- When a bounded column has no in-range value, the source's median is NaN and the fill does nothing, so those cells stay missing. The model keeps that policy. `Validators.NumericCellsSpec` states it.
