# Olist ingestion core in Dafny

This project models the ingestion core of the Olist e-commerce pipeline and
proves properties of the model. The core has three parts.

- **The uploader** (`ingestion/upload_to_s3.py`) pushes every `.csv` file of a
  local directory to an S3 bucket. Each key is the prefix without its
  trailing slashes, then `/`, then the file name (the bare file name when
  the prefix is empty).
- **The loader** (`ingestion/s3_to_rds.py`) lists the `.csv` objects under
  `raw/`, maps each basename to its key, and plans the known files in
  `LOAD_ORDER`. For each planned file in turn it:
  - stops with False when the target table does not exist;
  - downloads the object;
  - skips the file when the CSV row count equals the table's row count;
  - otherwise loads it: `TRUNCATE ... CASCADE` in replace mode, then
    `INSERT ... ON CONFLICT DO NOTHING` with NaN turned into NULL.

  It returns True only after the last file. It returns False without any
  CSV, before any connection is opened; and, once at least one CSV key is
  found and the connection is open, at a missing table or on an exception
  inside the loop. An opened connection is closed on every path.
- **The data-quality suite** (`tests/test_data_quality.py`) runs 25 checks
  against the warehouse. Each check adds one to `passed`, `failed` or
  `warnings`. The suite then reports a success rate and exits with status 1
  exactly when something failed.

Files and modules:

- `names.dfy` (`Names`): the `.csv` suffix filter and `os.path.basename`.
- `catalog.dfy` (`Catalog`): the nine raw tables, `CSV_TABLE_MAP`,
  `LOAD_ORDER`, the foreign-key graph and the tables a cascading truncate
  reaches.
- `tables.dfy` (`TableOps`): rows, NaN to NULL, the insert with conflict
  skipping, the truncate, one CSV load as a function, and `check_data_match`.
- `plan.dfy` (`LoadPlan`): the listing, `key_map`, `files_to_process`, the
  per-file decision, and the whole run as a function. Also the run's
  outcome and the idempotence of a repeat run.
- `database.dfy` (`RdsLoader`): a `Database` class whose methods run the
  same steps in place. Each method is proved to reach exactly the state the
  corresponding function describes.
- `upload.dfy` (`S3Upload`): `rstrip('/')`, the key rule and its
  properties, a `Bucket` class and the upload loop.
- `quality.dfy` (`DataQuality`): verdicts and counters, the
  `DataQualityTester` class with its six checks, and the summary.

The main results:

- `LoadPlan.RepeatLoadIsIdempotent`: a second run over the same objects and
  mode returns the same result and leaves every table as the first run
  left it. This holds in replace mode, where a cascade can empty child
  tables that the same run then reloads, and in append mode.
- `LoadPlan.RunOkIffAllProcessable`: the run succeeds exactly when every
  planned file can be processed.
- `LoadPlan.RunStopsAtFirstFailure`: at the first failing file the run
  stops with the earlier loads still applied.
- `S3Upload.S3KeyBasename`: the uploader's keys are found again by the
  loader's basename map.
- `DataQuality.ExitZeroIffClean`: a fresh run of the suite exits with 0
  exactly when the warehouse passes every check that can fail.

## Model

| member | source | states |
|---|---|---|
| Names.CsvOnly | ingestion/upload_to_s3.py:49 | the filtered list holds exactly the names ending in ".csv" and is no longer than the input |
| Names.CsvOnlyAppend | ingestion/s3_to_rds.py:108-113 | filtering a concatenation is concatenating the filtered parts, so the listing order is kept |
| Names.CsvOnlyKeepsAllCsv | ingestion/upload_to_s3.py:49 | a list made only of ".csv" names passes the filter whole |
| Names.Basename | ingestion/s3_to_rds.py:268 | the basename has no '/', is a suffix of the path, and is preceded by '/' when shorter than the path |
| Names.BasenameUnique | ingestion/s3_to_rds.py:268 | any suffix with those three properties is the basename |
| Catalog.LoadOrderMatchesTableMap | ingestion/s3_to_rds.py:54-89 | LOAD_ORDER has nine distinct entries, each a CSV_TABLE_MAP key at its table's position, and every map key is in LOAD_ORDER |
| Catalog.Children | ingestion/s3_to_rds.py:66-89 | each table referencing a given table by a foreign key is loaded after it in LOAD_ORDER |
| Catalog.Cascade | ingestion/s3_to_rds.py:238 | the tables a cascading truncate empties include the table itself and are closed under "is referenced by" |
| Catalog.CascadeIsClosure | ingestion/s3_to_rds.py:238 | the cascade set is contained in every set that holds the table and is closed under "is referenced by", so it is the least such set |
| Catalog.CascadeFollowsLoadOrder | ingestion/s3_to_rds.py:66-89 | every other table a cascading truncate reaches comes later in LOAD_ORDER |
| TableOps.ToRecord | ingestion/s3_to_rds.py:224-232 | a record has one value per cell; a value is NULL exactly when the cell is NaN, and other cells keep their text |
| TableOps.ToRecords | ingestion/s3_to_rds.py:232 | one record per CSV row, in order |
| TableOps.InsertIgnoring | ingestion/s3_to_rds.py:240-242 | the insert never shrinks the table and adds at most one row per record |
| TableOps.InsertKeepsExisting | ingestion/s3_to_rds.py:240-242 | the insert never removes or reorders existing rows |
| TableOps.InsertAddsFreshRecords | ingestion/s3_to_rds.py:240-242 | every added row is one of the records, with a key that was not in the table |
| TableOps.InsertCoversRecordKeys | ingestion/s3_to_rds.py:240-242 | afterwards the table's keys are its old keys together with every record's key |
| TableOps.InsertKeepsKeysUnique | ingestion/s3_to_rds.py:240-242 | a table with unique keys keeps them unique, also when the batch repeats a key |
| TableOps.InsertAddsDistinctKeys | ingestion/s3_to_rds.py:240-242 | the rows an insert adds have pairwise different keys, whatever the table held before |
| TableOps.FirstFreshRecordIsKept | ingestion/s3_to_rds.py:240-242 | a record is stored when its key is absent from the table and from every earlier record, so of several records sharing a key the first is kept |
| TableOps.InsertPresentKeysIsNoop | ingestion/s3_to_rds.py:240-242 | inserting records whose keys are all present changes nothing |
| TableOps.InsertIgnoringIdempotent | ingestion/s3_to_rds.py:240-242 | inserting the same batch a second time changes nothing |
| TableOps.Truncated | ingestion/s3_to_rds.py:236-238 | the truncated table and every table in its cascade become empty, tables outside the cascade keep their rows, and no table appears or disappears |
| TableOps.LoadEffect | ingestion/s3_to_rds.py:204-245 | a load never adds or drops a table, an empty CSV changes nothing, and tables outside the cascade are untouched |
| TableOps.LoadWithTruncate | ingestion/s3_to_rds.py:231-242 | in replace mode the old rows are gone; the table holds CSV records with unique keys covering every CSV key, and of CSV records sharing a key the first is stored; cascaded tables become empty and all other tables are untouched |
| TableOps.LoadWithoutTruncate | ingestion/s3_to_rds.py:231-242 | in append mode the old rows stay as a prefix; new rows are CSV records with fresh keys, and of fresh CSV records sharing a key the first is added, so added rows have pairwise different keys; the keys become the union; unique keys stay unique; other tables are untouched |
| TableOps.LoadSparesEarlierTables | ingestion/s3_to_rds.py:236-238 | loading a table never changes a table earlier in LOAD_ORDER, even through the cascade |
| TableOps.CheckDataMatch | ingestion/s3_to_rds.py:179-201 | the result matches iff the CSV is readable, the table exists and the counts are equal; it carries both counts then, and (False, 0, 0) when a count cannot be taken |
| LoadPlan.ListRawCsvKeys | ingestion/s3_to_rds.py:102-114 | the nested loop returns exactly the ".csv" keys of all pages, in listing order |
| LoadPlan.CsvKeysSpec | ingestion/s3_to_rds.py:107-114 | a key is listed iff it ends in ".csv" and occurs on some page; a further page only appends its own ".csv" keys |
| LoadPlan.FlattenHolds | ingestion/s3_to_rds.py:108-109 | the keys walked are exactly the keys of all pages |
| LoadPlan.KeyMap | ingestion/s3_to_rds.py:268 | every key's basename is mapped, and to a listed key with that basename |
| LoadPlan.KeyMapLastWins | ingestion/s3_to_rds.py:268 | among keys sharing a basename the last one listed wins |
| LoadPlan.LoadOrderIsPlanned | ingestion/s3_to_rds.py:76-89 | LOAD_ORDER names mapped files with strictly increasing positions |
| LoadPlan.KeepListed | ingestion/s3_to_rds.py:271 | filtering a planned order keeps it planned and keeps exactly the files that have a key |
| LoadPlan.FilesToProcess | ingestion/s3_to_rds.py:271 | the plan holds exactly the LOAD_ORDER files with a key, in LOAD_ORDER, each once |
| LoadPlan.Decide | ingestion/s3_to_rds.py:283-319 | a file aborts iff its table is missing, its download fails or its CSV is unreadable; it is skipped iff the counts are equal; otherwise its rows are loaded |
| LoadPlan.After | ingestion/s3_to_rds.py:319 | processing a file keeps the set of tables |
| LoadPlan.RunFiles | ingestion/s3_to_rds.py:282-324 | the loop never creates or drops a table |
| LoadPlan.LoadAll | ingestion/s3_to_rds.py:250-333 | the whole run never creates or drops a table |
| LoadPlan.RunOkIffAllProcessable | ingestion/s3_to_rds.py:282-324 | the loop returns True iff every planned file's table exists and its object downloads and parses |
| LoadPlan.LoadAllOutcome | ingestion/s3_to_rds.py:258-331 | with no ".csv" key the result is False with nothing changed; otherwise True iff every planned file can be processed |
| LoadPlan.RunStopsAtFirstFailure | ingestion/s3_to_rds.py:292-296 | at the first file that cannot be processed the run returns False with exactly the state the earlier files produced |
| LoadPlan.RunSparesEarlierTables | ingestion/s3_to_rds.py:282-319 | a table earlier than every planned file keeps its rows through the run |
| LoadPlan.LoadsAreNotUndone | ingestion/s3_to_rds.py:282-319 | what processing the first file does to its table is what the table holds at the end of the run |
| LoadPlan.EmptiedLiesAhead | ingestion/s3_to_rds.py:238 | every table a run empties by cascade lies after a position preceding all planned files |
| LoadPlan.SecondVisitKeepsTable | ingestion/s3_to_rds.py:302-319 | processing a file again on the table its first processing produced leaves that table as it is, and truncates only if the first processing did |
| LoadPlan.RerunAgrees | ingestion/s3_to_rds.py:302-319 | rerunning from a state that differs from the run's result only on tables that were empty or emptied by cascade gives the same result |
| LoadPlan.LoadWithTruncateFrame | ingestion/s3_to_rds.py:238 | in replace mode a non-empty load empties exactly the cascaded tables besides its own |
| LoadPlan.RepeatLoadIsIdempotent | ingestion/s3_to_rds.py:298-319 | a second run on the first run's result returns the same result and the same tables |
| RdsLoader.Database.Connect | ingestion/s3_to_rds.py:136-149 | opening a connection changes no table |
| RdsLoader.Database.Close | ingestion/s3_to_rds.py:333 | closing a connection changes no table |
| RdsLoader.Database.TruncateCascade | ingestion/s3_to_rds.py:236-238 | the table and every table it cascades to become empty |
| RdsLoader.Database.InsertOnConflictDoNothing | ingestion/s3_to_rds.py:240-242 | the record-by-record loop leaves the table as the conflict-skipping insert of the batch, and no other table changes |
| RdsLoader.Database.LoadCsvIntoTable | ingestion/s3_to_rds.py:204-245 | an unreadable CSV raises with nothing changed; otherwise the database becomes the load of the CSV |
| RdsLoader.Database.ProcessFile | ingestion/s3_to_rds.py:283-319 | one iteration aborts exactly as the decision says, and otherwise leaves the state the decision prescribes |
| RdsLoader.Database.ProcessFiles | ingestion/s3_to_rds.py:282-324 | the loop returns and leaves what the run over the planned files gives |
| RdsLoader.Database.LoadAllRawTables | ingestion/s3_to_rds.py:250-333 | the result and the final tables are those of the whole run, and every opened connection is closed |
| S3Upload.RStripSlashes | ingestion/upload_to_s3.py:60 | the result is a prefix of the input followed only by slashes, and does not end in '/' |
| S3Upload.RStripSlashesUnique | ingestion/upload_to_s3.py:60 | those properties determine the result |
| S3Upload.S3Key | ingestion/upload_to_s3.py:60 | the key rule as a plain function; its properties are the five lemmas below |
| S3Upload.S3KeyEndsWithFile | ingestion/upload_to_s3.py:60 | the key ends in the file name, after a '/' when a prefix is given |
| S3Upload.S3KeyExamples | ingestion/upload_to_s3.py:60 | "raw/", "raw//" and "raw" give "raw/f"; "" gives "f"; "///" gives "/f" |
| S3Upload.S3KeyIgnoresTrailingSlashes | ingestion/upload_to_s3.py:60 | one more trailing slash on a non-empty prefix gives the same key |
| S3Upload.S3KeyInjective | ingestion/upload_to_s3.py:60 | for a fixed prefix, equal keys mean equal file names |
| S3Upload.S3KeyBasename | ingestion/upload_to_s3.py:60 | the basename of the key of a file name without '/' is that file name |
| S3Upload.KeysFor | ingestion/upload_to_s3.py:58-60 | one key per file, in order |
| S3Upload.PutAll | ingestion/upload_to_s3.py:58-67 | uploads never delete an object, and every new key is the key of an uploaded file that was not refused |
| S3Upload.PutAllSpec | ingestion/upload_to_s3.py:58-67 | after the uploads every file whose key is not refused is stored under its key with its own contents; every other key keeps what it had |
| S3Upload.Bucket.UploadFile | ingestion/upload_to_s3.py:63-67 | an upload is logged; it fails iff the key is refused, and otherwise stores the contents |
| S3Upload.UploadEach | ingestion/upload_to_s3.py:58-67 | each file is attempted once, in order, and a failure does not stop the loop |
| S3Upload.UploadDirectoryToS3 | ingestion/upload_to_s3.py:40-67 | exactly the ".csv" entries are attempted, once each, in listing order; none when there is no such entry |
| DataQuality.Record | tests/test_data_quality.py:60-67 | one verdict raises exactly one counter, by exactly one |
| DataQuality.TallyFrom | tests/test_data_quality.py:209-214 | the total grows by the number of verdicts, counters never decrease, and a counter moves iff a verdict of its kind occurs |
| DataQuality.TallyFromAppend | tests/test_data_quality.py:209-214 | counting two runs of checks is counting them one after the other |
| DataQuality.RowCountVerdict | tests/test_data_quality.py:62-67 | a table passes iff its count is positive, and never warns |
| DataQuality.ZeroCountVerdict | tests/test_data_quality.py:89-94 | a check passes iff the offending count is zero, and never warns |
| DataQuality.ReviewScoreVerdict | tests/test_data_quality.py:140-145 | the review-score check passes iff no score is out of range, and never fails |
| DataQuality.RowCountVerdicts | tests/test_data_quality.py:53-67 | one row-count verdict per table, nine in all |
| DataQuality.NullVerdicts | tests/test_data_quality.py:74-94 | one NULL verdict per key column, seven in all |
| DataQuality.ForeignKeyVerdicts | tests/test_data_quality.py:96-127 | two verdicts that never warn, with a failure iff orders lack a customer or items lack an order |
| DataQuality.RangeVerdicts | tests/test_data_quality.py:129-158 | two verdicts with a warning iff review scores are out of range and a failure iff prices are negative |
| DataQuality.DuplicateVerdicts | tests/test_data_quality.py:165-182 | one duplicate verdict per key, four in all |
| DataQuality.DateVerdicts | tests/test_data_quality.py:184-200 | one verdict that never warns, a failure iff some order was delivered before it was bought |
| DataQuality.AllVerdicts | tests/test_data_quality.py:209-214 | the six checks' verdicts in the order run_all_tests calls them; their properties are FreshRunTotal, OnlyReviewScoresWarn and NoFailureIffClean |
| DataQuality.SuccessRate | tests/test_data_quality.py:225 | the rate lies in [0, 100]; it is 0 without passes and 100 with passes and no failures |
| DataQuality.ExitStatus | tests/test_data_quality.py:230-235 | the status is 0 or 1, and 1 iff some check failed |
| DataQuality.FreshRunTotal | tests/test_data_quality.py:53-82 | a run makes 25 checks, so fresh counters total 25 |
| DataQuality.RowCountSegment | tests/test_data_quality.py:53-67 | row counts never warn, and none fails iff every table has rows |
| DataQuality.NullSegment | tests/test_data_quality.py:74-94 | NULL checks never warn, and none fails iff no key column holds a NULL |
| DataQuality.DuplicateSegment | tests/test_data_quality.py:165-182 | duplicate checks never warn, and none fails iff no key is duplicated |
| DataQuality.WarningsOnlyFromMiddle | tests/test_data_quality.py:209-214 | checks that cannot warn add no warnings around the ones that can |
| DataQuality.WarningsIgnoreOtherCounters | tests/test_data_quality.py:209-214 | the warnings counted depend only on the starting warnings |
| DataQuality.RangeWarnings | tests/test_data_quality.py:134-158 | the range checks warn once iff review scores are out of range |
| DataQuality.OnlyReviewScoresWarn | tests/test_data_quality.py:134-158 | a fresh run ends with one warning when review scores are out of range and none otherwise |
| DataQuality.ReviewScoresNeverFail | tests/test_data_quality.py:140-145 | changing the review scores never changes whether a run has failures |
| DataQuality.ExitZeroIffNoFailureAt | tests/test_data_quality.py:230-235 | from counters without failures, fresh ones included, the status is 0 iff no verdict is a failure |
| DataQuality.NoFailureIffClean | tests/test_data_quality.py:53-200 | no check fails iff every table has rows and there are no NULL keys, orphans, negative prices, duplicates or early deliveries |
| DataQuality.ExitZeroIffClean | tests/test_data_quality.py:230-235 | a run from counters without failures, a fresh one in particular, exits with 0 iff the warehouse is clean in that sense |
| DataQuality.TallyOfSuite | tests/test_data_quality.py:209-214 | the counters after each of the six checks in turn end where counting all the verdicts at once ends |
| DataQuality.DataQualityTester.constructor | tests/test_data_quality.py:36-40 | the tester is connected and all three counters start at 0 |
| DataQuality.DataQualityTester.Count | tests/test_data_quality.py:60-67 | the counters become those after recording the verdict |
| DataQuality.DataQualityTester.TestRowCounts | tests/test_data_quality.py:48-67 | the counters advance by the nine row-count verdicts |
| DataQuality.DataQualityTester.TestNullValues | tests/test_data_quality.py:69-94 | the counters advance by the seven NULL verdicts |
| DataQuality.DataQualityTester.TestForeignKeys | tests/test_data_quality.py:96-127 | the counters advance by the two orphan verdicts |
| DataQuality.DataQualityTester.TestDataRanges | tests/test_data_quality.py:129-158 | the counters advance by the review-score verdict, then the price verdict |
| DataQuality.DataQualityTester.TestDuplicates | tests/test_data_quality.py:160-182 | the counters advance by the four duplicate verdicts |
| DataQuality.DataQualityTester.TestDateConsistency | tests/test_data_quality.py:184-200 | the counters advance by the delivery-date verdict |
| DataQuality.DataQualityTester.RunAllTests | tests/test_data_quality.py:202-235 | the counters advance by all 25 verdicts in order; the rate and the exit status are those of the final counters; the connection is closed |

## Left out

- External services are inputs, not code:
  - boto3 listing and downloads: the list of listing pages and a map from key to parsed CSV;
  - pandas parsing: a CSV is either parsed rows or unreadable;
  - PostgreSQL: a map from each existing table to its rows;
  - the schema's primary keys: an abstract function from a table and a row to a key.
- `schema_raw.sql` is not part of this model. The foreign-key graph combines the drawing beside `LOAD_ORDER` (`ingestion/s3_to_rds.py:69-75`) with the stage-3 comment (`ingestion/s3_to_rds.py:85`), which adds the edges from order items to products and to sellers.
- The listing (`list_raw_csv_keys`) and the connection (`get_rds_connection`) are assumed to succeed. In `load_all_raw_tables` they run before the `try`, so their errors propagate to the caller instead of returning False; the model has no such outcome.
- LoadPlan.RepeatLoadIsIdempotent: holds only because every table is assumed to have a conflict key computed from the CSV row, so that an identical row always conflicts. For a raw table without a unique constraint, or one keyed by a serial column the INSERT does not list, append mode is not idempotent: a second run whose row counts differ (M old rows plus N CSV rows against N) inserts the N rows again. `schema_raw.sql`, which would settle this, is not part of this model.
- Database-side errors are not modelled. An insert rejected for a foreign-key violation or a bad value would raise and end the run with False. In the model every insert is accepted.
- A failed row count inside `check_data_match` cannot happen in the model, because the loop checks that the table exists first.
- Column names and the column list of the INSERT are not modelled; a row is a sequence of cells.
- `execute_values` sends the records in pages of 1000. The model inserts them one at a time, which gives the same result under `ON CONFLICT DO NOTHING`.
- pandas dtype inference is not modelled; only NaN to NULL is.
- The temporary directory, the file-size probe (`head_object`, the size in MB) and all log text are left out.
- S3Upload.UploadDirectoryToS3: only ClientError is modelled, as a set of keys the service refuses. Any other exception from `upload_file` would end the loop, and is not modelled. The `.csv` test is on the entry name only, as in the script.
- S3Upload.UploadEach: a refused upload that lets the loop go on is what the script's `except ClientError` intends. boto3's `upload_file` goes through its transfer manager, which reports a refused upload as `S3UploadFailedError`, not a `ClientError` subclass; with boto3, then, a refused upload probably ends the loop. The boto3 source is not part of this model, so the model follows the script's intent.
- DataQuality: the SQL queries are not evaluated; a `Warehouse` value supplies their answers. A failing query would end the script, which is not modelled.
- DataQuality.DataQualityTester.RunAllTests: `sys.exit` is the returned status.
- DataQuality.DataQualityTester.RunAllTests: the start time is not modelled.
- DataQuality.SuccessRate: the rate is an exact rational, not a float rounded for printing.
- Skip by row count is a heuristic: a CSV with as many rows as the table but different contents is skipped. The model keeps this behaviour.
