# data-splitter, modelled in Dafny

data-splitter archives a MySQL database year by year. For every enabled table and
every configured year it:

1. connects to a per-year archive database, named by substituting the year into the
   table's archive pattern, and creates that database on demand;
2. replicates the table's creation statement into it, once;
3. copies that year's rows in offset-driven batches, upserting row by row with
   constraint checks bypassed;
4. checks that the archive holds at least as many rows as the source;
5. optionally deletes the copied rows from the source.

A failing batch raises a `FatalMigrationError`, and that error ends the whole run. Any
other failure either skips to the next table-year or stops the run, as the
`continue_on_error` setting says.

This project models that core in Dafny. Both databases are oracles: the model receives
their answers (row counts, pages of rows, per-row upsert outcomes, version strings,
catalog counts, statement errors) and never evaluates SQL. The modules follow the
source files:

| module | file | form |
|---|---|---|
| `Errors` | Go `error` values as the core builds them: `%w` wrapping, `FatalMigrationError`, `errors.As` | datatypes and functions |
| `Text` | the `strings`/`fmt` operations the core relies on (`ToLower`, `Contains`, `Split`, `Join`, `Replace`, `%d`, `TrimPrefix`/`TrimSuffix`) | functions and lemmas |
| `Types` | the configuration records of pkg/types/types.go | datatypes |
| `Schema` | internal/database/schema.go | query builders as methods with loops, proved against functions; table decisions as functions |
| `Connection` | internal/database/connection.go | functions |
| `Migration` | internal/database/migration.go | `executeBatchInsert`, `migrateBatch` and the `MigrateTableData` loop as methods, each proved equal to a function (`Tally`/`RowStatements`, `BatchOutcome`/`PageWrites`, `CopyLoop`/`Migrate`) |
| `BatchLoop` | properties of the copy loop of internal/database/migration.go | lemmas |
| `ConfigValidation` | internal/config/config.go | functions and lemmas |
| `Cli` | cmd/main.go | `processTableYear` as a function over a `World` of stage outcomes; the main loop as a method proved equal to `RunWork`; `getPlatformName` |

Notes on how the code behaves, which the model follows:

- **Total-batch failure.** The comment at migration.go:218-219 says an error is returned
  only when all rows of a batch failed, and that `executeBatchInsert` handles that case.
  But `executeBatchInsert` returns nil after its row loop whatever the rows did
  (migration.go:330). So `migrateBatch`'s "all N rows failed to insert" guard
  (migration.go:220) can never match: the only error that step can return begins
  "failed to get raw database connection". Every selected row is therefore counted as
  migrated (migration.go:228), even when every insert failed. `AllFailedGuardNeverFires`
  and `BatchOutcomeCases` state this.
- **Unchecked options.** Nothing checks `BatchSize`, `ResumeOffset` or
  `HeartbeatBatchInterval`, and none is given a default when the configuration is loaded
  (pkg/types/types.go:38-55):
  - `MigrateTableData` returns its column and row-count errors, and `nil` for an empty
    year (migration.go:27-42), before it touches the batch size. Only after that does it
    divide by the batch size (migration.go:87), and its loop only advances when that
    size is positive. The model therefore requires a positive batch size only on the
    path that reaches the division (`BatchSizeFitsLoop`). The main loop requires this
    only for the table-years it visits (`BatchSizesFit`).
  - A negative resume offset is accepted. The starting batch number then uses Go's
    truncating division (`GoQuotient`).
  - A non-positive interval falls back to 10 (migration.go:120-123).
- **Heartbeat interval.** The interval is recomputed after every batch in the code, but
  it depends only on the options, so it is computed once into the copy job. The Go
  test `batchCount%interval == 0` agrees with Dafny's `%` for a positive interval,
  whatever the sign of `batchCount`.
- **Exit status.** A `FatalMigrationError` exits through `os.Exit(1)`. Any other error
  without `continue_on_error` exits through `logrus.Fatalf`, which also exits 1. The model
  keeps the two apart (`FatalExit`, `StoppedOnError`) and gives both exit code 1.

## Model

| member | source | states |
|---|---|---|
| Errors.FatalDelegates | internal/database/migration.go:154-159 | `FatalMigrationError`'s `Error` and `Unwrap` both delegate to the error it carries |
| Errors.AsFatal | cmd/main.go:89-90 | whatever `errors.As` finds for a `FatalMigrationError` target is a `FatalMigrationError` |
| Errors.ChainFollowsUnwrap | cmd/main.go:89-90 | the chain `errors.As` walks is the error followed by successive `Unwrap`s, ending at an error that unwraps to nothing |
| Errors.AsFatalIsFirstOnChain | cmd/main.go:89-90 | `errors.As` finds a fatal error exactly when one is on the chain, and it finds the first one |
| Errors.FatalFoundThroughWrapping | cmd/main.go:86-93 | however many `%w` layers the stages add around a `FatalMigrationError`, `errors.As` still finds it, with the inner message |
| Text.ToLower | internal/database/schema.go:102 | lower-casing keeps the length and maps each character on its own |
| Text.ToLowerIdempotent | internal/database/migration.go:346 | lower-casing an already lower-cased string changes nothing |
| Text.SplitOn | cmd/main.go:361 | `strings.Split` with a non-empty separator yields at least one part |
| Text.FormatInt | internal/database/connection.go:47 | `%d` text is non-empty and made of digits and '-' |
| Text.ParseFormatInt | internal/database/connection.go:47 | `%d` text can be read back to the same integer |
| Text.ReplaceAllIsJoinOfSplit | internal/database/connection.go:47 | `strings.Replace(s, pat, rep, -1)` equals splitting at `pat` and joining with `rep` |
| Text.SplitOnJoinRoundTrip | internal/database/connection.go:47 | joining the split parts with the separator gives back the original text |
| Text.ReplaceAllSelf | internal/database/connection.go:47 | replacing a pattern by itself changes nothing |
| Text.ReplaceAllAbsent | internal/database/connection.go:47 | text without the pattern is returned unchanged |
| Text.ReplaceAllLeavesNoPattern | internal/database/connection.go:47 | with a pattern that cannot overlap itself or the replacement, no occurrence is left after replacing |
| Schema.SelectsReadSamePage | internal/database/schema.go:91-118 | `BuildSelectQuery` and `BuildSelectQueryWithColumns` both start with "SELECT " and end with the same year filter, LIMIT and OFFSET page |
| Schema.BuildSelectQueryWithColumns | internal/database/schema.go:98-118 | the loop builds exactly the projections of the columns, joined by ", ", followed by the year page |
| Schema.ProjectionsFollowColumns | internal/database/schema.go:101-111 | one projection per column, in order; the NULLIF form exactly for columns whose lower-cased type contains "text" or "blob", the plain quoted name otherwise |
| Schema.TextLikeIgnoresCase | internal/database/schema.go:102-106 | the text/blob test ignores the case of the column type |
| Schema.BuildInsertQuery | internal/database/schema.go:121-136 | the loop builds the quoted column list and one "?" per column |
| Schema.BuildMergeInsertQuery | internal/database/schema.go:206-231 | the loop builds the insert text plus an update clause over the non-PRI columns, and never returns an error |
| Schema.PlaceholderCount | internal/database/schema.go:127-133 | the VALUES list holds exactly as many "?" as columns |
| Schema.NonPrimaryMembers | internal/database/schema.go:214-218 | a column is in the update clause exactly when its key is not "PRI" |
| Schema.MergeExtendsInsert | internal/database/schema.go:221-228 | the merge text starts with `BuildInsertQuery`'s text and adds the update clause exactly when some column is not "PRI" |
| Schema.MergePlaceholdersMatchColumns | internal/database/schema.go:206-231 | when no table or column name contains '?', the whole merge statement carries exactly one '?' per column: the names add none, and neither does the update clause, whichever columns it lists |
| Schema.CreateArchiveTable | internal/database/schema.go:37-56 | at most the source's creation statement is executed, verbatim |
| Schema.CreateOnlyWhenAbsent | internal/database/schema.go:37-56 | the creation statement runs exactly when the catalog count is not positive; an existing table is a silent success; a failed check creates nothing and is an error |
| Schema.CreateIsIdempotent | internal/database/schema.go:39-47 | once a run has created the table, a later run that finds it executes nothing and succeeds |
| Schema.CompareIsEquality | internal/database/schema.go:164-180 | with both schemas read, the comparison is string equality: symmetric and reflexive. A failed read is an error naming its side, "failed to get source schema" or "failed to get archive schema", with the source checked first. The result is a value exactly when both reads succeeded |
| Connection.ArchiveDbNameSubstitutes | internal/database/connection.go:45-48 | the archive name is the pattern split at "{year}" and joined with the year; a pattern without a placeholder is unchanged; no "{year}" is left |
| Connection.ArchiveDbNameOfBarePlaceholder | internal/database/connection.go:45-48 | a bare "{year}" pattern becomes the year's text, which reads back as the year |
| Connection.ParseAddressRoundTrip | internal/database/connection.go:51-59 | with a host free of ':' and a database name free of '?', host, port and database can be read back from the "host:port)/database?params" part of the DSN |
| Connection.DsnRoundTrip | internal/database/connection.go:51-59 | with no ':' in user or host, no '@' in the password and no '?' in the database name, user, password, host, port, database and the fixed parameters can all be read back from the DSN |
| Connection.ArchiveDsnTargetsYear | internal/database/connection.go:30-42 | under the same separator conditions, the archive connection's DSN names the per-year archive database, with no placeholder left |
| Migration.DialectPriority | internal/database/migration.go:346-359 | each dialect is chosen exactly when its signature matches and no earlier signature does |
| Migration.DialectIgnoresCase | internal/database/migration.go:346 | detection gives the same dialect for a version string and its lower-cased form |
| Migration.DetectionFallbacks | internal/database/migration.go:334-344 | a failed `version()` with a working `sqlite_version()` means SQLite; with both failed, detection errs and `executeBatchInsert` proceeds as MySQL |
| Migration.BypassPaired | internal/database/migration.go:251-287 | every dialect but SQL Server suspends constraints with one statement and restores them with a different one; SQL Server issues neither |
| Migration.ExecuteBatchInsert | internal/database/migration.go:232-331 | without a raw handle: the wrapped error and nothing issued. Otherwise: the suspend statement, every row in order, then the deferred restore statement; counters equal to the tally of the row outcomes; error nil |
| Migration.TallyBounds | internal/database/migration.go:290-324 | inserted + updated + failed never exceeds the row count, and failed equals it exactly when every row failed |
| Migration.MigrateBatch | internal/database/migration.go:162-229 | the scan loop and insert call return exactly `BatchOutcome` for the page. The statements written are spelled out. The page is upserted only when the select and every scan succeed, the page is not empty and the raw handle is available. Then the writes are the dialect's suspend statements, one upsert per scanned row in page order with the given insert query, and the restore statements. Otherwise nothing is written |
| Migration.AllFailedGuardNeverFires | internal/database/migration.go:214-225 | the "all N rows failed to insert" comparison never matches an error the insert step returns |
| Migration.BatchOutcomeCases | internal/database/migration.go:162-229 | a batch errs exactly when its select or a scan fails; then it reports 0 rows; otherwise it reports every selected row |
| Migration.BatchFailure | internal/database/migration.go:106 | a failed batch comes back as a `FatalMigrationError`, which `errors.As` finds |
| Migration.MigrateJobBatch | internal/database/migration.go:101 | the loop's batch call is `migrateBatch` on the clamped page: its row count and error are the job's step, and its statements are the job's writes for that page |
| Migration.CopyBatches | internal/database/migration.go:91-135 | the loop's batches, heartbeats, final counters and error are exactly those of `CopyLoop` from the starting counters. The statements it wrote come back batch by batch, one entry per batch, each being the step's writes for that batch's page (`WrittenByStep`) |
| Migration.WrittenByPage | internal/database/migration.go:91-110 | when the batch step is `migrateBatch` with a given insert query, each batch's entry in the trace is exactly the writes of its own page (`PageWrites`) |
| Migration.MigrateTableData | internal/database/migration.go:20-149 | the method returns exactly `Migrate`'s result. Column and row-count errors come back wrapped, and zero rows is a success with no batch; these hold for any batch size. Otherwise it runs the copy loop from the resume offset. It also returns the statements written, one entry per batch: each batch upserts its own page with the merge statement built from the table's columns (`PageWrites` with `MergeText`) |
| Migration.ValidationIsShortfallCheck | internal/database/migration.go:403-405 | validation fails exactly when the archive count is below the source count, and a passing pair keeps passing when the archive grows or the source shrinks |
| Migration.PruneOnlyWhenConfigured | internal/database/migration.go:363-385 | nothing is deleted unless `DeleteAfterArchive` is set; then exactly the one year-filtered delete runs, and its error is returned wrapped |
| Migration.DeleteMatchesCopiedYear | internal/database/migration.go:371 | the delete and the batch select carry the same year filter |
| BatchLoop.CopyLoopShape | internal/database/migration.go:91-110 | batches are numbered consecutively, start at the resume offset, run back to back, are clamped to the rows left, and record what the batch step returned; only a failed last batch erred; a start at or past the total runs nothing |
| BatchLoop.CopyLoopTiles | internal/database/migration.go:91-110 | batch by batch, each batch starts where the previous one ended, at the clamped size |
| BatchLoop.TilesBackToBack | internal/database/migration.go:91-110 | the batch-by-batch tiling implies the indexed statement of it |
| BatchLoop.CopyLoopRecorded | internal/database/migration.go:101-109 | each batch records the row count the batch step returned, and only a failed last batch returned an error |
| BatchLoop.BatchesStayWithinRows | internal/database/migration.go:91-96 | every batch reads at least one row and at most the batch size, and none reads past the total |
| BatchLoop.CopyLoopFinishes | internal/database/migration.go:91-135 | a run without failure ends at the total (or at its start, when that is past the total), having added every batch's rows and counted every batch |
| BatchLoop.CopyLoopStops | internal/database/migration.go:101-107 | a failed run stops at the failed batch's offset with that batch's error wrapped fatally, having added only the rows of the batches before it |
| BatchLoop.CopyLoopRound | internal/database/migration.go:91-135 | a successful round's batch and heartbeat come before everything the rest of the loop records |
| BatchLoop.CopyLoopFailedRound | internal/database/migration.go:101-107 | a failing batch ends the loop with only that batch, with no heartbeat, and advances neither the offset nor the migrated rows |
| BatchLoop.CopyLoopHeartbeats | internal/database/migration.go:119-134 | the loop emits exactly the heartbeats due after its completed batches |
| BatchLoop.BeatsOnlyOnMultiples | internal/database/migration.go:125-134 | every heartbeat follows a batch whose number is a multiple of the interval, and carries the rows migrated so far and the total |
| BatchLoop.BeatsOnEveryMultiple | internal/database/migration.go:125-134 | every completed batch whose number is a multiple of the interval is followed by its heartbeat |
| BatchLoop.NoBeatsWithoutMultiples | internal/database/migration.go:125-134 | with no batch number a multiple of the interval there is no heartbeat |
| BatchLoop.CopyLoopBatchCount | internal/database/migration.go:91-96 | a run without failure over n remaining rows takes n / batchSize batches, rounded up |
| BatchLoop.ThreeBatchesForTwoHundredFiftyRows | internal/database/migration.go:82-135 | 250 rows in batches of 100 from offset 0: batches of 100, 100 and 50 at offsets 0, 100 and 200, ending at 250, with no heartbeat at interval 10 |
| BatchLoop.ResumeRunsOnlyTheRest | internal/database/migration.go:82-96 | resuming at 200 with batches of 100 over 250 rows runs one batch, numbered 3, of the last 50 rows, counting the 200 skipped rows |
| BatchLoop.MigrateOutcomes | internal/database/migration.go:27-42 | column and row-count errors come back unchanged in kind; an empty year does nothing; any batch failure is fatal; a successful run counts the resume offset plus every batch's rows |
| ConfigValidation.FirstTableProblemIsFirst | internal/config/config.go:83-90 | the table scan reports the problem at the first offending index, and nothing when there is none |
| ConfigValidation.ValidateAcceptsExactlyWellFormed | internal/config/config.go:61-93 | the validator returns nil exactly for configurations with type, host and source database set, tables and years present, every table named, and every enabled table with a split column |
| ConfigValidation.ValidateReportsFirstFailure | internal/config/config.go:61-93 | checks run in their fixed order; a table error names the first offending index, reporting a missing name before a missing split column |
| ConfigValidation.TablesCheckedOnlyOnCheckedFields | internal/config/config.go:83-90 | only table names, enabled flags and split columns are checked |
| ConfigValidation.UncheckedFieldsIgnored | internal/config/config.go:61-93 | port, user, password, version, archive options and processing settings never affect validation |
| Cli.DryRunDoesNothing | cmd/main.go:231-234 | a dry run succeeds without running any stage |
| Cli.ConnectRetriesOnce | cmd/main.go:237-256 | one connection attempt, and with `CreateArchiveDB` a failure is followed by creating the per-year database and exactly one retry; the conditions for success and for each stage list are stated both ways |
| Cli.StagesRunInOrder | cmd/main.go:259-283 | the stages after connecting form a prefix of schema, table, migrate, validate, delete; success runs them all; an error is the last stage's, wrapped in that stage's context |
| Cli.PruneOnlyAfterValidation | cmd/main.go:270-283 | the delete stage runs only after the migration succeeded and validation passed, and the migration only after the archive table exists |
| Cli.FatalSurvivesStages | cmd/main.go:270-273 | a `FatalMigrationError` from the migration is still found by `errors.As` on the table-year's error; a migration that ran a batch and failed always yields one |
| Cli.ErrorPolicy | cmd/main.go:86-100 | success goes on; a fatal error ends the run whatever `ContinueOnError` says; any other error ends it exactly when `ContinueOnError` is false; every end exits 1 |
| Cli.RunTables | cmd/main.go:66-106 | the nested loops over tables and years attempt and end exactly as `RunWork` over the enabled table-years, with the heartbeat fallback applied |
| Cli.WorkListMembers | cmd/main.go:67-78 | a table-year is visited exactly when the table is configured and enabled and the year is configured |
| Cli.RunWorkAttemptsPrefix | cmd/main.go:67-106 | the table-years attempted are a prefix of the work list, all of it when the run completes |
| Cli.RunWorkStopsAtFirstVerdict | cmd/main.go:86-100 | every attempted table-year but the last went on, and a run that did not complete ended with the last one's verdict |
| Cli.RunWorkCompletes | cmd/main.go:86-108 | the run completes exactly when every table-year's verdict is to go on |
| Cli.ContinueOnErrorVisitsAll | cmd/main.go:94-96 | with `ContinueOnError` and no fatal error, every enabled table's every year is attempted and the exit code is 0 |
| Cli.HeartbeatFallback | cmd/main.go:82-84 | the copy loop's interval is the archive option when positive; when it is zero, the processing interval when positive; 10 otherwise; no other option changes |
| Cli.PlatformOfBinary | cmd/main.go:356-380 | the name of a built binary reads back as its platform label: Linux, Windows, Apple Silicon or Intel macOS, with the architecture |
| Cli.UnsplittableNameKept | cmd/main.go:361-379 | a name with fewer than two parts after stripping is returned unchanged |
| Cli.OtherOsKept | cmd/main.go:362-379 | a name of the built shape whose operating system part is not linux, darwin or windows is returned unchanged, whatever the architecture |

## Left out

- SQL execution through GORM and `database/sql` is not modelled. This covers `Raw`, `Exec`, `Rows`, `Scan`, `db.DB()`, opening and closing connections, `TestConnection`, `CreateArchiveDatabase`, `GetTableSchema`, `GetTableColumns` and `GetRowCount`. Their results are inputs: the `SourceDb`, `ArchiveDb` and `World` oracles. The meaning of `ON DUPLICATE KEY UPDATE`, LIMIT/OFFSET and `YEAR()` is not modelled.
- `GetPrimaryKeyColumns` is not modelled: nothing in the core calls it.
- Logging, the spinner, the PROGRESS/FINAL stdout lines, `time.Now` and durations are left out as output and clock. Heartbeats are kept as an event trace (`Heartbeat`).
- The `processedTables` and `totalTables` counters of `main` are left out: they only feed log lines.
- `LoadConfig`, `setupLogging`, `displayInfo` and the `--info` flag are left out as file, environment and flag I/O. `buildCrossPlatform` and `displayAvailableBinaries` are left out because they run `go build` and list a directory. Only the binary naming of `buildCrossPlatform` is kept (`BinaryName`), for any of its operating systems and any architecture; its fixed list of four platforms is not.
- internal/database/logutils.go (`PrintRecentLogTail`) is not part of this model: it only reads a log file and writes to stderr.
- Opening the source database before the main loop is not modelled, and neither is its fatal exit on failure (cmd/main.go:50-53). `RunTables` starts after it.
- `FatalMigrationError` carrying values rather than pointers is not modelled: errors are plain values, so Go identity plays no part.
- Migration.MigrateTableData: requires a positive batch size once the columns and a non-zero row count have been read (`BatchSizeFitsLoop`). On that path, a zero size makes Go panic at the division (migration.go:87). With a negative size, when the resume offset is below the row total, every round calls `migrateBatch` with a negative LIMIT at an offset that falls by the size each time (migration.go:91-110). The first batch that fails ends the run with a `FatalMigrationError` (101-107); MySQL rejects a negative LIMIT, so in practice the first batch fails. Only a source that accepts every such batch would keep the loop running. When the resume offset is already at or past the row total, Go returns nil without a batch. None of these outcomes is modelled. The column and row-count errors and the empty year are modelled for every batch size.
- Cli.RunTables: requires the same of every table-year the main loop visits, unless the run is dry (`BatchSizesFit`). `YearRuns` gives an empty run for any other table-year, and `RunWork` never consults one.
- Cli.RunTables: the database answers for each table-year are independent inputs, keyed by the table and the year (`world: (Table, int) -> World`). State that one visit leaves behind for a later one is not carried over: the archive database and table it created, the rows it copied, and the source rows it deleted under `delete_after_archive`. `validateConfig` accepts a repeated year or two identical table entries (internal/config/config.go:61-93). For such a configuration, the model gives a repeated table-year the same answers as its first visit. In Go, the second visit meets the databases as the first visit left them, so its copy, validation, delete and verdict can differ (cmd/main.go:67-106).
- Text.ToLower: lower-cases ASCII letters only. Go's Unicode case mapping is not modelled.
- Integers are unbounded. Go's `int`/`int64` overflow of `offset + batchSize` and of the row counters is not modelled.
