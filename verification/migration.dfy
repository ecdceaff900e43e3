/** The batch migration engine of internal/database/migration.go: dialect
    detection and constraint bypass, the per-row upsert loop, the per-batch
    select/scan/insert step, the offset-driven copy loop, validation by row
    counts and the optional prune. Both databases are oracles: the engine
    receives their answers and never evaluates SQL. */
module Migration {
  import opened Wrappers
  import opened Text
  import opened Errors
  import opened Types
  import opened Schema

  /** A value the driver scanned into an `interface{}`. */
  datatype Value = Null | Bytes(b: string) | Integer(i: int)

  type Row = seq<Value>

  /** What `rows.Scan` delivers for one selected row. */
  datatype ScannedRow = ScanFailed(err: Error) | Scanned(values: Row)

  /** What `sourceDB.Raw(query).Rows()` delivers. */
  datatype SelectOutcome = SelectFailed(err: Error) | Rows(rows: seq<ScannedRow>)

  /** What `sqlDB.Exec` delivers: an error or the driver's rows-affected count. */
  datatype ExecOutcome = ExecFailed(err: Error) | Affected(n: int)

  /** The source database, as answers to the engine's questions. */
  datatype SourceDb = SourceDb(
    columns: Result<seq<ColumnInfo>, Error>,  // GetTableColumns for the table
    rowCount: Result<int, Error>,             // GetRowCount for the table-year
    select: string -> SelectOutcome)          // the rows a select statement yields

  /** The archive database's raw `*sql.DB` handle. */
  datatype ArchiveDb = ArchiveDb(
    handle: Option<Error>,                    // the error of `db.DB()`, if any
    version: Result<string, Error>,           // SELECT version()
    sqliteVersion: Result<string, Error>,     // SELECT sqlite_version()
    exec: (string, Row) -> ExecOutcome)       // one Exec of a statement with arguments

  // ---------------------------------------------------------------------------
  // Dialect detection and constraint bypass
  // ---------------------------------------------------------------------------

  datatype Dialect = PostgreSql | MariaDb | MySql | SqlServer | Sqlite | Unknown

  /** Classifies a `version()` string by case-insensitive substring, in
      priority order. */
  function DialectOf(version: string): Dialect
  {
    var v := ToLower(version);
    if Contains(v, "postgresql") || Contains(v, "postgres") then PostgreSql
    else if Contains(v, "mariadb") then MariaDb
    else if Contains(v, "mysql") then MySql
    else if Contains(v, "microsoft") || Contains(v, "sql server") then SqlServer
    else if Contains(v, "sqlite") then Sqlite
    else Unknown
  }

  /** `detectDatabaseType`: `version()` first; when it fails, a working
      `sqlite_version()` means SQLite. */
  function DetectDatabaseType(db: ArchiveDb): (r: Result<Dialect, Error>)
  {
    match db.version
    case Ok(v) => Ok(DialectOf(v))
    case Err(e) =>
      if db.sqliteVersion.Ok? then Ok(Sqlite) else Err(Wrapped("failed to detect database type", e))
  }

  /** The dialect `executeBatchInsert` proceeds with: MySQL when detection fails. */
  function EffectiveDialect(db: ArchiveDb): Dialect
  {
    match DetectDatabaseType(db)
    case Ok(d) => d
    case Err(_) => MySql
  }

  /** The signatures decide in priority order: PostgreSQL before MariaDB before
      MySQL before SQL Server before SQLite. ("postgresql" needs no test of its
      own: it contains "postgres".) */
  lemma DialectPriority(version: string)
    ensures var v := ToLower(version);
      && (DialectOf(version) == PostgreSql <==> Contains(v, "postgres"))
      && (DialectOf(version) == MariaDb <==> !Contains(v, "postgres") && Contains(v, "mariadb"))
      && (DialectOf(version) == MySql
          <==> !Contains(v, "postgres") && !Contains(v, "mariadb") && Contains(v, "mysql"))
      && (DialectOf(version) == SqlServer
          <==> !Contains(v, "postgres") && !Contains(v, "mariadb") && !Contains(v, "mysql")
               && (Contains(v, "microsoft") || Contains(v, "sql server")))
      && (DialectOf(version) == Sqlite
          <==> !Contains(v, "postgres") && !Contains(v, "mariadb") && !Contains(v, "mysql")
               && !Contains(v, "microsoft") && !Contains(v, "sql server") && Contains(v, "sqlite"))
  {
    var v := ToLower(version);
    if Contains(v, "postgresql") {
      assert "postgresql" == "postgres" + "ql";
      ContainsShorter(v, "postgres", "ql");
    }
  }

  /** Detection ignores case: a version string and its lower-cased form agree. */
  lemma DialectIgnoresCase(version: string)
    ensures DialectOf(ToLower(version)) == DialectOf(version)
  {
    ToLowerIdempotent(version);
  }

  /** A failed `version()` falls back to SQLite when `sqlite_version()` works,
      and the insert path falls back to MySQL when both fail. */
  lemma DetectionFallbacks(db: ArchiveDb)
    ensures db.version.Err? && db.sqliteVersion.Ok? ==> EffectiveDialect(db) == Sqlite
    ensures db.version.Err? && db.sqliteVersion.Err? ==> DetectDatabaseType(db).Err? && EffectiveDialect(db) == MySql
    ensures db.version.Ok? ==> EffectiveDialect(db) == DialectOf(db.version.value)
  {
  }

  /** The statements that switch constraint checking off before the row loop
      and back on after it. */
  datatype Bypass = Bypass(suspend: seq<string>, restore: seq<string>)

  function BypassFor(d: Dialect): Bypass
  {
    match d
    case PostgreSql => Bypass(["SET session_replication_role = replica"], ["SET session_replication_role = origin"])
    case Sqlite => Bypass(["PRAGMA foreign_keys = OFF"], ["PRAGMA foreign_keys = ON"])
    case SqlServer => Bypass([], [])
    case _ => Bypass(["SET CHECK_CONSTRAINT_CHECKS = 0"], ["SET CHECK_CONSTRAINT_CHECKS = 1"])
  }

  /** Every dialect but SQL Server suspends with one statement and restores
      with one statement; SQL Server does neither. */
  lemma BypassPaired(d: Dialect)
    ensures |BypassFor(d).suspend| == |BypassFor(d).restore| <= 1
    ensures BypassFor(d).suspend == [] <==> d == SqlServer
    ensures BypassFor(d).suspend != [] ==> BypassFor(d).suspend[0] != BypassFor(d).restore[0]
  {
  }

  // ---------------------------------------------------------------------------
  // executeBatchInsert
  // ---------------------------------------------------------------------------

  /** A statement sent to the archive handle, with its arguments. */
  datatype Statement = Statement(sql: string, args: Row)

  /** The counters the row loop keeps (they feed only its summary log line). */
  datatype InsertTally = InsertTally(inserted: nat, updated: nat, failed: nat)

  function TallyStep(t: InsertTally, o: ExecOutcome): InsertTally
  {
    match o
    case ExecFailed(_) => t.(failed := t.failed + 1)
    case Affected(n) =>
      if n == 1 then t.(inserted := t.inserted + 1)
      else if n == 2 then t.(updated := t.updated + 1)
      else t
  }

  /** The counters after the given per-row outcomes, in order. */
  function Tally(outcomes: seq<ExecOutcome>): InsertTally
  {
    if outcomes == [] then InsertTally(0, 0, 0)
    else TallyStep(Tally(outcomes[..|outcomes| - 1]), outcomes[|outcomes| - 1])
  }

  function RowOutcomes(db: ArchiveDb, query: string, batch: seq<Row>): seq<ExecOutcome>
  {
    seq(|batch|, i requires 0 <= i < |batch| => db.exec(query, batch[i]))
  }

  function RowStatements(query: string, batch: seq<Row>): seq<Statement>
  {
    seq(|batch|, i requires 0 <= i < |batch| => Statement(query, batch[i]))
  }

  function SessionStatements(sqls: seq<string>): seq<Statement>
  {
    seq(|sqls|, i requires 0 <= i < |sqls| => Statement(sqls[i], []))
  }

  /** The only error `executeBatchInsert` can return: no raw handle. */
  function InsertError(db: ArchiveDb): Option<Error>
  {
    match db.handle
    case Some(e) => Some(Wrapped("failed to get raw database connection", e))
    case None => None
  }

  /** `executeBatchInsert`: suspend constraints, upsert every row in order
      counting failures without stopping, restore constraints (deferred, so
      after the last row), and return nil whatever the rows did. Failures of
      the suspend and restore statements are only logged, so their outcomes
      are not consulted. */
  method ExecuteBatchInsert(db: ArchiveDb, query: string, batchValues: seq<Row>)
    returns (err: Option<Error>, tally: InsertTally, issued: seq<Statement>)
    ensures err == InsertError(db)
    ensures db.handle.Some? ==> tally == InsertTally(0, 0, 0) && issued == []
    ensures db.handle.None? ==> tally == Tally(RowOutcomes(db, query, batchValues))
    ensures db.handle.None? ==>
      var bypass := BypassFor(EffectiveDialect(db));
      issued == SessionStatements(bypass.suspend) + RowStatements(query, batchValues)
                + SessionStatements(bypass.restore)
  {
    if db.handle.Some? {
      return Some(Wrapped("failed to get raw database connection", db.handle.value)), InsertTally(0, 0, 0), [];
    }
    var dbType: Dialect;
    var detected := DetectDatabaseType(db);
    if detected.Err? {
      dbType := MySql;
    } else {
      dbType := detected.value;
    }
    var bypass := BypassFor(dbType);
    issued := SessionStatements(bypass.suspend);

    var inserted, updated, failed := 0, 0, 0;
    ghost var outcomes := RowOutcomes(db, query, batchValues);
    for i := 0 to |batchValues|
      invariant InsertTally(inserted, updated, failed) == Tally(outcomes[..i])
      invariant issued == SessionStatements(bypass.suspend) + RowStatements(query, batchValues[..i])
    {
      var result := db.exec(query, batchValues[i]);
      issued := issued + [Statement(query, batchValues[i])];
      assert outcomes[..i + 1][..i] == outcomes[..i];
      assert RowStatements(query, batchValues[..i + 1]) == RowStatements(query, batchValues[..i]) + [Statement(query, batchValues[i])];
      match result {
        case ExecFailed(_) =>
          failed := failed + 1;
        case Affected(n) =>
          if n == 1 {
            inserted := inserted + 1;
          } else if n == 2 {
            updated := updated + 1;
          }
      }
    }
    assert outcomes[..|batchValues|] == outcomes;
    assert batchValues[..|batchValues|] == batchValues;
    issued := issued + SessionStatements(bypass.restore);
    tally := InsertTally(inserted, updated, failed);
    err := None;
  }

  /** The counters never exceed the number of rows, and `failed` equals it
      exactly when every row failed. */
  lemma {:induction false} TallyBounds(outcomes: seq<ExecOutcome>)
    ensures var t := Tally(outcomes); t.inserted + t.updated + t.failed <= |outcomes|
    ensures Tally(outcomes).failed == |outcomes| <==> forall i :: 0 <= i < |outcomes| ==> outcomes[i].ExecFailed?
  {
    if outcomes != [] {
      var init := outcomes[..|outcomes| - 1];
      assert forall i :: 0 <= i < |init| ==> init[i] == outcomes[i];
      TallyBounds(init);
    }
  }

  // ---------------------------------------------------------------------------
  // migrateBatch
  // ---------------------------------------------------------------------------

  /** The error of the first row that failed to scan, if any. */
  function FirstScanError(rows: seq<ScannedRow>): Option<Error>
  {
    if rows == [] then None
    else if rows[0].ScanFailed? then Some(rows[0].err)
    else FirstScanError(rows[1..])
  }

  lemma {:induction false} FirstScanErrorExtend(rows: seq<ScannedRow>, i: int)
    requires 0 <= i < |rows|
    requires FirstScanError(rows[..i]) == None
    ensures rows[i].ScanFailed? ==> FirstScanError(rows) == Some(rows[i].err)
    ensures rows[i].Scanned? ==> FirstScanError(rows[..i + 1]) == None
  {
    if i > 0 {
      assert rows[..i][0] == rows[0];
      assert rows[..i][1..] == rows[1..][..i - 1];
      assert rows[..i + 1][1..] == rows[1..][..i];
      FirstScanErrorExtend(rows[1..], i - 1);
    } else {
      assert rows[..1] == [rows[0]];
    }
  }

  function ValuesOf(rows: seq<ScannedRow>): seq<Row>
  {
    seq(|rows|, i requires 0 <= i < |rows| => if rows[i].Scanned? then rows[i].values else [])
  }

  /** The text `migrateBatch` compares the insert error against. */
  function AllFailedMessage(n: int): string
  {
    "all " + FormatInt(n) + " rows failed to insert"
  }

  /** The statements `migrateBatch` sends to the archive for one page. The
      rows are written only when the select and every scan succeeded, the
      page is not empty and the raw handle is available. Then the writes are
      the dialect's suspend statements, one `query` per row in page order,
      and the restore statements. */
  function PageWrites(src: SourceDb, archive: ArchiveDb, table: Table, year: int, columns: seq<ColumnInfo>,
                      query: string, batchSize: int, offset: int): seq<Statement>
  {
    var q := SelectWithColumns(table.name, table.splitColumn, year, batchSize, offset, columns);
    if src.select(q).Rows? && FirstScanError(src.select(q).rows).None? && |src.select(q).rows| > 0
       && archive.handle.None?
    then
      var bypass := BypassFor(EffectiveDialect(archive));
      SessionStatements(bypass.suspend) + RowStatements(query, ValuesOf(src.select(q).rows))
      + SessionStatements(bypass.restore)
    else []
  }

  /** What `migrateBatch` returns for one page: the number of rows selected,
      or an error when the select, a scan, or (by its message) the insert
      failed. */
  function BatchOutcome(src: SourceDb, archive: ArchiveDb, table: Table, year: int, columns: seq<ColumnInfo>,
                        batchSize: int, offset: int): (r: (int, Option<Error>))
  {
    var q := SelectWithColumns(table.name, table.splitColumn, year, batchSize, offset, columns);
    match src.select(q)
    case SelectFailed(e) => (0, Some(Wrapped("failed to execute select query", e)))
    case Rows(rows) =>
      match FirstScanError(rows)
      case Some(e) => (0, Some(Wrapped("failed to scan row", e)))
      case None =>
        if |rows| == 0 then (0, None)
        else
          match InsertError(archive)
          case Some(e) =>
            if Message(e) == AllFailedMessage(|rows|) then (0, Some(Wrapped("failed to execute batch insert", e)))
            else (|rows|, None)
          case None => (|rows|, None)
  }

  /** `migrateBatch`: select one page, scan every row into a buffer, and hand
      a non-empty buffer to `ExecuteBatchInsert`, which upserts the rows in
      page order with `insertQuery`. */
  method MigrateBatch(src: SourceDb, archive: ArchiveDb, table: Table, year: int, columns: seq<ColumnInfo>,
                      insertQuery: string, batchSize: int, offset: int)
    returns (rowsAffected: int, err: Option<Error>, written: seq<Statement>)
    ensures (rowsAffected, err) == BatchOutcome(src, archive, table, year, columns, batchSize, offset)
    ensures written == PageWrites(src, archive, table, year, columns, insertQuery, batchSize, offset)
    ensures var selected := src.select(SelectWithColumns(table.name, table.splitColumn, year, batchSize, offset, columns));
            if selected.Rows? && FirstScanError(selected.rows).None? && |selected.rows| > 0 && archive.handle.None?
            then
              var bypass := BypassFor(EffectiveDialect(archive));
              written == SessionStatements(bypass.suspend) + RowStatements(insertQuery, ValuesOf(selected.rows))
                         + SessionStatements(bypass.restore)
            else written == []
  {
    var selectQuery := BuildSelectQueryWithColumns(table.name, table.splitColumn, year, batchSize, offset, columns);
    var selected := src.select(selectQuery);
    if selected.SelectFailed? {
      return 0, Some(Wrapped("failed to execute select query", selected.err)), [];
    }
    var rows := selected.rows;
    var batchValues: seq<Row> := [];
    var rowCount := 0;
    while rowCount < |rows|
      invariant 0 <= rowCount <= |rows|
      invariant FirstScanError(rows[..rowCount]) == None
      invariant batchValues == ValuesOf(rows[..rowCount])
    {
      FirstScanErrorExtend(rows, rowCount);
      if rows[rowCount].ScanFailed? {
        return 0, Some(Wrapped("failed to scan row", rows[rowCount].err)), [];
      }
      batchValues := batchValues + [rows[rowCount].values];
      assert ValuesOf(rows[..rowCount + 1]) == ValuesOf(rows[..rowCount]) + [rows[rowCount].values];
      rowCount := rowCount + 1;
    }
    assert rows[..rowCount] == rows;
    if rowCount == 0 {
      return 0, None, [];
    }
    var insertErr, _, issued := ExecuteBatchInsert(archive, insertQuery, batchValues);
    if insertErr.Some? {
      // partial success is accepted; only an "all rows failed" error counts
      if Message(insertErr.value) == AllFailedMessage(rowCount) {
        return 0, Some(Wrapped("failed to execute batch insert", insertErr.value)), issued;
      }
    }
    return rowCount, None, issued;
  }

  /** The "all N rows failed" guard never fires: the only error the insert
      step returns starts with "failed", not "all". */
  lemma AllFailedGuardNeverFires(archive: ArchiveDb, n: int)
    ensures InsertError(archive).Some? ==> Message(InsertError(archive).value) != AllFailedMessage(n)
  {
    if InsertError(archive).Some? {
      assert Message(InsertError(archive).value)[0] == 'f';
      assert AllFailedMessage(n)[0] == 'a';
    }
  }

  /** A batch fails exactly when its select or one of its scans fails; when it
      does not, it reports every selected row as migrated, even if every
      insert failed. */
  lemma BatchOutcomeCases(src: SourceDb, archive: ArchiveDb, table: Table, year: int, columns: seq<ColumnInfo>,
                          batchSize: int, offset: int)
    ensures var q := SelectWithColumns(table.name, table.splitColumn, year, batchSize, offset, columns);
            var r := BatchOutcome(src, archive, table, year, columns, batchSize, offset);
            && (r.1.Some? <==> src.select(q).SelectFailed? || FirstScanError(src.select(q).rows).Some?)
            && (r.1.Some? ==> r.0 == 0)
            && (r.1.None? ==> r.0 == |src.select(q).rows|)
            && r.0 >= 0
  {
    var q := SelectWithColumns(table.name, table.splitColumn, year, batchSize, offset, columns);
    if src.select(q).Rows? {
      AllFailedGuardNeverFires(archive, |src.select(q).rows|);
    }
  }

  // ---------------------------------------------------------------------------
  // MigrateTableData: the copy loop
  // ---------------------------------------------------------------------------

  /** The loop's counters: rows skipped or copied, rows counted as migrated,
      batches numbered so far. */
  datatype Progress = Progress(offset: int, migratedRows: int, batchCount: int)

  /** One call of `migrateBatch`: its number, page and returned row count. */
  datatype BatchRecord = BatchRecord(number: int, offset: int, size: int, rows: int)

  /** A PROGRESS heartbeat line: batch number, rows processed, total rows. */
  datatype Heartbeat = Heartbeat(batch: int, processed: int, total: int)

  /** Everything the loop needs that does not change between batches: the
      batch step (`migrateBatch` with everything but the page fixed, taking a
      size and an offset), the statements that step writes to the archive
      for a page, the configured batch size, the heartbeat interval and the
      total row count. */
  datatype CopyJob = CopyJob(batch: (int, int) -> (int, Option<Error>), writes: (int, int) -> seq<Statement>,
                             batchSize: int, interval: int, total: int)

  predicate ValidJob(job: CopyJob)
  {
    job.batchSize > 0 && job.interval > 0
  }

  datatype LoopResult = LoopResult(err: Option<Error>, batches: seq<BatchRecord>, heartbeats: seq<Heartbeat>, final: Progress)

  /** A batch covers the configured size, cut down to the rows left. */
  function ClampedSize(batchSize: int, offset: int, total: int): int
  {
    if offset + batchSize > total then total - offset else batchSize
  }

  /** The heartbeat interval in force: the configured one, or 10 when that is
      not positive. */
  function HeartbeatInterval(options: ArchiveOptions): int
  {
    if options.heartbeatBatchInterval <= 0 then 10 else options.heartbeatBatchInterval
  }

  /** Go's `/` on ints: the quotient truncated toward zero. */
  function GoQuotient(a: int, b: int): int
    requires b > 0
  {
    if a >= 0 then a / b else -((-a) / b)
  }

  /** The copy loop from the given counters on: each round numbers a batch,
      clamps it, runs it, and either stops with a fatal error (advancing
      nothing) or advances the offset by the batch size and the migrated rows
      by the batch's count, emitting a heartbeat when the batch number is a
      multiple of the interval. */
  function CopyLoop(job: CopyJob, p: Progress): (r: LoopResult)
    requires ValidJob(job)
    decreases job.total - p.offset
  {
    if p.offset >= job.total then LoopResult(None, [], [], p)
    else
      var number := p.batchCount + 1;
      var size := ClampedSize(job.batchSize, p.offset, job.total);
      var out := job.batch(size, p.offset);
      var record := BatchRecord(number, p.offset, size, out.0);
      if out.1.Some? then
        LoopResult(Some(BatchFailure(p.offset, out.1.value)),
                   [record], [], Progress(p.offset, p.migratedRows, number))
      else
        var next := Progress(p.offset + size, p.migratedRows + out.0, number);
        var rest := CopyLoop(job, next);
        LoopResult(rest.err, [record] + rest.batches, HeartbeatDue(number, next.migratedRows, job.interval, job.total) + rest.heartbeats, rest.final)
  }

  /** The error a failed batch ends the copy with: the batch's error, given
      the offset as context, inside a `FatalMigrationError`. */
  function BatchFailure(offset: int, err: Error): (r: Error)
    ensures r.FatalMigration? && AsFatal(r) == Some(r)
  {
    FatalMigration(Wrapped("failed to migrate batch at offset " + FormatInt(offset), err))
  }

  /** The heartbeat emitted after a successful batch: one when the batch
      count is a multiple of the interval, none otherwise. */
  function HeartbeatDue(batchCount: int, processed: int, interval: int, total: int): seq<Heartbeat>
    requires interval > 0
  {
    if batchCount % interval == 0 then [Heartbeat(batchCount, processed, total)] else []
  }

  /** The loop state accounts for the whole run `full`: the batches and
      heartbeats recorded so far, followed by what the loop still does from
      `at`. */
  ghost predicate Accounts(job: CopyJob, full: LoopResult, at: Progress, batches: seq<BatchRecord>, heartbeats: seq<Heartbeat>)
    requires ValidJob(job)
  {
    var rest := CopyLoop(job, at);
    && full.err == rest.err
    && full.final == rest.final
    && full.batches == batches + rest.batches
    && full.heartbeats == heartbeats + rest.heartbeats
  }

  /** A round of the copy loop whose batch succeeded keeps the account. */
  lemma CopyLoopAdvance(job: CopyJob, full: LoopResult, before: Progress, done: seq<BatchRecord>,
                        beaten: seq<Heartbeat>, size: int, rows: int, after: Progress, batches: seq<BatchRecord>,
                        heartbeats: seq<Heartbeat>)
    requires ValidJob(job) && before.offset < job.total
    requires size == ClampedSize(job.batchSize, before.offset, job.total)
    requires job.batch(size, before.offset).0 == rows && job.batch(size, before.offset).1.None?
    requires Accounts(job, full, before, done, beaten)
    requires after == Progress(before.offset + size, before.migratedRows + rows, before.batchCount + 1)
    requires batches == done + [BatchRecord(after.batchCount, before.offset, size, rows)]
    requires heartbeats == beaten + HeartbeatDue(after.batchCount, after.migratedRows, job.interval, job.total)
    ensures Accounts(job, full, after, batches, heartbeats)
  {
    var rest := CopyLoop(job, after);
    AppendAssociative(done, [BatchRecord(after.batchCount, before.offset, size, rows)], rest.batches);
    AppendAssociative(beaten, HeartbeatDue(after.batchCount, after.migratedRows, job.interval, job.total), rest.heartbeats);
  }

  /** A round of the copy loop whose batch failed: the loop stops there. */
  lemma CopyLoopStop(job: CopyJob, full: LoopResult, before: Progress, done: seq<BatchRecord>,
                     beaten: seq<Heartbeat>, size: int, rows: int, err: Error, batches: seq<BatchRecord>)
    requires ValidJob(job) && before.offset < job.total
    requires size == ClampedSize(job.batchSize, before.offset, job.total)
    requires job.batch(size, before.offset).0 == rows && job.batch(size, before.offset).1 == Some(err)
    requires Accounts(job, full, before, done, beaten)
    requires batches == done + [BatchRecord(before.batchCount + 1, before.offset, size, rows)]
    ensures full == LoopResult(Some(BatchFailure(before.offset, err)), batches, beaten,
                               Progress(before.offset, before.migratedRows, before.batchCount + 1))
  {
    assert beaten + [] == beaten;
  }

  /** The copy loop has reached the total: the account is complete. */
  lemma CopyLoopDone(job: CopyJob, full: LoopResult, at: Progress, batches: seq<BatchRecord>, heartbeats: seq<Heartbeat>)
    requires ValidJob(job) && at.offset >= job.total
    requires Accounts(job, full, at, batches, heartbeats)
    ensures full == LoopResult(None, batches, heartbeats, at)
  {
    assert batches + [] == batches && heartbeats + [] == heartbeats;
  }

  /** What `MigrateTableData` reports: its error, the batches it ran, the
      heartbeats it emitted, and the rows it counted as processed. */
  datatype MigrationResult = MigrationResult(err: Option<Error>, batches: seq<BatchRecord>,
                                             heartbeats: seq<Heartbeat>, processed: int)

  function StartProgress(options: ArchiveOptions): Progress
    requires options.batchSize > 0
  {
    Progress(options.resumeOffset, options.resumeOffset, GoQuotient(options.resumeOffset, options.batchSize))
  }

  /** The copy loop's job for a table-year: its batch step is `migrateBatch`
      with the merge statement built from the table's columns. */
  function JobFor(src: SourceDb, archive: ArchiveDb, table: Table, year: int, columns: seq<ColumnInfo>,
                  options: ArchiveOptions, total: int): (job: CopyJob)
    requires options.batchSize > 0
    ensures ValidJob(job)
  {
    CopyJob((size, offset) => BatchOutcome(src, archive, table, year, columns, size, offset),
            (size, offset) => PageWrites(src, archive, table, year, columns, MergeText(table.name, columns), size, offset),
            options.batchSize, HeartbeatInterval(options), total)
  }

  /** The batch size is positive wherever the copy loop is reached: once the
      columns and a non-zero row count are read, the source divides by the
      batch size and its loop only advances when that size is positive. The
      error returns and the empty year come first and need no batch size. */
  predicate BatchSizeFitsLoop(src: SourceDb, options: ArchiveOptions)
  {
    src.columns.Ok? && src.rowCount.Ok? && src.rowCount.value != 0 ==> options.batchSize > 0
  }

  /** `MigrateTableData` as a function of the two databases' answers. */
  function Migrate(src: SourceDb, archive: ArchiveDb, table: Table, year: int, options: ArchiveOptions): MigrationResult
    requires BatchSizeFitsLoop(src, options)
  {
    match src.columns
    case Err(e) => MigrationResult(Some(Wrapped("failed to get columns for table " + table.name, e)), [], [], 0)
    case Ok(columns) =>
      match src.rowCount
      case Err(e) => MigrationResult(Some(Wrapped("failed to get row count for table " + table.name, e)), [], [], 0)
      case Ok(total) =>
        if total == 0 then MigrationResult(None, [], [], 0)
        else
          var loop := CopyLoop(JobFor(src, archive, table, year, columns, options, total), StartProgress(options));
          MigrationResult(loop.err, loop.batches, loop.heartbeats, loop.final.migratedRows)
  }

  /** `MigrateTableData`: the offset-driven batch loop, resuming at
      `ResumeOffset`. A positive batch size is required only on the path
      that reaches the loop (see `BatchSizeFitsLoop`). */
  method MigrateTableData(src: SourceDb, archive: ArchiveDb, table: Table, year: int, config: ArchiveOptions)
    returns (err: Option<Error>, batches: seq<BatchRecord>, heartbeats: seq<Heartbeat>, processed: int,
             written: seq<seq<Statement>>)
    requires BatchSizeFitsLoop(src, config)
    ensures MigrationResult(err, batches, heartbeats, processed) == Migrate(src, archive, table, year, config)
    ensures src.columns.Ok? && src.rowCount == Ok(0) ==> err == None && batches == []
    ensures |written| == |batches|
    ensures src.columns.Ok? ==> forall k :: 0 <= k < |batches| ==>
              written[k] == PageWrites(src, archive, table, year, src.columns.value,
                                       MergeText(table.name, src.columns.value), batches[k].size, batches[k].offset)
  {
    if src.columns.Err? {
      return Some(Wrapped("failed to get columns for table " + table.name, src.columns.error)), [], [], 0, [];
    }
    var columns := src.columns.value;
    if src.rowCount.Err? {
      return Some(Wrapped("failed to get row count for table " + table.name, src.rowCount.error)), [], [], 0, [];
    }
    var totalRows := src.rowCount.value;
    if totalRows == 0 {
      return None, [], [], 0, [];
    }
    // BuildMergeInsertQuery never reports an error
    var insertQuery, _ := BuildMergeInsertQuery(table.name, columns);
    var offset := config.resumeOffset;
    var migratedRows := offset;
    var batchCount := GoQuotient(offset, config.batchSize);
    var job := JobFor(src, archive, table, year, columns, config, totalRows);
    var loop, pages := CopyBatches(src, archive, table, year, columns, insertQuery, job,
                                   Progress(offset, migratedRows, batchCount));
    WrittenByPage(pages, loop.batches, job, src, archive, table, year, columns, insertQuery);
    return loop.err, loop.batches, loop.heartbeats, loop.final.migratedRows, pages;
  }

  /** The job's batch step is `migrateBatch` on the table-year's rows, and
      its writes are those of `migrateBatch` with `query`. */
  ghost predicate StepsByMigrateBatch(job: CopyJob, src: SourceDb, archive: ArchiveDb, table: Table, year: int,
                                      columns: seq<ColumnInfo>, query: string)
  {
    && (forall size, offset {:trigger BatchOutcome(src, archive, table, year, columns, size, offset)} ::
          job.batch(size, offset) == BatchOutcome(src, archive, table, year, columns, size, offset))
    && (forall size, offset {:trigger PageWrites(src, archive, table, year, columns, query, size, offset)} ::
          job.writes(size, offset) == PageWrites(src, archive, table, year, columns, query, size, offset))
  }

  /** `migrateBatch` as the job's batch step. */
  method MigrateJobBatch(src: SourceDb, archive: ArchiveDb, table: Table, year: int, columns: seq<ColumnInfo>,
                         insertQuery: string, job: CopyJob, batchSize: int, offset: int)
    returns (rowsAffected: int, err: Option<Error>, written: seq<Statement>)
    requires StepsByMigrateBatch(job, src, archive, table, year, columns, insertQuery)
    ensures (rowsAffected, err) == job.batch(batchSize, offset)
    ensures written == job.writes(batchSize, offset)
  {
    rowsAffected, err, written := MigrateBatch(src, archive, table, year, columns, insertQuery, batchSize, offset);
  }

  /** The statements written, batch by batch: `written[k]` is what the step
      wrote for the page of batch `k`. */
  ghost predicate WrittenByStep(written: seq<seq<Statement>>, bs: seq<BatchRecord>, job: CopyJob)
  {
    && |written| == |bs|
    && forall k :: 0 <= k < |bs| ==> written[k] == job.writes(bs[k].size, bs[k].offset)
  }

  lemma WrittenByStepExtend(written: seq<seq<Statement>>, bs: seq<BatchRecord>, job: CopyJob,
                            page: seq<Statement>, record: BatchRecord)
    requires WrittenByStep(written, bs, job)
    requires page == job.writes(record.size, record.offset)
    ensures WrittenByStep(written + [page], bs + [record], job)
  {
  }

  /** With `migrateBatch` as the step, every batch's entry holds the writes
      of its own page. */
  lemma WrittenByPage(written: seq<seq<Statement>>, bs: seq<BatchRecord>, job: CopyJob, src: SourceDb,
                      archive: ArchiveDb, table: Table, year: int, columns: seq<ColumnInfo>, query: string)
    requires WrittenByStep(written, bs, job)
    requires StepsByMigrateBatch(job, src, archive, table, year, columns, query)
    ensures |written| == |bs|
    ensures forall k :: 0 <= k < |bs| ==>
              written[k] == PageWrites(src, archive, table, year, columns, query, bs[k].size, bs[k].offset)
  {
  }

  /** The batch loop of `MigrateTableData`, from the given counters until the
      offset reaches the row count or a batch fails. `job.batch` is
      `migrateBatch` on this table-year. */
  method CopyBatches(src: SourceDb, archive: ArchiveDb, table: Table, year: int, columns: seq<ColumnInfo>,
                     insertQuery: string, job: CopyJob, start: Progress)
    returns (r: LoopResult, written: seq<seq<Statement>>)
    requires ValidJob(job)
    requires StepsByMigrateBatch(job, src, archive, table, year, columns, insertQuery)
    ensures r == CopyLoop(job, start)
    ensures WrittenByStep(written, r.batches, job)
  {
    var offset, migratedRows, batchCount := start.offset, start.migratedRows, start.batchCount;
    var totalRows := job.total;
    ghost var full := CopyLoop(job, start);
    var batches: seq<BatchRecord>, heartbeats: seq<Heartbeat> := [], [];
    written := [];
    while offset < totalRows
      invariant Accounts(job, full, Progress(offset, migratedRows, batchCount), batches, heartbeats)
      invariant WrittenByStep(written, batches, job)
      decreases totalRows - offset
    {
      ghost var before := Progress(offset, migratedRows, batchCount);
      ghost var done, beaten := batches, heartbeats;
      batchCount := batchCount + 1;
      var batchSize := job.batchSize;
      if offset + batchSize > totalRows {
        batchSize := totalRows - offset;
      }
      var rowsAffected, batchErr, page := MigrateJobBatch(src, archive, table, year, columns, insertQuery, job,
                                                          batchSize, offset);
      var record := BatchRecord(batchCount, offset, batchSize, rowsAffected);
      WrittenByStepExtend(written, batches, job, page, record);
      batches, written := batches + [record], written + [page];
      if batchErr.Some? {
        CopyLoopStop(job, full, before, done, beaten, batchSize, rowsAffected, batchErr.value, batches);
        return LoopResult(Some(BatchFailure(offset, batchErr.value)), batches, heartbeats,
                          Progress(offset, migratedRows, batchCount)), written;
      }
      migratedRows := migratedRows + rowsAffected;
      offset := offset + batchSize;
      heartbeats := heartbeats + HeartbeatDue(batchCount, migratedRows, job.interval, totalRows);
      CopyLoopAdvance(job, full, before, done, beaten, batchSize, rowsAffected,
                      Progress(offset, migratedRows, batchCount), batches, heartbeats);
    }
    CopyLoopDone(job, full, Progress(offset, migratedRows, batchCount), batches, heartbeats);
    return LoopResult(None, batches, heartbeats, Progress(offset, migratedRows, batchCount)), written;
  }

  // ---------------------------------------------------------------------------
  // ValidateMigration and DeleteMigratedData
  // ---------------------------------------------------------------------------

  /** `ValidateMigration` over the two row counts for the table-year. */
  function ValidateMigration(sourceCount: Result<int, Error>, archiveCount: Result<int, Error>): (r: Option<Error>)
  {
    match sourceCount
    case Err(e) => Some(Wrapped("failed to count source rows", e))
    case Ok(s) =>
      match archiveCount
      case Err(e) => Some(Wrapped("failed to count archive rows", e))
      case Ok(a) =>
        if a < s then
          Some(Failure("migration validation failed: source has " + FormatInt(s) + " rows, archive has "
                       + FormatInt(a) + " rows (expected at least " + FormatInt(s) + ")"))
        else None
  }

  /** Validation fails exactly on a shortfall, and a passing pair keeps passing
      when the archive grows or the source shrinks. */
  lemma ValidationIsShortfallCheck(s: int, a: int, s2: int, a2: int)
    ensures ValidateMigration(Ok(s), Ok(a)).Some? <==> a < s
    ensures ValidateMigration(Ok(s), Ok(a)).None? && s2 <= s && a <= a2 ==> ValidateMigration(Ok(s2), Ok(a2)).None?
  {
  }

  function DeleteQuery(table: Table, year: int): string
  {
    "DELETE FROM " + Quote(table.name) + YearFilter(table.splitColumn, year)
  }

  /** What `DeleteMigratedData` did: its error and the statements it ran. */
  datatype PruneStep = PruneStep(err: Option<Error>, executed: seq<string>)

  /** `DeleteMigratedData`: a year-filtered delete, only when configured. */
  function DeleteMigratedData(table: Table, year: int, options: ArchiveOptions, exec: string -> Result<int, Error>): (r: PruneStep)
  {
    if !options.deleteAfterArchive then PruneStep(None, [])
    else
      var q := DeleteQuery(table, year);
      match exec(q)
      case Err(e) => PruneStep(Some(Wrapped("failed to delete migrated data", e)), [q])
      case Ok(_) => PruneStep(None, [q])
  }

  /** Nothing is deleted unless `DeleteAfterArchive` is set; when it is,
      exactly the one year-filtered delete runs. */
  lemma PruneOnlyWhenConfigured(table: Table, year: int, options: ArchiveOptions, exec: string -> Result<int, Error>)
    ensures var r := DeleteMigratedData(table, year, options, exec);
            && (r.executed != [] <==> options.deleteAfterArchive)
            && (!options.deleteAfterArchive ==> r.err.None?)
            && (r.executed == [] || r.executed == [DeleteQuery(table, year)])
            && (r.err.Some? ==> r.err.value.Wrapped? && r.err.value.inner == exec(DeleteQuery(table, year)).error)
  {
  }

  /** The delete removes the rows of the same year the copy selected: both
      statements carry the same year filter. */
  lemma DeleteMatchesCopiedYear(table: Table, year: int, columns: seq<ColumnInfo>, limit: int, offset: int)
    ensures HasSuffix(DeleteQuery(table, year), YearFilter(table.splitColumn, year))
    ensures Contains(SelectWithColumns(table.name, table.splitColumn, year, limit, offset, columns),
                     YearFilter(table.splitColumn, year))
  {
    var filter := YearFilter(table.splitColumn, year);
    var d := DeleteQuery(table, year);
    assert d[|d| - |filter|..] == filter;
    var lead := " FROM " + Quote(table.name);
    assert filter <= filter;
    ContainsExtendLeft(lead, filter, filter);
    var s := lead + filter;
    ContainsExtendRight(s, " LIMIT ", filter);
    s := s + " LIMIT ";
    ContainsExtendRight(s, FormatInt(limit), filter);
    s := s + FormatInt(limit);
    ContainsExtendRight(s, " OFFSET ", filter);
    s := s + " OFFSET ";
    ContainsExtendRight(s, FormatInt(offset), filter);
    s := s + FormatInt(offset);
    assert s == YearPage(table.name, table.splitColumn, year, limit, offset);
    ContainsExtendLeft("SELECT " + Join(Projections(columns), ", "), s, filter);
  }
}
