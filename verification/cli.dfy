/** The orchestration of cmd/main.go: the stages `processTableYear` runs for
    one table-year, the main loop's walk over enabled tables and years with
    its error policy and heartbeat fallback, and `getPlatformName`'s reading
    of binary file names. */
module Cli {
  import opened Wrappers
  import opened Text
  import opened Errors
  import opened Types
  import opened Schema
  import opened Connection
  import opened Migration
  import opened BatchLoop

  // ---------------------------------------------------------------------------
  // processTableYear
  // ---------------------------------------------------------------------------

  /** A step `processTableYear` takes. */
  datatype Stage =
    | ConnectArchive(dsn: string)   // ConnectArchiveDB
    | CreateDatabase(name: string)  // CreateArchiveDatabase
    | GetSchema                     // GetTableSchema
    | CreateTable                   // CreateArchiveTable
    | MigrateData                   // MigrateTableData
    | Validate                      // ValidateMigration
    | Delete                        // DeleteMigratedData

  /** The stages after the archive connection, in the order they run. */
  const Pipeline: seq<Stage> := [GetSchema, CreateTable, MigrateData, Validate, Delete]

  /** The context `processTableYear` wraps a stage's error in. */
  function FailureContext(s: Stage): string
  {
    match s
    case ConnectArchive(_) => "failed to connect to archive database"
    case CreateDatabase(_) => "failed to create archive database"
    case GetSchema => "failed to get table schema"
    case CreateTable => "failed to create archive table"
    case MigrateData => "failed to migrate data"
    case Validate => "migration validation failed"
    case Delete => "failed to delete migrated data"
  }

  /** What the outside world answers during one table-year. */
  datatype World = World(
    connect: Option<Error>,                   // ConnectArchiveDB, first attempt
    createDatabase: string -> Option<Error>,  // CreateArchiveDatabase, by name
    reconnect: Option<Error>,                 // ConnectArchiveDB after creating
    schema: Result<string, Error>,            // GetTableSchema
    tableCount: Result<int, Error>,           // the catalog count CheckTableExists reads
    execCreate: string -> Option<Error>,      // Exec of the creation statement
    source: SourceDb,
    archive: ArchiveDb,
    sourceCount: Result<int, Error>,          // the two counts ValidateMigration reads
    archiveCount: Result<int, Error>,
    execDelete: string -> Result<int, Error>) // Exec of the delete statement

  /** The outcome of one table-year: its error and the stages it ran. */
  datatype YearRun = YearRun(err: Option<Error>, stages: seq<Stage>)

  /** Connecting to the archive: one attempt, and with `CreateArchiveDB` set a
      failed attempt is followed by creating the database and one retry. */
  function ConnectArchiveDb(db: Database, table: Table, year: int, options: ArchiveOptions, w: World): YearRun
  {
    var dsn := ArchiveDsn(db, table, year);
    match w.connect
    case None => YearRun(None, [ConnectArchive(dsn)])
    case Some(e) =>
      if !options.createArchiveDb then
        YearRun(Some(Wrapped("failed to connect to archive database", e)), [ConnectArchive(dsn)])
      else
        var name := BuildArchiveDbName(table.archivePattern, year);
        match w.createDatabase(name)
        case Some(e2) =>
          YearRun(Some(Wrapped("failed to create archive database", e2)), [ConnectArchive(dsn), CreateDatabase(name)])
        case None =>
          match w.reconnect
          case Some(e3) =>
            YearRun(Some(Wrapped("failed to connect to newly created archive database", e3)),
                    [ConnectArchive(dsn), CreateDatabase(name), ConnectArchive(dsn)])
          case None => YearRun(None, [ConnectArchive(dsn), CreateDatabase(name), ConnectArchive(dsn)])
  }

  /** The stages after connecting: schema, table, data, validation, prune;
      the first failure is returned wrapped and nothing after it runs. */
  function ArchiveStages(table: Table, year: int, options: ArchiveOptions, w: World): YearRun
    requires BatchSizeFitsLoop(w.source, options)
  {
    match w.schema
    case Err(e) => YearRun(Some(Wrapped("failed to get table schema", e)), Pipeline[..1])
    case Ok(schema) =>
      var created := CreateArchiveTable(schema, table.name, w.tableCount, w.execCreate);
      if created.err.Some? then YearRun(Some(Wrapped("failed to create archive table", created.err.value)), Pipeline[..2])
      else
        var migrated := Migrate(w.source, w.archive, table, year, options);
        if migrated.err.Some? then YearRun(Some(Wrapped("failed to migrate data", migrated.err.value)), Pipeline[..3])
        else
          match ValidateMigration(w.sourceCount, w.archiveCount)
          case Some(e) => YearRun(Some(Wrapped("migration validation failed", e)), Pipeline[..4])
          case None =>
            var pruned := DeleteMigratedData(table, year, options, w.execDelete);
            if pruned.err.Some? then YearRun(Some(Wrapped("failed to delete migrated data", pruned.err.value)), Pipeline)
            else YearRun(None, Pipeline)
  }

  /** `processTableYear`. A dry run stops before any work; otherwise the batch
      size must suit the copy loop wherever `MigrateTableData` reaches it. */
  function ProcessTableYear(db: Database, table: Table, year: int, options: ArchiveOptions, w: World): YearRun
    requires options.dryRun || BatchSizeFitsLoop(w.source, options)
  {
    if options.dryRun then YearRun(None, [])
    else
      var connected := ConnectArchiveDb(db, table, year, options, w);
      if connected.err.Some? then connected
      else
        var rest := ArchiveStages(table, year, options, w);
        YearRun(rest.err, connected.stages + rest.stages)
  }

  /** A dry run succeeds without connecting or touching any data. */
  lemma DryRunDoesNothing(db: Database, table: Table, year: int, options: ArchiveOptions, w: World)
    requires options.dryRun
    ensures ProcessTableYear(db, table, year, options, w) == YearRun(None, [])
  {
  }

  /** The archive connection is tried once, and retried exactly once after
      creating the per-year database when `CreateArchiveDB` is set; every
      attempt targets the per-year archive, and the database created is the
      one the pattern names for the year. */
  lemma ConnectRetriesOnce(db: Database, table: Table, year: int, options: ArchiveOptions, w: World)
    ensures var c := ConnectArchiveDb(db, table, year, options, w);
            var dsn := ArchiveDsn(db, table, year);
            var name := BuildArchiveDbName(table.archivePattern, year);
            && (c.stages == [ConnectArchive(dsn)]
                || c.stages == [ConnectArchive(dsn), CreateDatabase(name)]
                || c.stages == [ConnectArchive(dsn), CreateDatabase(name), ConnectArchive(dsn)])
            && (|c.stages| > 1 <==> options.createArchiveDb && w.connect.Some?)
            && (|c.stages| == 3 <==> options.createArchiveDb && w.connect.Some? && w.createDatabase(name).None?)
            && (c.err.None? <==> w.connect.None? || (options.createArchiveDb && w.createDatabase(name).None? && w.reconnect.None?))
            && (c.err.Some? ==> c.err.value.Wrapped?)
  {
  }

  /** After connecting, the stages run in their fixed order, each only when
      every stage before it succeeded: the stages run are a prefix of the
      pipeline, a success runs all of them, and an error is the last stage's
      own, wrapped in that stage's context. */
  lemma StagesRunInOrder(table: Table, year: int, options: ArchiveOptions, w: World)
    requires BatchSizeFitsLoop(w.source, options)
    ensures var s := ArchiveStages(table, year, options, w);
            && 1 <= |s.stages| <= |Pipeline|
            && s.stages == Pipeline[..|s.stages|]
            && (s.err.None? ==> s.stages == Pipeline)
            && (s.err.Some? ==> s.err.value.Wrapped? && s.err.value.context == FailureContext(s.stages[|s.stages| - 1]))
  {
    assert Pipeline[..|Pipeline|] == Pipeline;
    if w.schema.Ok? {
      var created := CreateArchiveTable(w.schema.value, table.name, w.tableCount, w.execCreate);
      if created.err.None? {
        var migrated := Migrate(w.source, w.archive, table, year, options);
        if migrated.err.None? && ValidateMigration(w.sourceCount, w.archiveCount).None? {
          assert ArchiveStages(table, year, options, w).stages == Pipeline;
        }
      }
    }
  }

  /** Data is pruned only after it was copied and validated: the prune stage
      runs only when the migration succeeded and validation passed, and the
      migration only when the archive table exists or was created. */
  lemma PruneOnlyAfterValidation(table: Table, year: int, options: ArchiveOptions, w: World)
    requires BatchSizeFitsLoop(w.source, options)
    ensures var s := ArchiveStages(table, year, options, w);
            && (Delete in s.stages ==>
                  Migrate(w.source, w.archive, table, year, options).err.None?
                  && ValidateMigration(w.sourceCount, w.archiveCount).None?)
            && (MigrateData in s.stages ==>
                  w.schema.Ok? && CreateArchiveTable(w.schema.value, table.name, w.tableCount, w.execCreate).err.None?)
  {
    var s := ArchiveStages(table, year, options, w);
    assert Pipeline[..1] == [GetSchema];
    assert Pipeline[..2] == [GetSchema, CreateTable];
    assert Pipeline[..3] == [GetSchema, CreateTable, MigrateData];
    assert Pipeline[..4] == [GetSchema, CreateTable, MigrateData, Validate];
  }

  /** A `FatalMigrationError` from the migration survives the stage's
      wrapping: `errors.As` on the table-year's error finds it. */
  lemma FatalSurvivesStages(db: Database, table: Table, year: int, options: ArchiveOptions, w: World)
    requires !options.dryRun && BatchSizeFitsLoop(w.source, options)
    requires ConnectArchiveDb(db, table, year, options, w).err.None?
    requires w.schema.Ok? && CreateArchiveTable(w.schema.value, table.name, w.tableCount, w.execCreate).err.None?
    requires Migrate(w.source, w.archive, table, year, options).err.Some?
    ensures var r := ProcessTableYear(db, table, year, options, w);
            var m := Migrate(w.source, w.archive, table, year, options);
            && r.err.Some?
            && AsFatal(r.err.value) == AsFatal(m.err.value)
            && (m.batches != [] ==> IsFatal(r.err.value))
  {
    MigrateOutcomes(w.source, w.archive, table, year, options);
  }

  // ---------------------------------------------------------------------------
  // The main loop
  // ---------------------------------------------------------------------------

  /** The table-years of one table, in year order. */
  function YearsOf(table: Table, years: seq<int>): (r: seq<(Table, int)>)
    ensures |r| == |years|
  {
    seq(|years|, i requires 0 <= i < |years| => (table, years[i]))
  }

  /** The table-years the main loop works through: every enabled table, in
      order, each with every configured year, in order. */
  function WorkList(tables: seq<Table>, years: seq<int>): seq<(Table, int)>
  {
    if tables == [] then []
    else (if tables[0].enabled then YearsOf(tables[0], years) else []) + WorkList(tables[1..], years)
  }

  /** A zero heartbeat interval in the archive options is replaced by the
      processing section's interval before each table-year. */
  function EffectiveOptions(config: Config): ArchiveOptions
  {
    var options := config.archive.options;
    if options.heartbeatBatchInterval == 0 then
      options.(heartbeatBatchInterval := config.processing.heartbeatBatchInterval)
    else options
  }

  /** How the program ends. Both kinds of stop exit with status 1. */
  datatype RunExit = Completed | FatalExit(fatal: Error) | StoppedOnError(err: Error)

  function ExitCode(exit: RunExit): int
  {
    if exit.Completed? then 0 else 1
  }

  /** The exit and the table-years attempted. */
  datatype MainRun = MainRun(exit: RunExit, attempted: seq<(Table, int)>)

  /** For every table-year the main loop visits, the run is dry or the batch
      size suits that table-year's copy loop. */
  ghost predicate BatchSizesFit(config: Config, world: (Table, int) -> World)
  {
    forall t, y {:trigger world(t, y)} ::
      t in config.tables && t.enabled && y in config.archive.years ==>
        config.archive.options.dryRun || BatchSizeFitsLoop(world(t, y).source, config.archive.options)
  }

  /** `processTableYear` for each table-year, with fixed connection settings,
      options and world. A table-year whose batch size does not suit its copy
      loop is one the main loop never visits (see `BatchSizesFit`), and gets an
      empty run. */
  function YearRuns(db: Database, options: ArchiveOptions, world: (Table, int) -> World): (Table, int) -> YearRun
  {
    (t: Table, y: int) =>
      if options.dryRun || BatchSizeFitsLoop(world(t, y).source, options)
      then ProcessTableYear(db, t, y, options, world(t, y))
      else YearRun(None, [])
  }

  /** What the main loop does after a table-year: go on (None) or end the
      run. A fatal error ends it whatever `ContinueOnError` says; any other
      error ends it unless `ContinueOnError` is set. */
  function Verdict(run: YearRun, continueOnError: bool): Option<RunExit>
  {
    match run.err
    case None => None
    case Some(e) =>
      match AsFatal(e)
      case Some(fatal) => Some(FatalExit(fatal))
      case None => if continueOnError then None else Some(StoppedOnError(e))
  }

  /** The error policy of the main loop, case by case: a success never ends
      the run; a fatal error ends it with the `FatalMigrationError` found in
      it, whether or not `ContinueOnError` is set; any other error ends it
      exactly when `ContinueOnError` is not set; and every end exits 1. */
  lemma ErrorPolicy(run: YearRun, continueOnError: bool)
    ensures run.err.None? ==> Verdict(run, continueOnError) == None
    ensures run.err.Some? && IsFatal(run.err.value) ==>
              Verdict(run, continueOnError) == Some(FatalExit(AsFatal(run.err.value).value))
    ensures run.err.Some? && !IsFatal(run.err.value) ==>
              (Verdict(run, continueOnError).None? <==> continueOnError)
    ensures Verdict(run, continueOnError).Some? ==> ExitCode(Verdict(run, continueOnError).value) == 1
  {
  }

  /** The main loop over a work list. */
  function RunWork(continueOnError: bool, runs: (Table, int) -> YearRun, work: seq<(Table, int)>): MainRun
  {
    if work == [] then MainRun(Completed, [])
    else
      match Verdict(runs(work[0].0, work[0].1), continueOnError)
      case Some(exit) => MainRun(exit, [work[0]])
      case None =>
        var rest := RunWork(continueOnError, runs, work[1..]);
        MainRun(rest.exit, [work[0]] + rest.attempted)
  }

  /** The loop state accounts for the whole run: the table-years attempted so
      far, followed by what the loop still does over `pending`. */
  ghost predicate Accounts(full: MainRun, attempted: seq<(Table, int)>,
                           continueOnError: bool, runs: (Table, int) -> YearRun, pending: seq<(Table, int)>)
  {
    var rest := RunWork(continueOnError, runs, pending);
    full.exit == rest.exit && full.attempted == attempted + rest.attempted
  }

  /** One table-year of the main loop keeps the account. */
  lemma AccountsAdvance(full: MainRun, attempted: seq<(Table, int)>,
                        continueOnError: bool, runs: (Table, int) -> YearRun, pending: seq<(Table, int)>)
    requires pending != []
    requires Accounts(full, attempted, continueOnError, runs, pending)
    ensures var v := Verdict(runs(pending[0].0, pending[0].1), continueOnError);
            && (v.None? ==> Accounts(full, attempted + [pending[0]], continueOnError, runs, pending[1..]))
            && (v.Some? ==> full == MainRun(v.value, attempted + [pending[0]]))
  {
    var v := Verdict(runs(pending[0].0, pending[0].1), continueOnError);
    if v.None? {
      var rest := RunWork(continueOnError, runs, pending[1..]);
      assert attempted + ([pending[0]] + rest.attempted) == attempted + [pending[0]] + rest.attempted;
    }
  }

  /** The work list from the `ti`-th table on: that table's table-years when
      it is enabled, then the rest. */
  lemma WorkListStep(tables: seq<Table>, ti: nat, years: seq<int>)
    requires ti < |tables|
    ensures WorkList(tables[ti..], years) ==
            (if tables[ti].enabled then YearsOf(tables[ti], years[0..]) else []) + WorkList(tables[ti + 1..], years)
    ensures tables[ti].enabled ==> YearsOf(tables[ti], years[|years|..]) + WorkList(tables[ti + 1..], years) == WorkList(tables[ti + 1..], years)
    ensures !tables[ti].enabled ==> WorkList(tables[ti..], years) == WorkList(tables[ti + 1..], years)
  {
    assert tables[ti..][0] == tables[ti] && tables[ti..][1..] == tables[ti + 1..];
    assert years[0..] == years;
    assert YearsOf(tables[ti], years[|years|..]) == [];
  }

  /** The pending table-years from the `yi`-th year on start with that year. */
  lemma YearsOfStep(table: Table, years: seq<int>, yi: nat, later: seq<(Table, int)>)
    requires yi < |years|
    ensures (YearsOf(table, years[yi..]) + later)[0] == (table, years[yi])
    ensures (YearsOf(table, years[yi..]) + later)[1..] == YearsOf(table, years[yi + 1..]) + later
  {
    assert YearsOf(table, years[yi..])[1..] == YearsOf(table, years[yi + 1..]);
  }

  /** A table-year the main loop visits runs `processTableYear` with the
      effective options, and its verdict either keeps the account for the
      table-years after it or ends the run there. */
  lemma YearStep(config: Config, world: (Table, int) -> World, full: MainRun, attempted: seq<(Table, int)>,
                 ti: nat, yi: nat, later: seq<(Table, int)>)
    requires BatchSizesFit(config, world)
    requires ti < |config.tables| && config.tables[ti].enabled && yi < |config.archive.years|
    requires Accounts(full, attempted, config.processing.continueOnError,
                      YearRuns(config.database, EffectiveOptions(config), world),
                      YearsOf(config.tables[ti], config.archive.years[yi..]) + later)
    ensures var table := config.tables[ti];
            var year := config.archive.years[yi];
            var options := EffectiveOptions(config);
            var runs := YearRuns(config.database, options, world);
            && (options.dryRun || BatchSizeFitsLoop(world(table, year).source, options))
            && var v := Verdict(ProcessTableYear(config.database, table, year, options, world(table, year)),
                                config.processing.continueOnError);
            && (v.None? ==> Accounts(full, attempted + [(table, year)], config.processing.continueOnError, runs,
                                     YearsOf(table, config.archive.years[yi + 1..]) + later))
            && (v.Some? ==> full == MainRun(v.value, attempted + [(table, year)]))
  {
    var table := config.tables[ti];
    var year := config.archive.years[yi];
    var runs := YearRuns(config.database, EffectiveOptions(config), world);
    YearsOfStep(table, config.archive.years, yi, later);
    AccountsAdvance(full, attempted, config.processing.continueOnError, runs,
                    YearsOf(table, config.archive.years[yi..]) + later);
    assert table in config.tables && year in config.archive.years;
  }

  /** The main loop of `main`, after loading the configuration and opening the
      source database. */
  method RunTables(config: Config, world: (Table, int) -> World) returns (exit: RunExit, attempted: seq<(Table, int)>)
    requires BatchSizesFit(config, world)
    ensures MainRun(exit, attempted) ==
            RunWork(config.processing.continueOnError, YearRuns(config.database, EffectiveOptions(config), world),
                    WorkList(config.tables, config.archive.years))
  {
    var options := config.archive.options;
    var years := config.archive.years;
    var continueOnError := config.processing.continueOnError;
    ghost var effective := EffectiveOptions(config);
    ghost var runs := YearRuns(config.database, effective, world);
    ghost var full := RunWork(continueOnError, runs, WorkList(config.tables, years));
    attempted := [];
    for ti := 0 to |config.tables|
      invariant options == config.archive.options || options == effective
      invariant Accounts(full, attempted, continueOnError, runs, WorkList(config.tables[ti..], years))
    {
      var table := config.tables[ti];
      ghost var later := WorkList(config.tables[ti + 1..], years);
      WorkListStep(config.tables, ti, years);
      if table.enabled {
        for yi := 0 to |years|
          invariant options == config.archive.options || options == effective
          invariant Accounts(full, attempted, continueOnError, runs,
                             YearsOf(table, years[yi..]) + later)
        {
          var year := years[yi];
          if options.heartbeatBatchInterval == 0 {
            options := options.(heartbeatBatchInterval := config.processing.heartbeatBatchInterval);
          }
          assert options == effective;
          YearStep(config, world, full, attempted, ti, yi, later);
          var run := ProcessTableYear(config.database, table, year, options, world(table, year));
          attempted := attempted + [(table, year)];
          if run.err.Some? {
            var fatal := AsFatal(run.err.value);
            if fatal.Some? {
              return FatalExit(fatal.value), attempted;
            }
            if !continueOnError {
              return StoppedOnError(run.err.value), attempted;
            }
          }
        }
      }
    }
    assert config.tables[|config.tables|..] == [];
    return Completed, attempted;
  }

  /** The work list holds exactly the enabled tables' table-years: disabled
      tables are skipped, and every configured year is visited. */
  lemma {:induction false} WorkListMembers(tables: seq<Table>, years: seq<int>, t: Table, y: int)
    ensures (t, y) in WorkList(tables, years) <==> t in tables && t.enabled && y in years
  {
    if tables != [] {
      WorkListMembers(tables[1..], years, t, y);
      if tables[0] == t && t.enabled && y in years {
        var i :| 0 <= i < |years| && years[i] == y;
        assert YearsOf(t, years)[i] == (t, y);
      }
      assert tables == [tables[0]] + tables[1..];
    }
  }

  /** The table-years attempted are a prefix of the work list, all of it
      when the run completed. */
  lemma {:induction false} RunWorkAttemptsPrefix(continueOnError: bool, runs: (Table, int) -> YearRun,
                                                 work: seq<(Table, int)>)
    ensures var r := RunWork(continueOnError, runs, work);
            && |r.attempted| <= |work|
            && r.attempted == work[..|r.attempted|]
            && (r.exit.Completed? ==> r.attempted == work)
            && (work != [] ==> |r.attempted| > 0)
  {
    if work != [] {
      RunWorkAttemptsPrefix(continueOnError, runs, work[1..]);
      var rest := RunWork(continueOnError, runs, work[1..]);
      if Verdict(runs(work[0].0, work[0].1), continueOnError).None? {
        assert work == [work[0]] + work[1..];
        assert work[..1 + |rest.attempted|] == [work[0]] + work[1..][..|rest.attempted|];
      }
    }
  }

  /** Every table-year attempted but the last went on, and a run that did
      not complete ended on its last table-year with that table-year's
      verdict. */
  lemma {:induction false} RunWorkStopsAtFirstVerdict(continueOnError: bool, runs: (Table, int) -> YearRun,
                                                      work: seq<(Table, int)>)
    ensures var r := RunWork(continueOnError, runs, work);
            && (forall k :: 0 <= k < |r.attempted| - 1 && k < |work| ==> Verdict(runs(work[k].0, work[k].1), continueOnError).None?)
            && (!r.exit.Completed? ==>
                  0 < |r.attempted| <= |work| && Verdict(runs(work[|r.attempted| - 1].0, work[|r.attempted| - 1].1), continueOnError) == Some(r.exit))
  {
    if work != [] {
      RunWorkStopsAtFirstVerdict(continueOnError, runs, work[1..]);
      var rest := RunWork(continueOnError, runs, work[1..]);
      if Verdict(runs(work[0].0, work[0].1), continueOnError).None? {
        assert forall k :: 1 <= k < |work| ==> work[k] == work[1..][k - 1];
      }
    }
  }

  /** The run completes exactly when every table-year's verdict is to go on. */
  lemma {:induction false} RunWorkCompletes(continueOnError: bool, runs: (Table, int) -> YearRun,
                                            work: seq<(Table, int)>)
    ensures RunWork(continueOnError, runs, work).exit.Completed? <==>
            forall k :: 0 <= k < |work| ==> Verdict(runs(work[k].0, work[k].1), continueOnError).None?
  {
    if work != [] {
      RunWorkCompletes(continueOnError, runs, work[1..]);
      assert forall k :: 1 <= k < |work| ==> work[k] == work[1..][k - 1];
    }
  }

  /** With `ContinueOnError` set and no fatal error, every enabled table's
      every year is attempted and the program exits 0. */
  lemma ContinueOnErrorVisitsAll(config: Config, world: (Table, int) -> World)
    requires BatchSizesFit(config, world)
    requires config.processing.continueOnError
    requires forall t, y {:trigger world(t, y)} :: t in config.tables && t.enabled && y in config.archive.years ==>
               var run := ProcessTableYear(config.database, t, y, EffectiveOptions(config), world(t, y));
               run.err.Some? ==> !IsFatal(run.err.value)
    ensures var r := RunWork(true, YearRuns(config.database, EffectiveOptions(config), world),
                             WorkList(config.tables, config.archive.years));
            r.exit == Completed && ExitCode(r.exit) == 0 && r.attempted == WorkList(config.tables, config.archive.years)
  {
    var work := WorkList(config.tables, config.archive.years);
    var runs := YearRuns(config.database, EffectiveOptions(config), world);
    forall k | 0 <= k < |work| ensures Verdict(runs(work[k].0, work[k].1), true).None? {
      WorkListMembers(config.tables, config.archive.years, work[k].0, work[k].1);
      assert work[k] == (work[k].0, work[k].1);
    }
    RunWorkCompletes(true, runs, work);
    RunWorkAttemptsPrefix(true, runs, work);
  }

  /** The heartbeat interval a table-year's copy loop uses: the archive
      option when positive; when it is zero, the processing interval when
      that is positive; 10 otherwise. Nothing else in the options changes. */
  lemma HeartbeatFallback(config: Config)
    ensures var a := config.archive.options.heartbeatBatchInterval;
            var p := config.processing.heartbeatBatchInterval;
            HeartbeatInterval(EffectiveOptions(config)) ==
              if a > 0 then a else if a == 0 && p > 0 then p else 10
    ensures EffectiveOptions(config).(heartbeatBatchInterval := config.archive.options.heartbeatBatchInterval)
            == config.archive.options
  {
  }

  // ---------------------------------------------------------------------------
  // getPlatformName
  // ---------------------------------------------------------------------------

  const BinaryPrefix := "data-splitter-"

  /** The name `buildCrossPlatform` gives the binary for a platform. */
  function BinaryName(os: string, arch: string): string
  {
    BinaryPrefix + os + "-" + arch + (if os == "windows" then ".exe" else "")
  }

  /** `getPlatformName`: strip the prefix and the ".exe" suffix, split on "-",
      and label the first two parts; anything else is returned unchanged. */
  function GetPlatformName(filename: string): string
  {
    var name := TrimSuffix(TrimPrefix(filename, BinaryPrefix), ".exe");
    var parts := SplitOn(name, "-");
    if |parts| >= 2 then
      var os := parts[0];
      var arch := parts[1];
      if os == "linux" then "Linux (" + arch + ")"
      else if os == "darwin" then (if arch == "arm64" then "macOS (Apple Silicon)" else "macOS (Intel, " + arch + ")")
      else if os == "windows" then "Windows (" + arch + ")"
      else filename
    else filename
  }

  lemma ExeSuffixHasDot(s: string)
    ensures HasSuffix(s, ".exe") ==> '.' in s
  {
    if HasSuffix(s, ".exe") {
      assert s[|s| - 4] == ".exe"[0];
    }
  }

  /** Reading back the name of a built binary recovers its platform: the
      label names the operating system and the architecture. */
  lemma PlatformOfBinary(os: string, arch: string)
    requires os == "linux" || os == "darwin" || os == "windows"
    requires '-' !in arch && '.' !in arch
    ensures GetPlatformName(BinaryName(os, arch)) ==
            if os == "linux" then "Linux (" + arch + ")"
            else if os == "windows" then "Windows (" + arch + ")"
            else if arch == "arm64" then "macOS (Apple Silicon)"
            else "macOS (Intel, " + arch + ")"
  {
    var file := BinaryName(os, arch);
    var stem := os + "-" + arch;
    var suffix := if os == "windows" then ".exe" else "";
    assert file == BinaryPrefix + (stem + suffix);
    assert TrimPrefix(file, BinaryPrefix) == stem + suffix;
    if os == "windows" {
      assert (stem + suffix)[..|stem + suffix| - 4] == stem;
    } else {
      assert stem + suffix == stem;
      assert '.' !in stem;
      ExeSuffixHasDot(stem);
    }
    assert stem == os + ['-'] + arch;
    assert '-' !in os;
    SplitOnAtFirst(os, '-', arch);
    AbsentCharNotContained(arch, '-');
    SplitOnAbsent(arch, "-");
  }

  /** A name of the built shape whose operating system part is none of the
      three known ones is returned unchanged, whatever its architecture. */
  lemma OtherOsKept(os: string, arch: string)
    requires os != "linux" && os != "darwin" && os != "windows" && '-' !in os
    ensures GetPlatformName(BinaryName(os, arch)) == BinaryName(os, arch)
  {
    var stem := os + "-" + arch;
    assert BinaryName(os, arch) == BinaryPrefix + stem;
    assert TrimPrefix(BinaryName(os, arch), BinaryPrefix) == stem;
    var rest: string;
    if HasSuffix(stem, ".exe") {
      // the '-' after the os part lies before the ".exe" suffix
      assert stem[|os|] == '-';
      assert |arch| >= 4;
      rest := arch[..|arch| - 4];
      assert TrimSuffix(stem, ".exe") == os + ['-'] + rest;
    } else {
      rest := arch;
      assert TrimSuffix(stem, ".exe") == os + ['-'] + rest;
    }
    SplitOnAtFirst(os, '-', rest);
  }

  /** A name with no "-" left after stripping has fewer than two parts and is
      returned unchanged. */
  lemma UnsplittableNameKept(filename: string)
    requires '-' !in TrimSuffix(TrimPrefix(filename, BinaryPrefix), ".exe")
    ensures GetPlatformName(filename) == filename
  {
    var name := TrimSuffix(TrimPrefix(filename, BinaryPrefix), ".exe");
    AbsentCharNotContained(name, '-');
    SplitOnAbsent(name, "-");
  }
}
