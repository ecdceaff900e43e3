/** `validateConfig` of internal/config/config.go: the ordered guard checks a
    loaded configuration must pass. */
module ConfigValidation {
  import opened Wrappers
  import opened Text
  import opened Types

  /** The errors `validateConfig` reports, one per guard. */
  datatype ConfigError =
    | MissingDatabaseType
    | MissingHost
    | MissingSourceDb
    | NoTables
    | NoYears
    | MissingTableName(index: nat)
    | MissingSplitColumn(index: nat)

  /** The text of each error. */
  function ErrorText(e: ConfigError): string
  {
    match e
    case MissingDatabaseType => "database.type is required"
    case MissingHost => "database.host is required"
    case MissingSourceDb => "database.source_db is required"
    case NoTables => "at least one table must be configured"
    case NoYears => "at least one year must be specified in archive.years"
    case MissingTableName(i) => "table[" + FormatInt(i) + "].name is required"
    case MissingSplitColumn(i) => "table[" + FormatInt(i) + "].split_column is required when enabled"
  }

  /** What is wrong with the table at index `i`, if anything: a missing name,
      or a missing split column on an enabled table. */
  function TableProblem(table: Table, i: nat): (r: Option<ConfigError>)
  {
    if table.name == "" then Some(MissingTableName(i))
    else if table.enabled && table.splitColumn == "" then Some(MissingSplitColumn(i))
    else None
  }

  /** The first problem among `tables[from..]`, in index order. */
  function FirstTableProblem(tables: seq<Table>, from: nat): Option<ConfigError>
    requires from <= |tables|
    decreases |tables| - from
  {
    if from == |tables| then None
    else if TableProblem(tables[from], from).Some? then TableProblem(tables[from], from)
    else FirstTableProblem(tables, from + 1)
  }

  /** `validateConfig`: the database fields, then the table and year lists,
      then each table in order; the first failing check decides. */
  function ValidateConfig(config: Config): (r: Option<ConfigError>)
  {
    if config.database.dbType == "" then Some(MissingDatabaseType)
    else if config.database.host == "" then Some(MissingHost)
    else if config.database.sourceDb == "" then Some(MissingSourceDb)
    else if |config.tables| == 0 then Some(NoTables)
    else if |config.archive.years| == 0 then Some(NoYears)
    else FirstTableProblem(config.tables, 0)
  }

  /** A configuration the program accepts, stated declaratively. */
  predicate WellFormed(config: Config)
  {
    && config.database.dbType != ""
    && config.database.host != ""
    && config.database.sourceDb != ""
    && |config.tables| > 0
    && |config.archive.years| > 0
    && (forall i :: 0 <= i < |config.tables| ==> config.tables[i].name != "")
    && (forall i :: 0 <= i < |config.tables| && config.tables[i].enabled ==> config.tables[i].splitColumn != "")
  }

  /** The scan reports the table problem at the first offending index from
      `from` on, and nothing when there is none. */
  lemma {:induction false} FirstTableProblemIsFirst(tables: seq<Table>, from: nat)
    requires from <= |tables|
    ensures FirstTableProblem(tables, from).None? <==>
              forall i :: from <= i < |tables| ==> TableProblem(tables[i], i).None?
    ensures FirstTableProblem(tables, from).Some? ==>
              exists i :: from <= i < |tables| && FirstTableProblem(tables, from) == TableProblem(tables[i], i)
                          && forall j :: from <= j < i ==> TableProblem(tables[j], j).None?
    decreases |tables| - from
  {
    if from < |tables| {
      FirstTableProblemIsFirst(tables, from + 1);
      if TableProblem(tables[from], from).None? && FirstTableProblem(tables, from + 1).Some? {
        var i :| from + 1 <= i < |tables| && FirstTableProblem(tables, from + 1) == TableProblem(tables[i], i)
                 && forall j :: from + 1 <= j < i ==> TableProblem(tables[j], j).None?;
        assert forall j :: from <= j < i ==> TableProblem(tables[j], j).None?;
      }
    }
  }

  /** The validator accepts exactly the well-formed configurations. */
  lemma ValidateAcceptsExactlyWellFormed(config: Config)
    ensures ValidateConfig(config).None? <==> WellFormed(config)
  {
    FirstTableProblemIsFirst(config.tables, 0);
    var ts := config.tables;
    assert (forall i :: 0 <= i < |ts| ==> TableProblem(ts[i], i).None?) <==>
           (forall i :: 0 <= i < |ts| ==> ts[i].name != "" && (ts[i].enabled ==> ts[i].splitColumn != ""));
  }

  /** The checks run in their fixed order: a failing database or list check
      wins over everything after it, and a table error names the first
      offending index, reporting a missing name before a missing split column. */
  lemma ValidateReportsFirstFailure(config: Config)
    ensures config.database.dbType == "" ==> ValidateConfig(config) == Some(MissingDatabaseType)
    ensures config.database.dbType != "" && config.database.host == "" ==> ValidateConfig(config) == Some(MissingHost)
    ensures config.database.dbType != "" && config.database.host != "" && config.database.sourceDb == "" ==>
              ValidateConfig(config) == Some(MissingSourceDb)
    ensures ValidateConfig(config).Some? && (ValidateConfig(config).value.MissingTableName? || ValidateConfig(config).value.MissingSplitColumn?) ==>
              var e := ValidateConfig(config).value;
              var i := e.index;
              && i < |config.tables|
              && (forall j :: 0 <= j < i ==>
                    (config.tables[j].name != "" && (config.tables[j].enabled ==> config.tables[j].splitColumn != "")))
              && (e.MissingTableName? <==> config.tables[i].name == "")
              && (e.MissingSplitColumn? ==> config.tables[i].enabled && config.tables[i].splitColumn == "")
  {
    FirstTableProblemIsFirst(config.tables, 0);
  }

  /** Only the names, enabled flags and split columns of the tables are
      checked: tables that agree on those validate alike, whatever their
      archive patterns. */
  lemma {:induction false} TablesCheckedOnlyOnCheckedFields(t1: seq<Table>, t2: seq<Table>, from: nat)
    requires |t1| == |t2| && from <= |t1|
    requires forall i :: 0 <= i < |t1| ==>
               t1[i].name == t2[i].name && t1[i].enabled == t2[i].enabled && t1[i].splitColumn == t2[i].splitColumn
    ensures FirstTableProblem(t1, from) == FirstTableProblem(t2, from)
    decreases |t1| - from
  {
    if from < |t1| {
      TablesCheckedOnlyOnCheckedFields(t1, t2, from + 1);
    }
  }

  /** The port, user, password, version, archive options and processing
      settings are never checked. */
  lemma UncheckedFieldsIgnored(config: Config, port: int, user: string, password: string, version: string,
                               options: ArchiveOptions, processing: Processing)
    ensures ValidateConfig(config.(version := version,
                                   database := config.database.(port := port, user := user, password := password),
                                   archive := config.archive.(options := options),
                                   processing := processing))
            == ValidateConfig(config)
  {
  }
}
