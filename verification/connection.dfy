/** Archive database naming and connection strings of
    internal/database/connection.go. Opening a connection is left to the
    driver; only the name and DSN it is given are modelled. */
module Connection {
  import opened Wrappers
  import opened Text
  import opened Types

  const YearPlaceholder: string := "{year}"

  /** Fixed driver parameters appended to every DSN. */
  const DsnParams: string := "charset=utf8mb4&parseTime=True&loc=Local&sql_mode=STRICT_ALL_TABLES"

  /** `BuildArchiveDBName`: every "{year}" in the pattern becomes the year's
      decimal text. */
  function BuildArchiveDbName(pattern: string, year: int): string
  {
    ReplaceAll(pattern, YearPlaceholder, FormatInt(year))
  }

  /** The year text shares no character with "{year}", and "{year}" cannot
      overlap itself. */
  lemma YearTextIsPlain(year: int)
    ensures forall i :: 1 <= i < |YearPlaceholder| ==> YearPlaceholder[i] != YearPlaceholder[0]
    ensures forall i :: 0 <= i < |YearPlaceholder| ==> YearPlaceholder[i] !in FormatInt(year)
  {
    var y := FormatInt(year);
    forall i | 0 <= i < |YearPlaceholder| ensures YearPlaceholder[i] !in y {
      var c := YearPlaceholder[i];
      assert !IsDigit(c) && c != '-';
      assert forall k :: 0 <= k < |y| ==> y[k] != c;
    }
  }

  /** The archive name keeps the text around the placeholders in order (the
      pattern split at "{year}" and joined with the year), leaves a pattern
      without placeholder unchanged, and contains no placeholder. */
  lemma ArchiveDbNameSubstitutes(pattern: string, year: int)
    ensures BuildArchiveDbName(pattern, year) == Join(SplitOn(pattern, YearPlaceholder), FormatInt(year))
    ensures !Contains(pattern, YearPlaceholder) ==> BuildArchiveDbName(pattern, year) == pattern
    ensures !Contains(BuildArchiveDbName(pattern, year), YearPlaceholder)
  {
    ReplaceAllIsJoinOfSplit(pattern, YearPlaceholder, FormatInt(year));
    if !Contains(pattern, YearPlaceholder) {
      ReplaceAllAbsent(pattern, YearPlaceholder, FormatInt(year));
    }
    YearTextIsPlain(year);
    ReplaceAllLeavesNoPattern(pattern, YearPlaceholder, FormatInt(year));
  }

  /** The year can be read back from a name built from a pattern that is just
      the placeholder. */
  lemma ArchiveDbNameOfBarePlaceholder(year: int)
    ensures BuildArchiveDbName(YearPlaceholder, year) == FormatInt(year)
    ensures ParseInt(BuildArchiveDbName(YearPlaceholder, year)) == year
  {
    assert YearPlaceholder[|YearPlaceholder|..] == [];
    ParseFormatInt(year);
  }

  /** `buildDSN`: user:password@tcp(host:port)/database?<fixed parameters>. */
  function BuildDsn(config: Database, database: string): string
  {
    config.user + ":" + (config.password + "@" + ("tcp(" + Address(config.host, config.port, database)))
  }

  /** The part of the DSN after "tcp(": host:port)/database?<fixed parameters>. */
  function Address(host: string, port: int, database: string): string
  {
    host + ":" + (FormatInt(port) + ")" + ("/" + (database + "?" + DsnParams)))
  }

  datatype DsnFields = DsnFields(user: string, password: string, host: string, port: int,
                                 database: string, params: string)

  /** Reads a DSN of the shape `BuildDsn` writes, cutting at the first
      separator of each field. */
  function ParseDsn(dsn: string): Option<DsnFields>
  {
    match Cut(dsn, ':')
    case None => None
    case Some((user, afterUser)) =>
      match Cut(afterUser, '@')
      case None => None
      case Some((password, afterAt)) =>
        if !("tcp(" <= afterAt) then None
        else
          match ParseAddress(afterAt[4..])
          case None => None
          case Some(f) => Some(f.(user := user, password := password))
  }

  /** Reads `host:port)/database?params`. */
  function ParseAddress(s: string): Option<DsnFields>
  {
    match Cut(s, ':')
    case None => None
    case Some((host, afterHost)) =>
      match Cut(afterHost, ')')
      case None => None
      case Some((port, afterPort)) =>
        if !("/" <= afterPort) then None
        else
          match Cut(afterPort[1..], '?')
          case None => None
          case Some((database, params)) => Some(DsnFields("", "", host, ParseInt(port), database, params))
  }

  lemma ParseAddressRoundTrip(host: string, port: int, database: string)
    requires ':' !in host && '?' !in database
    ensures ParseAddress(Address(host, port, database)) == Some(DsnFields("", "", host, port, database, DsnParams))
  {
    var portText := FormatInt(port);
    var afterPort := "/" + (database + "?" + DsnParams);
    CutAt(host, ':', portText + ")" + afterPort);
    assert ')' !in portText by {
      assert forall k :: 0 <= k < |portText| ==> portText[k] != ')';
    }
    CutAt(portText, ')', afterPort);
    assert afterPort[1..] == database + "?" + DsnParams;
    CutAt(database, '?', DsnParams);
    ParseFormatInt(port);
  }

  /** The DSN carries every connection field and the database name, and each
      can be read back as long as no field contains the separator after it. */
  lemma DsnRoundTrip(config: Database, database: string)
    requires ':' !in config.user && '@' !in config.password && ':' !in config.host
    requires '?' !in database
    ensures ParseDsn(BuildDsn(config, database))
            == Some(DsnFields(config.user, config.password, config.host, config.port, database, DsnParams))
  {
    var address := Address(config.host, config.port, database);
    var afterAt := "tcp(" + address;
    CutAt(config.user, ':', config.password + "@" + afterAt);
    CutAt(config.password, '@', afterAt);
    assert afterAt[4..] == address;
    ParseAddressRoundTrip(config.host, config.port, database);
  }

  /** `ConnectSourceDB` opens the configured source database. */
  function SourceDsn(config: Database): string
  {
    BuildDsn(config, config.sourceDb)
  }

  /** `ConnectArchiveDB` opens the database named by the table's archive
      pattern for the year. */
  function ArchiveDsn(config: Database, table: Table, year: int): string
  {
    BuildDsn(config, BuildArchiveDbName(table.archivePattern, year))
  }

  /** The archive connection targets exactly the per-year archive name. */
  lemma ArchiveDsnTargetsYear(config: Database, table: Table, year: int)
    requires ':' !in config.user && '@' !in config.password && ':' !in config.host
    requires '?' !in BuildArchiveDbName(table.archivePattern, year)
    ensures ParseDsn(ArchiveDsn(config, table, year)).Some?
    ensures ParseDsn(ArchiveDsn(config, table, year)).value.database == BuildArchiveDbName(table.archivePattern, year)
    ensures !Contains(ParseDsn(ArchiveDsn(config, table, year)).value.database, YearPlaceholder)
  {
    DsnRoundTrip(config, BuildArchiveDbName(table.archivePattern, year));
    ArchiveDbNameSubstitutes(table.archivePattern, year);
  }
}
