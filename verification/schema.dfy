/** Query text builders and the archive-table decisions of
    internal/database/schema.go. Column metadata is what `DESCRIBE` returns;
    the statements themselves are never executed here. */
module Schema {
  import opened Wrappers
  import opened Text
  import opened Errors

  /** One row of `DESCRIBE <table>`, in declaration order. */
  datatype ColumnInfo = ColumnInfo(
    field: string,
    colType: string,
    nullable: string,
    key: string,
    default: Option<string>,
    extra: string)

  /** A back-quoted identifier. */
  function Quote(name: string): string
  {
    "`" + name + "`"
  }

  /** A column whose lower-cased type mentions "text" or "blob". */
  predicate IsTextLike(col: ColumnInfo)
  {
    var t := ToLower(col.colType);
    Contains(t, "text") || Contains(t, "blob")
  }

  /** How one column is selected: text and blob columns turn '' into NULL. */
  function Projection(col: ColumnInfo): string
  {
    if IsTextLike(col) then "NULLIF(" + Quote(col.field) + ", '') as " + Quote(col.field)
    else Quote(col.field)
  }

  function Projections(cols: seq<ColumnInfo>): (r: seq<string>)
  {
    seq(|cols|, i requires 0 <= i < |cols| => Projection(cols[i]))
  }

  /** The predicate that confines every statement of a run to one year. */
  function YearFilter(splitColumn: string, year: int): string
  {
    " WHERE YEAR(" + Quote(splitColumn) + ") = " + FormatInt(year)
  }

  /** The page of rows of `year` that `LIMIT`/`OFFSET` pick out. */
  function YearPage(tableName: string, splitColumn: string, year: int, limit: int, offset: int): string
  {
    " FROM " + Quote(tableName) + YearFilter(splitColumn, year)
    + " LIMIT " + FormatInt(limit) + " OFFSET " + FormatInt(offset)
  }

  /** The text `BuildSelectQueryWithColumns` produces. */
  function SelectWithColumns(tableName: string, splitColumn: string, year: int, limit: int, offset: int,
                             cols: seq<ColumnInfo>): string
  {
    "SELECT " + Join(Projections(cols), ", ") + YearPage(tableName, splitColumn, year, limit, offset)
  }

  /** `BuildSelectQuery`: every column, the same year filter and page. */
  function BuildSelectQuery(tableName: string, splitColumn: string, year: int, limit: int, offset: int): string
  {
    "SELECT *" + YearPage(tableName, splitColumn, year, limit, offset)
  }

  /** Both select builders read the same page of the same year: they differ
      only in the projection list in front of it. */
  lemma SelectsReadSamePage(tableName: string, splitColumn: string, year: int, limit: int, offset: int,
                            cols: seq<ColumnInfo>)
    ensures var page := YearPage(tableName, splitColumn, year, limit, offset);
            && HasSuffix(BuildSelectQuery(tableName, splitColumn, year, limit, offset), page)
            && HasSuffix(SelectWithColumns(tableName, splitColumn, year, limit, offset, cols), page)
            && "SELECT " <= BuildSelectQuery(tableName, splitColumn, year, limit, offset)
            && "SELECT " <= SelectWithColumns(tableName, splitColumn, year, limit, offset, cols)
  {
    var page := YearPage(tableName, splitColumn, year, limit, offset);
    SuffixOfConcat("SELECT *", page);
    SuffixOfConcat("SELECT " + Join(Projections(cols), ", "), page);
  }

  /** Builds the select list column by column, as the source's loop does. */
  method BuildSelectQueryWithColumns(tableName: string, splitColumn: string, year: int, batchSize: int,
                                     offset: int, columns: seq<ColumnInfo>) returns (query: string)
    ensures query == SelectWithColumns(tableName, splitColumn, year, batchSize, offset, columns)
  {
    var columnSelects: seq<string> := [];
    for i := 0 to |columns|
      invariant columnSelects == Projections(columns[..i])
    {
      var col := columns[i];
      var colType := ToLower(col.colType);
      if Contains(colType, "text") || Contains(colType, "blob") {
        columnSelects := columnSelects + ["NULLIF(" + Quote(col.field) + ", '') as " + Quote(col.field)];
      } else {
        columnSelects := columnSelects + [Quote(col.field)];
      }
      ProjectionsSnoc(columns, i);
    }
    assert columns[..|columns|] == columns;
    var columnList := Join(columnSelects, ", ");
    query := "SELECT " + columnList + YearPage(tableName, splitColumn, year, batchSize, offset);
  }

  lemma ProjectionsSnoc(cols: seq<ColumnInfo>, i: int)
    requires 0 <= i < |cols|
    ensures Projections(cols[..i + 1]) == Projections(cols[..i]) + [Projection(cols[i])]
  {
    assert cols[..i + 1][..i] == cols[..i];
  }

  /** One projection per column, in column order; exactly the text and blob
      columns are wrapped in NULLIF, every other column is selected as is. */
  lemma ProjectionsFollowColumns(cols: seq<ColumnInfo>, i: int)
    requires 0 <= i < |cols|
    ensures |Projections(cols)| == |cols|
    ensures "NULLIF(" <= Projections(cols)[i] <==> IsTextLike(cols[i])
    ensures IsTextLike(cols[i]) ==> Projections(cols)[i] == "NULLIF(" + Quote(cols[i].field) + ", '') as " + Quote(cols[i].field)
    ensures !IsTextLike(cols[i]) ==> Projections(cols)[i] == Quote(cols[i].field)
  {
    var p := Projections(cols)[i];
    if !IsTextLike(cols[i]) {
      assert p[0] == '`';
      assert "NULLIF("[0] == 'N';
    }
  }

  /** Column type matching ignores case: "LONGTEXT" and "longtext" select alike. */
  lemma TextLikeIgnoresCase(col: ColumnInfo)
    ensures IsTextLike(col) == IsTextLike(col.(colType := ToLower(col.colType)))
  {
    ToLowerIdempotent(col.colType);
  }

  function ColumnNames(cols: seq<ColumnInfo>): seq<string>
  {
    seq(|cols|, i requires 0 <= i < |cols| => Quote(cols[i].field))
  }

  lemma ColumnNamesSnoc(cols: seq<ColumnInfo>, i: int)
    requires 0 <= i < |cols|
    ensures ColumnNames(cols[..i + 1]) == ColumnNames(cols[..i]) + [Quote(cols[i].field)]
  {
    assert cols[..i + 1][..i] == cols[..i];
  }

  function Placeholders(n: nat): seq<string>
  {
    seq(n, i => "?")
  }

  /** The text `BuildInsertQuery` produces. */
  function InsertText(tableName: string, cols: seq<ColumnInfo>): string
  {
    "INSERT INTO " + Quote(tableName) + " (" + Join(ColumnNames(cols), ", ") + ") VALUES ("
    + Join(Placeholders(|cols|), ", ") + ")"
  }

  /** The columns a merge may overwrite: every column not keyed "PRI", in order. */
  function NonPrimary(cols: seq<ColumnInfo>): seq<ColumnInfo>
  {
    if cols == [] then []
    else NonPrimary(cols[..|cols| - 1]) + (if cols[|cols| - 1].key != "PRI" then [cols[|cols| - 1]] else [])
  }

  function UpdatePart(col: ColumnInfo): string
  {
    Quote(col.field) + " = VALUES(" + Quote(col.field) + ")"
  }

  function UpdateParts(cols: seq<ColumnInfo>): seq<string>
  {
    var keep := NonPrimary(cols);
    seq(|keep|, i requires 0 <= i < |keep| => UpdatePart(keep[i]))
  }

  lemma UpdatePartsSnoc(cols: seq<ColumnInfo>, i: int)
    requires 0 <= i < |cols|
    ensures UpdateParts(cols[..i + 1])
            == UpdateParts(cols[..i]) + (if cols[i].key != "PRI" then [UpdatePart(cols[i])] else [])
  {
    var pre := cols[..i + 1];
    assert pre[..|pre| - 1] == cols[..i];
    assert pre[|pre| - 1] == cols[i];
  }

  /** The text `BuildMergeInsertQuery` produces. */
  function MergeText(tableName: string, cols: seq<ColumnInfo>): string
  {
    InsertText(tableName, cols)
    + (if |UpdateParts(cols)| > 0 then " ON DUPLICATE KEY UPDATE " + Join(UpdateParts(cols), ", ") else "")
  }

  method BuildInsertQuery(tableName: string, columns: seq<ColumnInfo>) returns (query: string)
    ensures query == InsertText(tableName, columns)
  {
    var columnNames: seq<string> := [];
    var placeholders: seq<string> := [];
    for i := 0 to |columns|
      invariant columnNames == ColumnNames(columns[..i])
      invariant placeholders == Placeholders(i)
    {
      columnNames := columnNames + [Quote(columns[i].field)];
      placeholders := placeholders + ["?"];
      ColumnNamesSnoc(columns, i);
    }
    assert columns[..|columns|] == columns;
    query := "INSERT INTO " + Quote(tableName) + " (" + Join(columnNames, ", ") + ") VALUES ("
      + Join(placeholders, ", ") + ")";
  }

  /** Builds the insert and the update clause in one pass; never fails. */
  method BuildMergeInsertQuery(tableName: string, columns: seq<ColumnInfo>) returns (query: string, err: Option<Error>)
    ensures err == None
    ensures query == MergeText(tableName, columns)
  {
    var columnNames: seq<string> := [];
    var placeholders: seq<string> := [];
    var updateParts: seq<string> := [];
    for i := 0 to |columns|
      invariant columnNames == ColumnNames(columns[..i])
      invariant placeholders == Placeholders(i)
      invariant updateParts == UpdateParts(columns[..i])
    {
      var col := columns[i];
      columnNames := columnNames + [Quote(col.field)];
      placeholders := placeholders + ["?"];
      ColumnNamesSnoc(columns, i);
      if col.key != "PRI" {
        updateParts := updateParts + [Quote(col.field) + " = VALUES(" + Quote(col.field) + ")"];
      }
      UpdatePartsSnoc(columns, i);
    }
    assert columns[..|columns|] == columns;
    query := "INSERT INTO " + Quote(tableName) + " (" + Join(columnNames, ", ") + ") VALUES ("
      + Join(placeholders, ", ") + ")";
    if |updateParts| > 0 {
      query := query + " ON DUPLICATE KEY UPDATE " + Join(updateParts, ", ");
    }
    err := None;
  }

  /** Number of occurrences of `c` in `s`. */
  function CountChar(s: string, c: char): nat
  {
    if s == [] then 0 else (if s[0] == c then 1 else 0) + CountChar(s[1..], c)
  }

  lemma {:induction false} CountCharAppend(a: string, b: string, c: char)
    ensures CountChar(a + b, c) == CountChar(a, c) + CountChar(b, c)
    decreases |a|
  {
    if a != [] {
      assert (a + b)[1..] == a[1..] + b;
      CountCharAppend(a[1..], b, c);
    } else {
      assert a + b == b;
    }
  }

  /** The VALUES list holds exactly `n` parameter markers. */
  lemma {:induction false} PlaceholderCount(n: nat)
    ensures CountChar(Join(Placeholders(n), ", "), '?') == n
  {
    if n > 1 {
      assert Placeholders(n)[1..] == Placeholders(n - 1);
      PlaceholderCount(n - 1);
      CountCharAppend("?" + ", ", Join(Placeholders(n - 1), ", "), '?');
    }
  }

  /** A column is in the update list exactly when it is a column not keyed
      "PRI"; no primary-key column is ever overwritten by a merge. */
  lemma {:induction false} NonPrimaryMembers(cols: seq<ColumnInfo>)
    ensures forall c :: c in NonPrimary(cols) <==> c in cols && c.key != "PRI"
    ensures |NonPrimary(cols)| <= |cols|
  {
    if cols != [] {
      var init := cols[..|cols| - 1];
      NonPrimaryMembers(init);
      assert cols == init + [cols[|cols| - 1]];
    }
  }

  /** The merge statement is the plain insert followed by an update clause, and
      the clause is there exactly when some column is not a primary-key column. */
  lemma MergeExtendsInsert(tableName: string, cols: seq<ColumnInfo>)
    ensures InsertText(tableName, cols) <= MergeText(tableName, cols)
    ensures MergeText(tableName, cols) == InsertText(tableName, cols)
            <==> forall c :: c in cols ==> c.key == "PRI"
  {
    NonPrimaryMembers(cols);
    var keep := NonPrimary(cols);
    if |keep| > 0 {
      assert keep[0] in cols && keep[0].key != "PRI";
      var suffix := " ON DUPLICATE KEY UPDATE " + Join(UpdateParts(cols), ", ");
      assert |MergeText(tableName, cols)| == |InsertText(tableName, cols)| + |suffix|;
    } else {
      assert keep == [];
    }
  }

  lemma {:induction false} CountCharAbsent(s: string, c: char)
    requires c !in s
    ensures CountChar(s, c) == 0
  {
    if s != [] {
      assert s == [s[0]] + s[1..];
      CountCharAbsent(s[1..], c);
    }
  }

  /** Joining pieces free of `c` with a separator free of `c` gives text free of `c`. */
  lemma {:induction false} JoinAvoids(parts: seq<string>, sep: string, c: char)
    requires c !in sep
    requires forall i :: 0 <= i < |parts| ==> c !in parts[i]
    ensures c !in Join(parts, sep)
  {
    if |parts| > 1 {
      JoinAvoids(parts[1..], sep, c);
    }
  }

  /** The part of an insert before its VALUES markers. */
  function InsertHead(tableName: string, cols: seq<ColumnInfo>): string
  {
    "INSERT INTO " + Quote(tableName) + " (" + Join(ColumnNames(cols), ", ") + ") VALUES ("
  }

  /** The part of a merge after its VALUES markers. */
  function MergeTail(cols: seq<ColumnInfo>): string
  {
    ")" + (if |UpdateParts(cols)| > 0 then " ON DUPLICATE KEY UPDATE " + Join(UpdateParts(cols), ", ") else "")
  }

  lemma InsertHeadAvoids(tableName: string, cols: seq<ColumnInfo>)
    requires '?' !in tableName
    requires forall c :: c in cols ==> '?' !in c.field
    ensures '?' !in InsertHead(tableName, cols)
  {
    var names := ColumnNames(cols);
    forall i | 0 <= i < |names|
      ensures '?' !in names[i]
    {
      assert cols[i] in cols;
    }
    JoinAvoids(names, ", ", '?');
    InsertWordsAvoid();
  }

  lemma InsertWordsAvoid()
    ensures '?' !in "INSERT INTO " && '?' !in " (" && '?' !in ") VALUES ("
  {
  }

  lemma UpdateWordsAvoid()
    ensures '?' !in ")" && '?' !in " ON DUPLICATE KEY UPDATE "
  {
  }

  lemma MergeTailAvoids(cols: seq<ColumnInfo>)
    requires forall c :: c in cols ==> '?' !in c.field
    ensures '?' !in MergeTail(cols)
  {
    var updates := UpdateParts(cols);
    NonPrimaryMembers(cols);
    forall i | 0 <= i < |updates|
      ensures '?' !in updates[i]
    {
      assert NonPrimary(cols)[i] in cols;
    }
    JoinAvoids(updates, ", ", '?');
    UpdateWordsAvoid();
  }

  /** The whole merge statement carries one '?' marker per column: the table
      and column names carry none, and the update clause, present when some
      column is not a primary key, adds none. */
  lemma MergePlaceholdersMatchColumns(tableName: string, cols: seq<ColumnInfo>)
    requires '?' !in tableName
    requires forall c :: c in cols ==> '?' !in c.field
    ensures CountChar(MergeText(tableName, cols), '?') == |cols|
    ensures |ColumnNames(cols)| == |Placeholders(|cols|)|
  {
    var head, marks, tail := InsertHead(tableName, cols), Join(Placeholders(|cols|), ", "), MergeTail(cols);
    assert MergeText(tableName, cols) == head + marks + tail;
    InsertHeadAvoids(tableName, cols);
    MergeTailAvoids(cols);
    CountCharAbsent(head, '?');
    CountCharAbsent(tail, '?');
    CountCharAppend(head, marks, '?');
    CountCharAppend(head + marks, tail, '?');
    PlaceholderCount(|cols|);
  }

  /** `CheckTableExists`: the catalog count is positive; a failed lookup is an error. */
  function CheckTableExists(tableName: string, count: Result<int, Error>): (r: Result<bool, Error>)
  {
    match count
    case Err(e) => Err(Wrapped("failed to check if table " + tableName + " exists", e))
    case Ok(n) => Ok(n > 0)
  }

  /** What `CreateArchiveTable` did: its error and the statements it ran. */
  datatype TableStep = TableStep(err: Option<Error>, executed: seq<string>)

  /** `CreateArchiveTable`: run the source's creation statement verbatim, and
      only when the existence check succeeded and found no such table. */
  function CreateArchiveTable(createTableSql: string, tableName: string, existsCount: Result<int, Error>,
                              exec: string -> Option<Error>): (r: TableStep)
    ensures r.executed == [] || r.executed == [createTableSql]
  {
    match CheckTableExists(tableName, existsCount)
    case Err(e) => TableStep(Some(Wrapped("failed to check table existence", e)), [])
    case Ok(true) => TableStep(None, [])
    case Ok(false) =>
      match exec(createTableSql)
      case Some(e) => TableStep(Some(Wrapped("failed to create table " + tableName + " in archive database", e)), [createTableSql])
      case None => TableStep(None, [createTableSql])
  }

  /** The creation statement runs exactly when the check reports no table; an
      existing table is a silent success; a failed check creates nothing. */
  lemma CreateOnlyWhenAbsent(createTableSql: string, tableName: string, existsCount: Result<int, Error>,
                             exec: string -> Option<Error>)
    ensures var r := CreateArchiveTable(createTableSql, tableName, existsCount, exec);
            && (r.executed == [createTableSql] <==> existsCount.Ok? && existsCount.value <= 0)
            && (existsCount.Ok? && existsCount.value > 0 ==> r == TableStep(None, []))
            && (existsCount.Err? ==> r.err.Some? && r.executed == [])
            && (r.err.None? <==> existsCount.Ok? && (existsCount.value > 0 || exec(createTableSql).None?))
  {
  }

  /** Replication is one-shot: once a run has created the table, a later run
      that sees it in the catalog executes nothing and succeeds. */
  lemma CreateIsIdempotent(createTableSql: string, tableName: string, exec: string -> Option<Error>, laterCount: int)
    requires exec(createTableSql).None?
    requires laterCount > 0
    ensures CreateArchiveTable(createTableSql, tableName, Ok(0), exec) == TableStep(None, [createTableSql])
    ensures CreateArchiveTable(createTableSql, tableName, Ok(laterCount), exec) == TableStep(None, [])
  {
  }

  /** `CompareTableSchemas`: equal creation statements, or the first lookup error. */
  function CompareTableSchemas(sourceSchema: Result<string, Error>, archiveSchema: Result<string, Error>): (r: Result<bool, Error>)
  {
    match sourceSchema
    case Err(e) => Err(Wrapped("failed to get source schema", e))
    case Ok(s) =>
      match archiveSchema
      case Err(e) => Err(Wrapped("failed to get archive schema", e))
      case Ok(a) => Ok(s == a)
  }

  /** When both schemas are read, the comparison is plain string equality, so
      it is symmetric and reflexive; a failed read is an error that names the
      side it failed on, the source's first. */
  lemma CompareIsEquality(s: string, a: string, sourceSchema: Result<string, Error>, archiveSchema: Result<string, Error>)
    ensures CompareTableSchemas(Ok(s), Ok(a)) == Ok(s == a)
    ensures CompareTableSchemas(Ok(s), Ok(a)) == CompareTableSchemas(Ok(a), Ok(s))
    ensures CompareTableSchemas(Ok(s), Ok(s)) == Ok(true)
    ensures sourceSchema.Err? ==>
              CompareTableSchemas(sourceSchema, archiveSchema).Err?
              && Message(CompareTableSchemas(sourceSchema, archiveSchema).error)
                 == "failed to get source schema: " + Message(sourceSchema.error)
    ensures sourceSchema.Ok? && archiveSchema.Err? ==>
              CompareTableSchemas(sourceSchema, archiveSchema).Err?
              && Message(CompareTableSchemas(sourceSchema, archiveSchema).error)
                 == "failed to get archive schema: " + Message(archiveSchema.error)
    ensures CompareTableSchemas(sourceSchema, archiveSchema).Ok? <==> sourceSchema.Ok? && archiveSchema.Ok?
  {
  }
}
