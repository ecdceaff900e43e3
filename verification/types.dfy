/** The configuration records of the program (`Config`, `Database`, `Table`,
    `Archive`, `ArchiveOptions`, `Processing`). Integers are Go `int`s. */
module Types {

  datatype Database = Database(
    dbType: string,
    host: string,
    port: int,
    user: string,
    password: string,
    sourceDb: string)

  datatype Table = Table(
    name: string,
    enabled: bool,
    splitColumn: string,
    archivePattern: string)

  datatype ArchiveOptions = ArchiveOptions(
    batchSize: int,
    resumeOffset: int,
    deleteAfterArchive: bool,
    createArchiveDb: bool,
    dryRun: bool,
    heartbeatBatchInterval: int)

  datatype Archive = Archive(years: seq<int>, options: ArchiveOptions)

  datatype Processing = Processing(
    logLevel: string,
    logPath: string,
    continueOnError: bool,
    heartbeatBatchInterval: int)

  datatype Config = Config(
    version: string,
    database: Database,
    tables: seq<Table>,
    archive: Archive,
    processing: Processing)
}
