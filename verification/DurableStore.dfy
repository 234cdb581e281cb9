/** The files that composite_config_repository.cpp keeps consistent: config.json,
    profiles.db with its SQLite sidecars, the profiles.db.migrating temporary, the
    transaction journal and the managed database backups. Every durable operation of
    the repository is one step on this state. */
module DurableStore {
  import opened Wrappers

  datatype Failure =
    | NotLoaded | InvalidDocument | MigrationRequired | UnsupportedSchema | Stale
    | Busy | Constraint | Corrupt | RecoveryRequired | Io

  /** config.json as read_config_source reports it. */
  datatype Config = NoConfig | Config(bytes: string) | UnreadableConfig(failure: Failure)

  /** The contents of a profile database. fileHash identifies the bytes of the main file. */
  datatype Image = Image(revision: int, origin: Option<string>, profiles: string, fileHash: string)

  /** profiles.db as SqliteProfileStore::load reports it. */
  datatype Database = NoDatabase | Database(image: Image) | UnreadableDatabase(failure: Failure)

  /** The write-ahead log beside profiles.db: absent, fully checkpointed, or holding
      frames that the main file does not have yet. */
  datatype Wal = NoWal | CleanWal | DirtyWal

  /** profiles.db.migrating, and how far it has been built: the file exists, its schema is
      committed, the profiles are saved, the origin is marked, or it is checkpointed and
      ready to move. */
  datatype TempStage = FileCreated | SchemaCommitted | ProfilesSaved | OriginMarked

  datatype Temporary = NoTemporary | Unfinished(stage: TempStage) | Built(image: Image)

  datatype Kind = Initialize | Commit | Migration

  /** What the journal records about a database it expects to find. */
  datatype Expected = Expected(revision: int, origin: Option<string>, fileHash: Option<string>)

  datatype Journal = Journal(
    kind: Kind,
    oldConfig: Option<string>,
    newConfig: string,
    oldDatabase: Option<Expected>,
    target: Expected,
    backup: Option<string>)

  /** The journal directory. Torn is what an interrupted remove_all leaves behind: some
      required file is gone, so read_journal fails. */
  datatype JournalState = NoJournal | Whole(journal: Journal) | Torn

  /** A managed backup directory: what its manifest records, and the file it holds. */
  datatype Backup = Backup(sourceConfig: string, recorded: Image, file: Database)

  /** copies are the read-only v2 documents that migrations keep, by directory name. */
  datatype Disk = Disk(
    config: Config,
    database: Database,
    wal: Wal,
    shm: bool,
    temp: Temporary,
    journal: JournalState,
    backups: map<string, Backup>,
    copies: map<string, string>)

  datatype Step =
    | WriteConfig(bytes: string)
    | RemoveConfig
    | PublishJournal(journal: Journal)
    | TearJournal
    | DropJournal
    | CreateDatabaseFile
    | CommitSchema(image: Image)
    | SaveDatabase(image: Image)
    | RemoveDatabaseFile
    | CheckpointDatabase
    | WriteBackup(name: string, backup: Backup)
    | WriteCopy(name: string, bytes: string)
    | BuildTemp(stage: TempStage)
    | SealTemp(image: Image)
    | RemoveWal
    | RemoveShm
    | ReplaceByTemp
    | LinkTemp
    | RemoveTemp
    | InstallBackup(image: Image)

  /** A database file put in place beside sidecars of another database is taken as
      unusable: SQLite could replay a log that belongs to the previous file. */
  function Installed(d: Disk, image: Image): Disk {
    d.(database := if HasSidecar(d) then UnreadableDatabase(Corrupt) else Database(image))
  }

  function Apply(s: Step, d: Disk): Disk {
    match s
    case WriteConfig(bytes) => d.(config := Config(bytes))
    case RemoveConfig => d.(config := NoConfig)
    case PublishJournal(j) => d.(journal := Whole(j))
    case TearJournal => d.(journal := Torn)
    case DropJournal => d.(journal := NoJournal)
    // A database file exists before its schema transaction commits; load rejects it.
    // Sidecars accompany every open database, and outlive a process that dies.
    case CreateDatabaseFile => d.(database := UnreadableDatabase(Corrupt), wal := DirtyWal, shm := true)
    case CommitSchema(image) => d.(database := Database(image), wal := DirtyWal, shm := true)
    case SaveDatabase(image) => d.(database := Database(image), wal := DirtyWal, shm := true)
    case RemoveDatabaseFile => d.(database := NoDatabase)
    case CheckpointDatabase => d.(wal := if d.wal == NoWal then NoWal else CleanWal)
    case WriteBackup(name, b) => d.(backups := d.backups[name := b])
    case WriteCopy(name, bytes) => d.(copies := d.copies[name := bytes])
    case BuildTemp(stage) => d.(temp := Unfinished(stage))
    case SealTemp(image) => d.(temp := Built(image))
    // Removing a log that still holds frames of a database loses them.
    case RemoveWal =>
      d.(wal := NoWal,
      database := if d.wal == DirtyWal && d.database.Database? then UnreadableDatabase(Corrupt) else d.database)
    case RemoveShm => d.(shm := false)
    case ReplaceByTemp =>
      if d.temp.Built? then Installed(d, d.temp.image).(temp := NoTemporary) else d
    case LinkTemp => if d.temp.Built? then Installed(d, d.temp.image) else d
    case RemoveTemp => d.(temp := NoTemporary)
    case InstallBackup(image) => Installed(d, image)
  }

  /** The disk after the first k of the steps. */
  function After(d: Disk, steps: seq<Step>, k: nat): Disk
    requires k <= |steps|
  {
    if k == 0 then d else Apply(steps[k - 1], After(d, steps, k - 1))
  }

  lemma {:induction false} AfterPrefix(d: Disk, a: seq<Step>, b: seq<Step>, k: nat)
    requires k <= |a|
    ensures After(d, a + b, k) == After(d, a, k)
  {
    if k > 0 {
      AfterPrefix(d, a, b, k - 1);
      assert (a + b)[k - 1] == a[k - 1];
    }
  }

  lemma {:induction false} AfterConcat(d: Disk, a: seq<Step>, b: seq<Step>, k: nat)
    requires k <= |b|
    ensures After(d, a + b, |a| + k) == After(After(d, a, |a|), b, k)
  {
    if k == 0 {
      AfterPrefix(d, a, b, |a|);
    } else {
      AfterConcat(d, a, b, k - 1);
      assert (a + b)[|a| + k - 1] == b[k - 1];
    }
  }

  predicate HasSidecar(d: Disk) {
    d.wal != NoWal || d.shm
  }

  /** A sidecar that outlives its database file. */
  predicate Orphaned(d: Disk) {
    d.database.NoDatabase? && HasSidecar(d)
  }

  /** read_database_state: sidecars without a database are refused. */
  function ReadDatabase(d: Disk): (r: Result<Option<Image>, Failure>) {
    match d.database
    case NoDatabase => if Orphaned(d) then Err(RecoveryRequired) else Ok(None)
    case Database(image) => Ok(Some(image))
    case UnreadableDatabase(f) => Err(f)
  }

  predicate ConfigIsOld(d: Disk, j: Journal) {
    d.config == match j.oldConfig case Some(bytes) => Config(bytes) case None => NoConfig
  }

  predicate ConfigIsNew(d: Disk, j: Journal) { d.config == Config(j.newConfig) }

  predicate ImageMatches(image: Image, e: Expected) {
    image.revision == e.revision && image.origin == e.origin
    && (e.fileHash == None || e.fileHash == Some(image.fileHash))
  }

  predicate IsOldImage(actual: Option<Image>, j: Journal) {
    match j.oldDatabase
    case None => actual == None
    case Some(e) => actual.Some? && ImageMatches(actual.value, e)
  }

  predicate IsTargetImage(actual: Option<Image>, j: Journal) {
    actual.Some? && ImageMatches(actual.value, j.target)
  }
}
