/** The four transactions that publish a journal, as the durable steps they take, and
    what is left of them whenever the process dies. */
module Transactions {
  import opened Wrappers
  import opened DurableStore
  import opened CrashRecovery

  function InitializeJournal(newConfig: string): Journal {
    Journal(Initialize, None, newConfig, None, Expected(0, None, None), None)
  }

  function InitializeSteps(newConfig: string, image: Image): seq<Step> {
    [PublishJournal(InitializeJournal(newConfig)), WriteConfig(newConfig), CreateDatabaseFile, CommitSchema(image)]
    + ClearSteps(Initialize)
  }

  function CommitJournal(config: string, image: Image, newConfig: string): Journal {
    Journal(Commit, Some(config), newConfig, Some(Expected(image.revision, image.origin, None)),
            Expected(image.revision + 1, image.origin, None), None)
  }

  function CommitSteps(config: string, image: Image, newConfig: string, saved: Image): seq<Step> {
    [PublishJournal(CommitJournal(config, image, newConfig)), WriteConfig(newConfig), SaveDatabase(saved)]
    + ClearSteps(Commit)
  }

  function MigrationJournal(source: string, newConfig: string, imported: Image): Journal {
    Journal(Migration, Some(source), newConfig, None,
            Expected(imported.revision, imported.origin, Some(imported.fileHash)), None)
  }

  /** open_or_create on the temporary. */
  function OpeningSteps(): seq<Step> {
    [BuildTemp(FileCreated), BuildTemp(SchemaCommitted)]
  }

  /** save, mark_migrated and checkpoint_for_move on it. */
  function FillingSteps(imported: Image): seq<Step> {
    [BuildTemp(ProfilesSaved), BuildTemp(OriginMarked), SealTemp(imported)]
  }

  function BuildSteps(imported: Image): seq<Step> {
    OpeningSteps() + FillingSteps(imported)
  }

  /** The temporary after the first k of them. */
  function TemporaryAfter(before: Temporary, imported: Image, k: nat): Temporary {
    match k
    case 0 => before
    case 1 => Unfinished(FileCreated)
    case 2 => Unfinished(SchemaCommitted)
    case 3 => Unfinished(ProfilesSaved)
    case 4 => Unfinished(OriginMarked)
    case _ => Built(imported)
  }

  lemma BuildStates(d: Disk, imported: Image, k: nat)
    requires k <= 5
    ensures |BuildSteps(imported)| == 5
    ensures After(d, BuildSteps(imported), k) == d.(temp := TemporaryAfter(d.temp, imported, k))
  {
    if k > 0 { BuildStates(d, imported, k - 1); }
  }

  lemma OpeningStates(d: Disk, imported: Image, k: nat)
    requires k <= 2
    ensures |OpeningSteps()| == 2
    ensures After(d, OpeningSteps(), k) == d.(temp := TemporaryAfter(d.temp, imported, k))
  {
    if k > 0 { OpeningStates(d, imported, k - 1); }
  }

  lemma FillingStates(d: Disk, imported: Image, j: Journal, k: nat)
    requires k <= 4 && d.temp == Unfinished(SchemaCommitted)
    ensures var steps := FillingSteps(imported) + [PublishJournal(j)];
      && |steps| == 4
      && After(d, steps, k) ==
         d.(temp := TemporaryAfter(NoTemporary, imported, 2 + k), journal := if k == 4 then Whole(j) else d.journal)
  {
    if k > 0 { FillingStates(d, imported, j, k - 1); }
  }

  function MigrationSteps(source: string, newConfig: string, imported: Image): seq<Step> {
    BuildSteps(imported)
    + ([PublishJournal(MigrationJournal(source, newConfig, imported)), WriteConfig(newConfig), LinkTemp, RemoveTemp]
       + ClearSteps(Migration))
  }

  function ReplacementJournal(source: string, newConfig: string, replaced: Image, imported: Image, name: string): Journal {
    Journal(Migration, Some(source), newConfig,
            Some(Expected(replaced.revision, replaced.origin, Some(replaced.fileHash))),
            Expected(imported.revision, imported.origin, Some(imported.fileHash)), Some(name))
  }

  /** checkpoint_for_move and the managed backup of the database to be replaced. */
  function PreparingSteps(source: string, replaced: Image, name: string): seq<Step> {
    [CheckpointDatabase, WriteBackup(name, Backup(source, replaced, Database(replaced)))]
  }

  function ReplacementSteps(source: string, newConfig: string, replaced: Image, imported: Image, name: string): seq<Step> {
    PreparingSteps(source, replaced, name)
    + BuildSteps(imported)
    + ([PublishJournal(ReplacementJournal(source, newConfig, replaced, imported, name)),
        WriteConfig(newConfig), RemoveWal, RemoveShm, ReplaceByTemp]
       + ClearSteps(Migration))
  }

  /** Where restarts end, however often they crash. A journal torn while it was being
      removed has to be removed by hand, but the two stores already agree. */
  predicate EndsIn(d: Disk, crashes: seq<nat>, config: Config, database: Database) {
    var m := Interrupted(d, crashes);
    if m.journal.Torn? then m.config == config && m.database == database
    else
      && RecoveryPlan(m).Ok?
      && Recovered(m).journal.NoJournal?
      && Recovered(m).config == config && Recovered(m).database == database
  }

  lemma EndsWhereRecoveryEnds(d: Disk, crashes: seq<nat>)
    requires d.journal.Torn? || RecoveryPlan(d).Ok?
    ensures EndsIn(d, crashes, Recovered(d).config, Recovered(d).database)
  {
    if d.journal.Torn? {
      RefusalIsStable(d, crashes);
    } else {
      RecoveryConverges(d, crashes);
      if d.journal.Whole? { RecoveredIsCleared(d, d.journal.journal); }
    }
  }

  /** However often restarts crash, the stores end as this pair. */
  ghost predicate Settles(d: Disk, config: Config, database: Database) {
    forall crashes :: EndsIn(d, crashes, config, database)
  }

  lemma SettlesWhenCleared(d: Disk)
    requires d.journal.NoJournal? || d.journal.Torn?
    ensures Settles(d, d.config, d.database)
  {
    forall crashes ensures EndsIn(d, crashes, d.config, d.database) { EndsWhereRecoveryEnds(d, crashes); }
  }

  lemma SettlesWhenDecided(d: Disk, j: Journal)
    requires d.journal == Whole(j) && JournalAccepted(j)
    requires ReadDatabase(d).Ok? && !NeedsBackup(d, j)
    ensures Settles(d, if IsOldImage(ReadDatabase(d).value, j) then OldConfig(j) else Config(j.newConfig), d.database)
  {
    DatabaseDecides(d, j);
    forall crashes ensures EndsIn(d, crashes, Recovered(d).config, Recovered(d).database) {
      EndsWhereRecoveryEnds(d, crashes);
    }
  }

  ghost predicate SettlesEither(d: Disk, j: Journal, was: Database, becomes: Database) {
    Settles(d, OldConfig(j), was) || Settles(d, Config(j.newConfig), becomes)
  }

  /** save_snapshot with both stores changed: the database save decides. */
  lemma CommitIsCrashAtomic(start: Disk, newConfig: string, saved: Image, k: nat, crashes: seq<nat>)
    requires start.journal.NoJournal? && start.config.Config? && start.database.Database?
    requires saved.revision == start.database.image.revision + 1
    requires saved.origin == start.database.image.origin
    requires k <= |CommitSteps(start.config.bytes, start.database.image, newConfig, saved)|
    ensures var d := After(start, CommitSteps(start.config.bytes, start.database.image, newConfig, saved), k);
      if k < 3 then EndsIn(d, crashes, start.config, start.database)
      else EndsIn(d, crashes, Config(newConfig), Database(saved))
  {
    var steps := CommitSteps(start.config.bytes, start.database.image, newConfig, saved);
    var j := CommitJournal(start.config.bytes, start.database.image, newConfig);
    var d := After(start, steps, k);
    CommitStates(start, newConfig, saved, k);
    if d.journal.Whole? { DatabaseDecides(d, j); }
    EndsWhereRecoveryEnds(d, crashes);
  }

  lemma CommitStates(start: Disk, newConfig: string, saved: Image, k: nat)
    requires start.journal.NoJournal? && start.config.Config? && start.database.Database?
    requires k <= 5
    ensures var steps := CommitSteps(start.config.bytes, start.database.image, newConfig, saved);
      var j := CommitJournal(start.config.bytes, start.database.image, newConfig);
      && |steps| == 5
      && After(start, steps, k) == match k
        case 0 => start
        case 1 => start.(journal := Whole(j))
        case 2 => start.(journal := Whole(j), config := Config(newConfig))
        case 3 => start.(journal := Whole(j), config := Config(newConfig), database := Database(saved), wal := DirtyWal, shm := true)
        case 4 => start.(journal := Torn, config := Config(newConfig), database := Database(saved), wal := DirtyWal, shm := true)
        case _ => start.(config := Config(newConfig), database := Database(saved), wal := DirtyWal, shm := true)
  {
    if k > 0 {
      CommitStates(start, newConfig, saved, k - 1);
    }
  }

  lemma InitializeStates(start: Disk, newConfig: string, image: Image, k: nat)
    requires start.journal.NoJournal? && start.config.NoConfig? && start.database.NoDatabase? && k <= 6
    ensures var steps := InitializeSteps(newConfig, image);
      var published := start.(journal := Whole(InitializeJournal(newConfig)));
      var created := published.(config := Config(newConfig), database := Database(image), wal := DirtyWal, shm := true);
      && |steps| == 6
      && After(start, steps, k) == match k
        case 0 => start
        case 1 => published
        case 2 => published.(config := Config(newConfig))
        case 3 => created.(database := UnreadableDatabase(Corrupt))
        case 4 => created
        case 5 => created.(journal := Torn)
        case _ => created.(journal := NoJournal)
  {
    if k > 0 { InitializeStates(start, newConfig, image, k - 1); }
  }

  /** Restarts are refused for good, with the journal in place. */
  ghost predicate Stranded(d: Disk) {
    d.journal.Whole? && RecoveryPlan(d).Err? && forall crashes :: Interrupted(d, crashes) == d
  }

  lemma RefusedIsStranded(d: Disk)
    requires d.journal.Whole?
    ensures Stranded(d) <==> RecoveryPlan(d).Err?
  {
    if RecoveryPlan(d).Err? {
      forall crashes ensures Interrupted(d, crashes) == d { RefusalIsStable(d, crashes); }
    }
  }

  /** A migration that went wrong beyond recovery: stranded under its journal, or finished
      around a database that cannot be used. */
  ghost predicate Derailed(d: Disk, newConfig: string) {
    || Stranded(d)
    || (!d.journal.Whole? && d.config == Config(newConfig) && d.database == UnreadableDatabase(Corrupt))
  }

  lemma DerailedNeverSettles(d: Disk, newConfig: string, config: Config, database: Database)
    requires Derailed(d, newConfig) && !database.UnreadableDatabase?
    ensures !Settles(d, config, database)
  {
    if !Stranded(d) { EndsWhereRecoveryEnds(d, []); }
    if d.journal.NoJournal? { assert After(d, [], 0) == d; }
    assert !EndsIn(d, [], config, database);
  }

  /** A disk in the middle of an initialization or of its rollback. */
  predicate Initializing(d: Disk, newConfig: string, created: Image) {
    && d.journal == Whole(InitializeJournal(newConfig))
    && d.config in {NoConfig, Config(newConfig)}
    && d.database in {NoDatabase, UnreadableDatabase(Corrupt), Database(created)}
  }

  /** Neither an empty repository nor a created one: a sidecar without its database, or a
      database file without its schema. */
  predicate Unsettled(d: Disk) {
    Orphaned(d) || d.database.UnreadableDatabase?
  }

  /** In the middle of an initialization recovery is refused, and then for good, exactly
      when a sidecar is there without profiles.db or the schema is missing; from every
      other state restarts end empty or complete. */
  lemma InitializingIsStrandedIff(d: Disk, newConfig: string, created: Image)
    requires Initializing(d, newConfig, created) && created.revision == 0 && created.origin == None
    ensures Stranded(d) <==> Unsettled(d)
    ensures Stranded(d) ==> RecoveryPlan(d) == Err(if Orphaned(d) then RecoveryRequired else Corrupt)
    ensures !Stranded(d) ==> SettlesEither(d, InitializeJournal(newConfig), NoDatabase, Database(created))
    ensures !Stranded(d) ==> Settles(d, if d.database.NoDatabase? then NoConfig else Config(newConfig), d.database)
  {
    RefusedIsStranded(d);
    if !Unsettled(d) { SettlesWhenDecided(d, InitializeJournal(newConfig)); }
  }

  /** What an initialization that did not succeed leaves behind. */
  ghost predicate EndsInitialization(d: Disk, newConfig: string, created: Image) {
    && (Stranded(d) <==> d.journal.Whole? && Unsettled(d))
    && (!Stranded(d) ==> SettlesEither(d, InitializeJournal(newConfig), NoDatabase, Database(created)))
  }

  lemma InitializationEnds(d: Disk, newConfig: string, created: Image)
    requires created.revision == 0 && created.origin == None
    requires d.journal.Whole? ==> Initializing(d, newConfig, created)
    requires !d.journal.Whole? ==> (d.config, d.database) in {(NoConfig, NoDatabase), (Config(newConfig), Database(created))}
    ensures EndsInitialization(d, newConfig, created)
  {
    if d.journal.Whole? {
      InitializingIsStrandedIff(d, newConfig, created);
    } else {
      SettlesWhenCleared(d);
    }
  }

  /** initialize_fresh_locked: a crash is harmful exactly between the appearance of the
      database file and the commit of its schema, and, when a sidecar lay beside the
      missing profiles.db from the start, between the journal and the database file. */
  lemma InitializeIsCrashAtomicIff(start: Disk, newConfig: string, image: Image, k: nat)
    requires start.journal.NoJournal? && start.config.NoConfig? && start.database.NoDatabase?
    requires image.revision == 0 && image.origin == None
    requires k <= |InitializeSteps(newConfig, image)|
    ensures var d := After(start, InitializeSteps(newConfig, image), k);
      && (Stranded(d) <==> k == 3 || (1 <= k <= 2 && Orphaned(start)))
      && (!Stranded(d) ==> if k < 3 then Settles(d, NoConfig, NoDatabase) else Settles(d, Config(newConfig), Database(image)))
  {
    var d := After(start, InitializeSteps(newConfig, image), k);
    InitializeStates(start, newConfig, image, k);
    if d.journal.Whole? {
      InitializingIsStrandedIff(d, newConfig, image);
    } else {
      SettlesWhenCleared(d);
    }
  }

  /** The rollback of a failed open_or_create: remove_database_family, restore_config and
      clear_journal. */
  function RollbackSteps(): seq<Step> {
    REMOVE_FAMILY + [RemoveConfig] + ClearSteps(Initialize)
  }

  /** remove_database_family, file by file. */
  const REMOVE_FAMILY: seq<Step> := [RemoveDatabaseFile, RemoveWal, RemoveShm]

  lemma RollbackStates(d: Disk, newConfig: string, created: Image, k: nat)
    requires Initializing(d, newConfig, created) && k <= 6
    ensures |RollbackSteps()| == 6
    ensures var empty := d.(database := NoDatabase, wal := NoWal, shm := false);
      After(d, RollbackSteps(), k) == match k
        case 0 => d
        case 1 => d.(database := NoDatabase)
        case 2 => d.(database := NoDatabase, wal := NoWal)
        case 3 => empty
        case 4 => empty.(config := NoConfig)
        case 5 => empty.(config := NoConfig, journal := Torn)
        case _ => empty.(config := NoConfig, journal := NoJournal)
  {
    if k > 0 { RollbackStates(d, newConfig, created, k - 1); }
  }

  /** A rollback that stops after k steps is stranded exactly while a sidecar outlives
      profiles.db, or before its first step when it found the database unsettled. Once the
      sidecars are gone it ends empty. */
  lemma RollbackIsStrandedIff(d: Disk, newConfig: string, created: Image, k: nat)
    requires Initializing(d, newConfig, created) && d.config == Config(newConfig)
    requires created.revision == 0 && created.origin == None && k <= |RollbackSteps()|
    ensures var m := After(d, RollbackSteps(), k);
      && (Stranded(m) <==> (k == 0 && Unsettled(d)) || (k == 1 && (d.wal != NoWal || d.shm)) || (k == 2 && d.shm))
      && (k > 0 ==> (Stranded(m) <==> Orphaned(m)))
      && (k > 0 && !Stranded(m) ==> Settles(m, NoConfig, NoDatabase))
  {
    RollbackStates(d, newConfig, created, k);
    var m := After(d, RollbackSteps(), k);
    if m.journal.Whole? {
      InitializingIsStrandedIff(m, newConfig, created);
    } else {
      SettlesWhenCleared(m);
    }
  }

  /** The steps of a plain migration from the journal on. */
  lemma MovingStates(built: Disk, newConfig: string, imported: Image, k: nat)
    requires built.journal.NoJournal? && built.config.Config? && built.temp == Built(imported) && k <= 7
    ensures var steps := MigrationSteps(built.config.bytes, newConfig, imported)[5..];
      var published := built.(journal := Whole(MigrationJournal(built.config.bytes, newConfig, imported)));
      var linked := Installed(published.(config := Config(newConfig)), imported);
      && |steps| == 7
      && After(built, steps, k) == match k
        case 0 => built
        case 1 => published
        case 2 => published.(config := Config(newConfig))
        case 3 => linked
        case 4 => linked.(temp := NoTemporary)
        case 5 => linked.(temp := NoTemporary)
        case 6 => linked.(temp := NoTemporary, journal := Torn)
        case _ => linked.(temp := NoTemporary, journal := NoJournal)
  {
    if k > 0 { MovingStates(built, newConfig, imported, k - 1); }
  }

  lemma MigrationStates(start: Disk, newConfig: string, imported: Image, k: nat)
    requires start.journal.NoJournal? && start.config.Config? && k <= 12
    ensures var steps := MigrationSteps(start.config.bytes, newConfig, imported);
      var built := start.(temp := Built(imported));
      var published := built.(journal := Whole(MigrationJournal(start.config.bytes, newConfig, imported)));
      var linked := Installed(published.(config := Config(newConfig)), imported);
      && |steps| == 12
      && After(start, steps, k) == match k
        case 6 => published
        case 7 => published.(config := Config(newConfig))
        case 8 => linked
        case 9 => linked.(temp := NoTemporary)
        case 10 => linked.(temp := NoTemporary)
        case 11 => linked.(temp := NoTemporary, journal := Torn)
        case 12 => linked.(temp := NoTemporary, journal := NoJournal)
        case _ => start.(temp := TemporaryAfter(start.temp, imported, k))
  {
    var build := BuildSteps(imported);
    var steps := MigrationSteps(start.config.bytes, newConfig, imported);
    var rest := steps[5..];
    assert steps == build + rest;
    if k <= 5 {
      BuildStates(start, imported, k);
      AfterPrefix(start, build, rest, k);
    } else {
      var built := start.(temp := Built(imported));
      BuildStates(start, imported, 5);
      MovingStates(built, newConfig, imported, k - 5);
      AfterConcat(start, build, rest, k - 5);
    }
  }

  /** migrate_v2 without an existing database. It looks for profiles.db only, not for its
      sidecars: where one was left over, everything from the journal on, the finished
      migration included, ends in neither pair. */
  lemma MigrationIsCrashAtomicIff(start: Disk, newConfig: string, imported: Image, k: nat)
    requires start.journal.NoJournal? && start.config.Config? && start.database.NoDatabase?
    requires k <= |MigrationSteps(start.config.bytes, newConfig, imported)|
    ensures var d := After(start, MigrationSteps(start.config.bytes, newConfig, imported), k);
      && (Settles(d, start.config, NoDatabase) || Settles(d, Config(newConfig), Database(imported)) <==>
          k <= 5 || !Orphaned(start))
      && (k <= 5 || (k < 8 && !Orphaned(start)) ==> Settles(d, start.config, NoDatabase))
      && (k >= 8 && !Orphaned(start) ==> Settles(d, Config(newConfig), Database(imported)))
      && (k > 5 && Orphaned(start) ==> Derailed(d, newConfig))
  {
    var d := After(start, MigrationSteps(start.config.bytes, newConfig, imported), k);
    MigrationStates(start, newConfig, imported, k);
    hide Settles;
    if k > 5 && Orphaned(start) {
      if d.journal.Whole? { RefusedIsStranded(d); }
      DerailedNeverSettles(d, newConfig, start.config, NoDatabase);
      DerailedNeverSettles(d, newConfig, Config(newConfig), Database(imported));
    } else if d.journal.Whole? {
      SettlesWhenDecided(d, MigrationJournal(start.config.bytes, newConfig, imported));
    } else {
      SettlesWhenCleared(d);
    }
  }

  /** Between the journal and the arrival of the database recovery is refused, for good,
      exactly when a sidecar was left over. */
  lemma MigrationIsStrandedIff(start: Disk, newConfig: string, imported: Image, k: nat)
    requires start.journal.NoJournal? && start.config.Config? && start.database.NoDatabase?
    requires 6 <= k <= 7
    ensures Stranded(After(start, MigrationSteps(start.config.bytes, newConfig, imported), k)) <==> Orphaned(start)
  {
    var d := After(start, MigrationSteps(start.config.bytes, newConfig, imported), k);
    MigrationStates(start, newConfig, imported, k);
    RefusedIsStranded(d);
  }

  /** Once the database has arrived beside the leftover sidecar the same holds, on the
      assumption that such a file is unusable, until the journal goes. */
  lemma ArrivedBesideSidecarIsStrandedIff(start: Disk, newConfig: string, imported: Image, k: nat)
    requires start.journal.NoJournal? && start.config.Config? && start.database.NoDatabase?
    requires 8 <= k <= 10
    ensures Stranded(After(start, MigrationSteps(start.config.bytes, newConfig, imported), k)) <==> Orphaned(start)
  {
    var d := After(start, MigrationSteps(start.config.bytes, newConfig, imported), k);
    MigrationStates(start, newConfig, imported, k);
    RefusedIsStranded(d);
  }

  /** What becomes of profiles.db.migrating: where restarts end, it is still there. */
  predicate TemporaryOutlives(d: Disk, crashes: seq<nat>) {
    var m := Interrupted(d, crashes);
    !(if m.journal.Torn? then m.temp.NoTemporary? else Recovered(m).temp.NoTemporary?)
  }

  lemma TemporaryAfterRecovery(d: Disk, crashes: seq<nat>)
    requires d.journal.Torn? || RecoveryPlan(d).Ok?
    ensures TemporaryOutlives(d, crashes) <==> !Recovered(d).temp.NoTemporary?
  {
    if d.journal.Torn? {
      RefusalIsStable(d, crashes);
    } else {
      RecoveryConverges(d, crashes);
    }
    if d.journal.NoJournal? { assert After(d, [], 0) == d; }
  }

  /** Without a journal nothing ever removes it. */
  lemma UnjournaledTemporaryStays(d: Disk)
    requires d.journal.NoJournal?
    ensures forall crashes :: TemporaryOutlives(d, crashes) <==> !d.temp.NoTemporary?
  {
    assert After(d, [], 0) == d;
    forall crashes ensures TemporaryOutlives(d, crashes) <==> !d.temp.NoTemporary? {
      TemporaryAfterRecovery(d, crashes);
    }
  }

  /** A crash of a plain migration leaves the temporary for good exactly when it falls
      between the creation of its file and the journal, at whatever stage of building, or,
      beside a leftover sidecar, before the temporary has moved. */
  lemma MigrationTemporaryOutlivesIff(start: Disk, newConfig: string, imported: Image, k: nat, crashes: seq<nat>)
    requires start.journal.NoJournal? && start.config.Config? && start.database.NoDatabase?
    requires start.temp.NoTemporary? && k <= |MigrationSteps(start.config.bytes, newConfig, imported)|
    ensures var d := After(start, MigrationSteps(start.config.bytes, newConfig, imported), k);
      && (TemporaryOutlives(d, crashes) <==> 1 <= k <= 5 || (6 <= k <= 8 && Orphaned(start)))
      && (k <= 5 ==> Recovered(d) == d && SamePair(d, start))
  {
    var d := After(start, MigrationSteps(start.config.bytes, newConfig, imported), k);
    MigrationStates(start, newConfig, imported, k);
    if d.journal.NoJournal? { assert After(d, [], 0) == d; }
    if d.journal.Whole? && Orphaned(start) {
      RefusalIsStable(d, crashes);
    } else {
      if d.journal.Whole? { DatabaseDecides(d, MigrationJournal(start.config.bytes, newConfig, imported)); }
      hide Interrupted, TemporaryOutlives;
      TemporaryAfterRecovery(d, crashes);
    }
  }

  /** The same for a replacing migration. */
  lemma ReplacementTemporaryOutlivesIff(start: Disk, newConfig: string, imported: Image, name: string, k: nat, crashes: seq<nat>)
    requires start.journal.NoJournal? && start.config.Config? && start.database.Database?
    requires start.database.image.fileHash == imported.fileHash ==> start.database.image == imported
    requires start.temp.NoTemporary?
    requires k <= |ReplacementSteps(start.config.bytes, newConfig, start.database.image, imported, name)|
    ensures var d := After(start, ReplacementSteps(start.config.bytes, newConfig, start.database.image, imported, name), k);
      && (TemporaryOutlives(d, crashes) <==> 3 <= k <= 7)
      && (k <= 7 ==> Recovered(d) == d && SamePair(d, start))
  {
    var replaced := start.database.image;
    var d := After(start, ReplacementSteps(start.config.bytes, newConfig, replaced, imported, name), k);
    ReplacementStates(start, newConfig, imported, name, k);
    if d.journal.Whole? {
      DatabaseDecides(d, ReplacementJournal(start.config.bytes, newConfig, replaced, imported, name));
    }
    if d.journal.NoJournal? { assert After(d, [], 0) == d; }
    hide Interrupted, TemporaryOutlives;
    TemporaryAfterRecovery(d, crashes);
  }

  /** The disk once the old database is backed up. */
  function BackedUp(start: Disk, name: string): Disk
    requires start.config.Config? && start.database.Database?
  {
    var image := start.database.image;
    Apply(CheckpointDatabase, start).(backups := start.backups[name := Backup(start.config.bytes, image, Database(image))])
  }

  lemma PreparingStates(start: Disk, name: string, k: nat)
    requires start.config.Config? && start.database.Database? && k <= 2
    ensures var steps := PreparingSteps(start.config.bytes, start.database.image, name);
      && |steps| == 2
      && After(start, steps, k) == match k
        case 0 => start
        case 1 => Apply(CheckpointDatabase, start)
        case _ => BackedUp(start, name)
    ensures var saved := BackedUp(start, name);
      saved == start.(wal := saved.wal, backups := saved.backups) && saved.wal != DirtyWal
  {
    if k > 0 { PreparingStates(start, name, k - 1); }
  }

  /** The steps of a replacing migration from the journal on. */
  lemma ReplacingStates(built: Disk, newConfig: string, imported: Image, name: string, k: nat)
    requires built.journal.NoJournal? && built.config.Config? && built.database.Database?
    requires built.temp == Built(imported) && built.wal != DirtyWal && k <= 8
    ensures var replaced := built.database.image;
      var steps := ReplacementSteps(built.config.bytes, newConfig, replaced, imported, name)[7..];
      var published := built.(journal := Whole(ReplacementJournal(built.config.bytes, newConfig, replaced, imported, name)));
      var bare := published.(config := Config(newConfig), wal := NoWal, shm := false);
      var installed := bare.(database := Database(imported), temp := NoTemporary);
      && |steps| == 8
      && After(built, steps, k) == match k
        case 0 => built
        case 1 => published
        case 2 => published.(config := Config(newConfig))
        case 3 => published.(config := Config(newConfig), wal := NoWal)
        case 4 => bare
        case 5 => installed
        case 6 => installed
        case 7 => installed.(journal := Torn)
        case _ => installed.(journal := NoJournal)
  {
    if k > 0 { ReplacingStates(built, newConfig, imported, name, k - 1); }
  }

  lemma ReplacementStates(start: Disk, newConfig: string, imported: Image, name: string, k: nat)
    requires start.journal.NoJournal? && start.config.Config? && start.database.Database? && k <= 15
    ensures var replaced := start.database.image;
      var steps := ReplacementSteps(start.config.bytes, newConfig, replaced, imported, name);
      var saved := BackedUp(start, name);
      var published := saved.(temp := Built(imported),
        journal := Whole(ReplacementJournal(start.config.bytes, newConfig, replaced, imported, name)));
      var bare := published.(config := Config(newConfig), wal := NoWal, shm := false);
      var installed := bare.(database := Database(imported), temp := NoTemporary);
      && |steps| == 15
      && After(start, steps, k) == match k
        case 0 => start
        case 1 => Apply(CheckpointDatabase, start)
        case 8 => published
        case 9 => published.(config := Config(newConfig))
        case 10 => published.(config := Config(newConfig), wal := NoWal)
        case 11 => bare
        case 12 => installed
        case 13 => installed
        case 14 => installed.(journal := Torn)
        case 15 => installed.(journal := NoJournal)
        case _ => saved.(temp := TemporaryAfter(start.temp, imported, k - 2))
  {
    hide After, Apply, BackedUp;
    var replaced := start.database.image;
    var prepare, build := PreparingSteps(start.config.bytes, replaced, name), BuildSteps(imported);
    var steps := ReplacementSteps(start.config.bytes, newConfig, replaced, imported, name);
    var rest := steps[7..];
    var saved := BackedUp(start, name);
    assert steps == prepare + (build + rest);
    if k <= 2 {
      PreparingStates(start, name, k);
      AfterPrefix(start, prepare, build + rest, k);
    } else {
      PreparingStates(start, name, 2);
      AfterConcat(start, prepare, build + rest, k - 2);
      if k <= 7 {
        BuildStates(saved, imported, k - 2);
        AfterPrefix(saved, build, rest, k - 2);
      } else {
        BuildStates(saved, imported, 5);
        ReplacingStates(saved.(temp := Built(imported)), newConfig, imported, name, k - 7);
        AfterConcat(saved, build, rest, k - 7);
      }
    }
  }

  /** migrate_v2 over an existing database. The file hashes in the journal tell the two
      databases apart; equal hashes mean the same file (SHA-256 taken as injective). A
      migration that rebuilds the very same database may end with either config. */
  lemma ReplacementIsCrashAtomic(start: Disk, newConfig: string, imported: Image, name: string, k: nat, crashes: seq<nat>)
    requires start.journal.NoJournal? && start.config.Config? && start.database.Database?
    requires start.database.image.fileHash == imported.fileHash ==> start.database.image == imported
    requires k <= |ReplacementSteps(start.config.bytes, newConfig, start.database.image, imported, name)|
    ensures var d := After(start, ReplacementSteps(start.config.bytes, newConfig, start.database.image, imported, name), k);
      && (k < 12 ==> EndsIn(d, crashes, start.config, start.database))
      && (k >= 12 && start.database.image != imported ==> EndsIn(d, crashes, Config(newConfig), Database(imported)))
      && (EndsIn(d, crashes, start.config, start.database) || EndsIn(d, crashes, Config(newConfig), Database(imported)))
  {
    var replaced := start.database.image;
    var d := After(start, ReplacementSteps(start.config.bytes, newConfig, replaced, imported, name), k);
    ReplacementStates(start, newConfig, imported, name, k);
    if d.journal.Whole? {
      DatabaseDecides(d, ReplacementJournal(start.config.bytes, newConfig, replaced, imported, name));
    }
    EndsWhereRecoveryEnds(d, crashes);
  }

  /** Where a successful recovery ends. */
  lemma RecoveredMatches(d: Disk, j: Journal)
    requires d.journal == Whole(j) && RecoveryPlan(d).Ok?
    ensures Recovered(d).journal.NoJournal? && PairMatches(Recovered(d), j)
  {
    hide After, Repair, PairMatches, ConfigIsOld, ConfigIsNew, IsOldImage, IsTargetImage, Recovered;
    RecoveredIsCleared(d, j);
    RepairIsRepeatable(d, j, 0);
    PairIsOfStores(Repaired(d, j), Recovered(d), j);
  }

  /** With a published replacement journal and its backup in place, recovery from any
      contents of config.json and profiles.db, unreadable ones included, ends in a pair
      the journal knows, unless the read failure may be transient. */
  lemma ReplacementAlwaysRecovers(d: Disk, j: Journal)
    requires d.journal == Whole(j) && JournalAccepted(j) && BackupUsable(d, j)
    ensures RecoveryPlan(d).Ok? <==>
      !d.config.UnreadableConfig? && (ReadDatabase(d).Err? ==> RestorableFailure(ReadDatabase(d).error))
    ensures RecoveryPlan(d).Ok? ==> Recovered(d).journal.NoJournal? && PairMatches(Recovered(d), j)
  {
    hide PairMatches, Recovered, After, Repair;
    if RecoveryPlan(d).Ok? { RecoveredMatches(d, j); }
  }

  /** Without a backup, recovery succeeds exactly from the four known combinations. */
  lemma PlainRecoverySucceedsIff(d: Disk, j: Journal)
    requires d.journal == Whole(j) && JournalAccepted(j) && j.backup.None?
    ensures RecoveryPlan(d).Ok? <==>
      && (ConfigIsOld(d, j) || ConfigIsNew(d, j))
      && ReadDatabase(d).Ok?
      && (IsOldImage(ReadDatabase(d).value, j) || IsTargetImage(ReadDatabase(d).value, j))
    ensures RecoveryPlan(d).Ok? ==> Recovered(d).journal.NoJournal? && PairMatches(Recovered(d), j)
  {
    hide IsOldImage, IsTargetImage, PairMatches, Recovered, ClearSteps, RestoreConfigSteps, After, Repair;
    if RecoveryPlan(d).Ok? { RecoveredMatches(d, j); }
  }

  lemma RecoveryKeepsSettling(d: Disk, k: nat, config: Config, database: Database)
    requires Settles(d, config, database) && RecoveryPlan(d).Ok? && k <= |RecoveryPlan(d).value|
    ensures Settles(After(d, RecoveryPlan(d).value, k), config, database)
  {
    forall crashes ensures EndsIn(After(d, RecoveryPlan(d).value, k), crashes, config, database) {
      assert ([k] + crashes)[1..] == crashes;
      assert EndsIn(d, [k] + crashes, config, database);
    }
  }

  /** A disk in the middle of the transaction of journal j: the stores hold old or new
      contents, and once the journal starts to disappear they agree. */
  predicate InFlight(d: Disk, j: Journal, was: Database, becomes: Database) {
    && ReadDatabase(d).Ok?
    && match d.journal
       case Whole(actual) =>
         && actual == j
         && (ConfigIsOld(d, j) || ConfigIsNew(d, j))
         && ((d.database == was && IsOldImage(ReadDatabase(d).value, j))
             || (d.database == becomes && IsTargetImage(ReadDatabase(d).value, j)))
       case _ => (ConfigIsOld(d, j) && d.database == was) || (ConfigIsNew(d, j) && d.database == becomes)
  }

  lemma InFlightSettles(d: Disk, j: Journal, was: Database, becomes: Database)
    requires JournalAccepted(j) && InFlight(d, j, was, becomes)
    requires becomes.Database? && (IsOldImage(Some(becomes.image), j) ==> was == becomes)
    ensures SettlesEither(d, j, was, becomes)
  {
    if d.journal.Whole? { SettlesWhenDecided(d, j); } else { SettlesWhenCleared(d); }
  }

  lemma RecoveryKeepsEither(d: Disk, k: nat, j: Journal, was: Database, becomes: Database)
    requires SettlesEither(d, j, was, becomes) && RecoveryPlan(d).Ok? && k <= |RecoveryPlan(d).value|
    ensures SettlesEither(After(d, RecoveryPlan(d).value, k), j, was, becomes)
  {
    if Settles(d, OldConfig(j), was) {
      RecoveryKeepsSettling(d, k, OldConfig(j), was);
    } else {
      RecoveryKeepsSettling(d, k, Config(j.newConfig), becomes);
    }
  }
}
