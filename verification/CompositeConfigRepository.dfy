/** The repository object. Each durable operation meets the next entry of a schedule of
    faults, so every method is proved for every way its operations can fail or crash. */
module CompositeConfigRepositories {
  import opened Wrappers
  import opened DurableStore
  import opened CrashRecovery
  import opened Transactions

  /** What happens to one durable operation: it may fail or the process may die, before
      or after the operation took effect. An exhausted schedule means success. */
  datatype Fault = Succeeds | FailsBefore(f: Failure) | FailsAfter(f: Failure) | CrashesBefore | CrashesAfter

  datatype Outcome = Done | Failed(failure: Failure) | Crashed

  datatype Schema = V2 | V3 | OtherSchema | NoSchema

  /** ConfigurationSnapshot. application stands for the text the settings serialize to. */
  datatype Snapshot = Snapshot(application: string, profiles: string, source: string, revision: int, origin: Option<string>)

  datatype MigrationOutcome = Migrated | AlreadyMigrated

  class CompositeConfigRepository {
    var disk: Disk
    var faults: seq<Fault>
    var snapshot: Option<Snapshot>
    var loaded: bool
    var lastFailure: Option<Failure>
    /** The operations attempted since construction, in their order. */
    ghost var trace: seq<Step>
    const schemaOf: string -> Schema
    const applicationOf: string -> Option<string>
    /** What a desired snapshot must pass before it is saved, and whether a snapshot
        converts to the legacy document. */
    const accepts: Snapshot -> bool
    const convertible: Snapshot -> bool

    constructor (disk: Disk, faults: seq<Fault>, schemaOf: string -> Schema, applicationOf: string -> Option<string>,
                 accepts: Snapshot -> bool, convertible: Snapshot -> bool)
      ensures this.disk == disk && this.faults == faults && !loaded && snapshot == None && trace == []
      ensures this.schemaOf == schemaOf && this.applicationOf == applicationOf
      ensures this.accepts == accepts && this.convertible == convertible
    {
      this.disk, this.faults, this.schemaOf, this.applicationOf := disk, faults, schemaOf, applicationOf;
      this.accepts, this.convertible := accepts, convertible;
      snapshot, loaded, lastFailure, trace := None, false, None, [];
    }

    /** What the caller sees of a fault. */
    function Answer(fault: Fault): (o: Outcome)
      ensures o.Done? <==> fault.Succeeds?
      ensures o.Crashed? <==> fault.CrashesBefore? || fault.CrashesAfter?
    {
      match fault
      case Succeeds => Done
      case FailsBefore(f) => Failed(f)
      case FailsAfter(f) => Failed(f)
      case _ => Crashed
    }

    /** One durable operation. A SQLite save that reports failure has changed nothing. */
    method Perform(s: Step) returns (o: Outcome, ghost taken: nat)
      modifies this`disk, this`faults, this`trace
      ensures taken <= 1 && disk == After(old(disk), [s], taken)
      ensures o.Done? ==> taken == 1
      ensures faults == if old(faults) == [] then [] else old(faults)[1..]
      ensures trace == old(trace) + [s]
      ensures var fault := if old(faults) == [] then Succeeds else old(faults)[0];
        && o == Answer(fault)
        && (taken == 1 <==> fault.Succeeds? || fault.CrashesAfter? || (fault.FailsAfter? && !s.SaveDatabase?))
      ensures s.SaveDatabase? && o.Failed? ==> taken == 0
      ensures old(faults) == [] ==> o.Done? && faults == []
    {
      var fault := if faults == [] then Succeeds else faults[0];
      faults := if faults == [] then [] else faults[1..];
      trace := trace + [s];
      if fault.Succeeds? || fault.CrashesAfter? || (fault.FailsAfter? && !s.SaveDatabase?) {
        disk := Apply(s, disk);
        taken := 1;
      } else {
        taken := 0;
      }
      assert After(old(disk), [s], 0) == old(disk);
      match fault
      case Succeeds => o := Done;
      case FailsBefore(f) => o := Failed(f);
      case FailsAfter(f) => o := Failed(f);
      case _ => o := Crashed;
    }

    /** A straight sequence of durable operations, stopping at the first that fails. */
    method Run(steps: seq<Step>) returns (o: Outcome, ghost taken: nat)
      modifies this`disk, this`faults, this`trace
      ensures taken <= |steps| && disk == After(old(disk), steps, taken)
      ensures o.Done? ==> taken == |steps| && trace == old(trace) + steps
      ensures (forall i :: 0 <= i < |old(faults)| && i < |steps| ==> old(faults)[i].Succeeds?) ==> o.Done?
      ensures o.Done? ==> faults == if |old(faults)| <= |steps| then [] else old(faults)[|steps|..]
      ensures old(faults) == [] ==> o.Done? && faults == []
    {
      o, taken := Done, 0;
      for i := 0 to |steps|
        invariant o.Done? && taken == i
        invariant disk == After(old(disk), steps, i)
        invariant trace == old(trace) + steps[..i]
        invariant faults == if |old(faults)| <= i then [] else old(faults)[i..]
        invariant old(faults) == [] ==> faults == []
      {
        ghost var before := disk;
        ghost var t;
        o, t := Perform(steps[i]);
        assert After(before, [steps[i]], 0) == before;
        taken := i + t;
        if !o.Done? { return; }
        assert steps[..i + 1] == steps[..i] + [steps[i]];
      }
      assert steps[..|steps|] == steps;
    }

    /** clear_journal. */
    method ClearJournal(kind: Kind) returns (o: Outcome, ghost taken: nat)
      modifies this`disk, this`faults, this`trace
      ensures taken <= |ClearSteps(kind)| && disk == After(old(disk), ClearSteps(kind), taken)
      ensures o.Done? ==> taken == |ClearSteps(kind)| && disk.journal.NoJournal?
      ensures o.Done? ==> trace == old(trace) + ClearSteps(kind)
      ensures SamePair(disk, old(disk)) && disk.wal == old(disk).wal && disk.shm == old(disk).shm
      ensures disk.copies == old(disk).copies
      ensures disk.journal in {old(disk).journal, Torn, NoJournal}
      ensures o.Done? && kind == Migration ==> disk.temp.NoTemporary?
      ensures old(faults) == [] ==> o.Done? && faults == []
    {
      o, taken := Run(ClearSteps(kind));
      ClearEffect(old(disk), kind, taken);
    }

    /** restore_config. */
    method RestoreConfig(previous: Option<string>) returns (o: Outcome, ghost taken: nat)
      modifies this`disk, this`faults, this`trace
      ensures var steps := RestoreConfigSteps(old(disk).config, previous);
        && taken <= |steps| && disk == After(old(disk), steps, taken)
        && (o.Done? ==> taken == |steps|)
      ensures disk == old(disk).(config := disk.config)
      ensures disk.config in {old(disk).config, PreviousConfig(previous)}
      ensures o.Done? ==> disk.config == PreviousConfig(previous)
      ensures o.Done? ==> trace == old(trace) + RestoreConfigSteps(old(disk).config, previous)
      ensures old(faults) == [] ==> o.Done? && faults == []
    {
      o, taken := Done, 0;
      assert After(disk, RestoreConfigSteps(disk.config, previous), 0) == disk;
      if previous.Some? {
        o, taken := Perform(WriteConfig(previous.value));
      } else if !disk.config.NoConfig? {
        o, taken := Perform(RemoveConfig);
      }
    }

    /** Runs a repair and then removes the journal, the shape of every recovery branch. */
    method RepairAndClear(repair: seq<Step>, kind: Kind) returns (o: Outcome, ghost taken: nat)
      modifies this`disk, this`faults, this`trace
      ensures var plan := repair + ClearSteps(kind);
        && taken <= |plan| && disk == After(old(disk), plan, taken)
        && (o.Done? ==> taken == |plan| && trace == old(trace) + plan)
      ensures old(faults) == [] ==> o.Done? && faults == []
    {
      o, taken := Run(repair);
      AfterPrefix(old(disk), repair, ClearSteps(kind), taken);
      if o.Done? {
        ghost var t;
        o, t := ClearJournal(kind);
        AfterConcat(old(disk), repair, ClearSteps(kind), t);
        taken := |repair| + t;
      }
    }

    /** restore_database_replacement_backup followed by clear_journal. */
    method RestoreFromBackup(j: Journal) returns (o: Outcome, ghost taken: nat)
      modifies this`disk, this`faults, this`trace
      ensures match RestorePlan(old(disk), j)
        case Err(f) => o == Failed(f) && taken == 0 && disk == old(disk)
        case Ok(plan) => taken <= |plan| && disk == After(old(disk), plan, taken) && (o.Done? ==> taken == |plan| && trace == old(trace) + plan)
      ensures old(faults) == [] ==> faults == [] && o.Done? == RestorePlan(old(disk), j).Ok?
    {
      if !BackupUsable(disk, j) { return Failed(RecoveryRequired), 0; }
      o, taken := RepairAndClear(RestoreSteps(disk, j), j.kind);
    }

    /** recover_locked. */
    method RecoverLocked() returns (o: Outcome, ghost taken: nat)
      modifies this`disk, this`faults, this`trace, this`lastFailure
      ensures match RecoveryPlan(old(disk))
        case Err(f) => o == Failed(f) && taken == 0 && disk == old(disk)
        case Ok(plan) => taken <= |plan| && disk == After(old(disk), plan, taken) && (o.Done? ==> taken == |plan| && trace == old(trace) + plan)
      ensures o.Failed? ==> lastFailure == Some(o.failure)
      ensures !o.Failed? ==> lastFailure == old(lastFailure)
      ensures old(faults) == [] ==> faults == [] && o.Done? == RecoveryPlan(old(disk)).Ok?
      ensures var d := old(disk);
        && d.journal.Whole? && JournalAccepted(d.journal.journal) && !d.config.UnreadableConfig? && d.database.UnreadableDatabase?
        && d.database.failure in {Busy, Io, Constraint, Stale, NotLoaded, MigrationRequired} ==>
          o == Failed(d.database.failure) && disk == d
    {
      o, taken := RecoverJournal();
      if o.Failed? { lastFailure := Some(o.failure); }
    }

    method RecoverJournal() returns (o: Outcome, ghost taken: nat)
      modifies this`disk, this`faults, this`trace
      ensures match RecoveryPlan(old(disk))
        case Err(f) => o == Failed(f) && taken == 0 && disk == old(disk)
        case Ok(plan) => taken <= |plan| && disk == After(old(disk), plan, taken) && (o.Done? ==> taken == |plan| && trace == old(trace) + plan)
      ensures old(faults) == [] ==> faults == [] && o.Done? == RecoveryPlan(old(disk)).Ok?
    {
      if disk.journal.NoJournal? { return Done, 0; }
      if disk.journal.Torn? { return Failed(Io), 0; }
      var j := disk.journal.journal;
      if !JournalAccepted(j) { return Failed(RecoveryRequired), 0; }
      if disk.config.UnreadableConfig? { return Failed(disk.config.failure), 0; }
      var read := ReadDatabase(disk);
      if read.Err? {
        if j.backup.None? || !RestorableFailure(read.error) { return Failed(read.error), 0; }
        o, taken := RestoreFromBackup(j);
        return;
      }
      var isOld, isTarget := IsOldImage(read.value, j), IsTargetImage(read.value, j);
      if ConfigIsOld(disk, j) && isOld {
        o, taken := ClearJournal(j.kind);
      } else if ConfigIsNew(disk, j) && isOld {
        o, taken := RepairAndClear(RestoreConfigSteps(disk.config, j.oldConfig), j.kind);
      } else if ConfigIsOld(disk, j) && isTarget {
        o, taken := RepairAndClear([WriteConfig(j.newConfig)], j.kind);
      } else if ConfigIsNew(disk, j) && isTarget {
        o, taken := ClearJournal(j.kind);
      } else if j.backup.Some? {
        o, taken := RestoreFromBackup(j);
      } else {
        return Failed(RecoveryRequired), 0;
      }
    }

    /** Of the operations of an initialization only one of open_or_create goes wrong. */
    predicate OpeningAloneFails(faults: seq<Fault>) {
      |faults| in {3, 4} && forall i :: 0 <= i < |faults| - 1 ==> faults[i].Succeeds?
    }

    /** initialize_fresh_locked, given what SQLite creates. A fault strands it exactly when
        it leaves a sidecar without profiles.db, or a database without its schema, under
        the journal. */
    method InitializeFreshLocked(newConfig: string, created: Image) returns (o: Outcome)
      requires disk.journal.NoJournal? && disk.config.NoConfig? && disk.database.NoDatabase?
      requires created.revision == 0 && created.origin == None
      modifies this`disk, this`faults, this`trace, this`lastFailure
      ensures o.Done? ==>
        disk.journal.NoJournal? && disk.config == Config(newConfig) && disk.database == Database(created)
      ensures o.Done? ==> trace == old(trace) + InitializeSteps(newConfig, created)
      ensures EndsInitialization(disk, newConfig, created)
      ensures OpeningAloneFails(old(faults)) && o.Failed? ==> disk == old(disk).(wal := NoWal, shm := false)
      ensures o.Failed? ==> lastFailure == Some(o.failure)
      ensures !o.Failed? ==> lastFailure == old(lastFailure)
      ensures old(faults) == [] ==> o.Done?
    {
      o := InitializeJournaled(newConfig, created);
      if o.Failed? { lastFailure := Some(o.failure); }
    }

    method InitializeJournaled(newConfig: string, created: Image) returns (o: Outcome)
      requires disk.journal.NoJournal? && disk.config.NoConfig? && disk.database.NoDatabase?
      requires created.revision == 0 && created.origin == None
      modifies this`disk, this`faults, this`trace
      ensures o.Done? ==>
        disk.journal.NoJournal? && disk.config == Config(newConfig) && disk.database == Database(created)
      ensures o.Done? ==> trace == old(trace) + InitializeSteps(newConfig, created)
      ensures EndsInitialization(disk, newConfig, created)
      ensures OpeningAloneFails(old(faults)) && o.Failed? ==> disk == old(disk).(wal := NoWal, shm := false)
      ensures old(faults) == [] ==> o.Done?
    {
      hide EndsInitialization;
      var j := InitializeJournal(newConfig);
      ghost var taken;
      o, taken := Run([PublishJournal(j), WriteConfig(newConfig)]);
      InitializationStarts(old(disk), newConfig, taken);
      InitializationEnds(disk, newConfig, created);
      if !o.Done? { return; }
      o := OpenOrCreate(newConfig, created);
      if !o.Done? { return; }
      o, taken := ClearJournal(Initialize);
      InitializationEnds(disk, newConfig, created);
    }

    lemma InitializationStarts(start: Disk, newConfig: string, k: nat)
      requires k <= 2
      ensures var j := InitializeJournal(newConfig);
        After(start, [PublishJournal(j), WriteConfig(newConfig)], k) == match k
          case 0 => start
          case 1 => start.(journal := Whole(j))
          case _ => start.(journal := Whole(j), config := Config(newConfig))
    {
      if k > 0 { InitializationStarts(start, newConfig, k - 1); }
    }

    /** open_or_create on profiles.db, and the rollback when it reports failure. */
    method OpenOrCreate(newConfig: string, created: Image) returns (o: Outcome)
      requires disk.journal == Whole(InitializeJournal(newConfig)) && disk.config == Config(newConfig) && disk.database.NoDatabase?
      requires created.revision == 0 && created.origin == None
      modifies this`disk, this`faults, this`trace
      ensures o.Done? ==> disk == old(disk).(database := Database(created), wal := DirtyWal, shm := true)
      ensures o.Done? ==> trace == old(trace) + [CreateDatabaseFile, CommitSchema(created)]
      ensures o.Done? ==> faults == if |old(faults)| <= 2 then [] else old(faults)[2..]
      ensures !o.Done? ==> EndsInitialization(disk, newConfig, created)
      ensures |old(faults)| in {1, 2} && (|old(faults)| == 2 ==> old(faults)[0].Succeeds?) && o.Failed? ==>
        disk == old(disk).(wal := NoWal, shm := false, config := NoConfig, journal := NoJournal)
      ensures old(faults) == [] ==> o.Done? && faults == []
    {
      hide EndsInitialization;
      ghost var taken;
      o, taken := Perform(CreateDatabaseFile);
      if o.Done? { o, taken := Perform(CommitSchema(created)); }
      InitializationEnds(disk, newConfig, created);
      if o.Failed? { o, taken := RollBackInitialize(newConfig, created, o); }
    }

    /** The rollback of initialize_fresh_locked when open_or_create reports failure: once
        it has begun, a fault strands it exactly when a sidecar outlives profiles.db. */
    method RollBackInitialize(newConfig: string, created: Image, cause: Outcome) returns (o: Outcome, ghost taken: nat)
      requires Initializing(disk, newConfig, created) && disk.config == Config(newConfig)
      requires created.revision == 0 && created.origin == None && cause.Failed?
      modifies this`disk, this`faults, this`trace
      ensures !o.Done? && taken <= |RollbackSteps()| && disk == After(old(disk), RollbackSteps(), taken)
      ensures taken > 0 ==> (Stranded(disk) <==> Orphaned(disk))
      ensures EndsInitialization(disk, newConfig, created)
      ensures old(faults) == [] ==> o == cause && taken == |RollbackSteps()|
      ensures old(faults) == [] ==> disk == old(disk).(database := NoDatabase, wal := NoWal, shm := false, config := NoConfig, journal := NoJournal)
    {
      o, taken := RepairAndClear(REMOVE_FAMILY + RestoreConfigSteps(disk.config, None), Initialize);
      RollbackStates(old(disk), newConfig, created, taken);
      RollbackIsStrandedIff(old(disk), newConfig, created, taken);
      InitializationEnds(disk, newConfig, created);
      if o.Done? { o := cause; }
    }

    /** The catch block shared by save_snapshot and migrate_v2. */
    method RecoverAfterFailure(cause: Outcome, ghost sound: bool, ghost j: Journal, ghost was: Database, ghost becomes: Database)
      returns (o: Outcome)
      requires !cause.Done? && (sound ==> SettlesEither(disk, j, was, becomes))
      modifies this`disk, this`faults, this`trace, this`lastFailure
      ensures !o.Done? && (sound ==> SettlesEither(disk, j, was, becomes))
      ensures o.Failed? && o.failure != RecoveryRequired ==> o == cause
      ensures o.Failed? && o.failure != RecoveryRequired ==> disk.journal.NoJournal?
      ensures cause.Crashed? ==> o == Crashed && disk == old(disk)
      ensures o == cause || (cause.Failed? && (o == Crashed || o == Failed(RecoveryRequired)))
      ensures !old(disk).journal.Whole? || RecoveryPlan(old(disk)).Err? ==> disk == old(disk)
    {
      o := cause;
      if cause.Failed? && !disk.journal.NoJournal? {
        ghost var before := disk;
        var r, taken := RecoverLocked();
        if RecoveryPlan(before).Ok? {
          if sound { RecoveryKeepsEither(before, taken, j, was, becomes); }
          if before.journal.Whole? { RecoveredIsCleared(before, before.journal.journal); }
        }
        if !r.Done? {
          o := if r.Crashed? then Crashed else Failed(RecoveryRequired);
        }
      }
    }

    /** save_snapshot when both stores change. */
    method CommitBoth(newConfig: string, saved: Image) returns (o: Outcome)
      requires disk.journal.NoJournal? && disk.config.Config? && disk.database.Database?
      requires saved.revision == disk.database.image.revision + 1 && saved.origin == disk.database.image.origin
      modifies this`disk, this`faults, this`trace, this`lastFailure
      ensures o.Done? ==>
        disk.journal.NoJournal? && disk.config == Config(newConfig) && disk.database == Database(saved)
      ensures o.Done? ==>
        trace == old(trace) + CommitSteps(old(disk).config.bytes, old(disk).database.image, newConfig, saved)
      ensures o.Failed? && o.failure != RecoveryRequired ==> disk.journal.NoJournal? || SamePair(disk, old(disk))
      ensures o.Done? ==> lastFailure == old(lastFailure)
      ensures !o.Done? ==>
        SettlesEither(disk, CommitJournal(old(disk).config.bytes, old(disk).database.image, newConfig),
                      old(disk).database, Database(saved))
      ensures old(faults) == [] ==> o.Done?
    {
      var j := CommitJournal(disk.config.bytes, disk.database.image, newConfig);
      ghost var was, becomes := disk.database, Database(saved);
      ghost var taken;
      o, taken := Perform(PublishJournal(j));
      InFlightSettles(disk, j, was, becomes);
      if !o.Done? { return; }
      ghost var published := trace;
      o := CommitPublished(j, saved);
      if o.Done? {
        assert published + ([WriteConfig(newConfig), SaveDatabase(saved)] + ClearSteps(Commit))
            == old(trace) + ([PublishJournal(j), WriteConfig(newConfig), SaveDatabase(saved)] + ClearSteps(Commit));
      }
      if !o.Done? {
        o := RecoverAfterFailure(o, true, j, was, becomes);
      }
    }

    method CommitPublished(j: Journal, saved: Image) returns (o: Outcome)
      requires disk.config.Config? && disk.database.Database?
      requires j == CommitJournal(disk.config.bytes, disk.database.image, j.newConfig) && disk.journal == Whole(j)
      requires saved.revision == disk.database.image.revision + 1 && saved.origin == disk.database.image.origin
      modifies this`disk, this`faults, this`trace
      ensures o.Done? ==>
        disk.journal.NoJournal? && disk.config == Config(j.newConfig) && disk.database == Database(saved)
      ensures o.Done? ==> trace == old(trace) + [WriteConfig(j.newConfig), SaveDatabase(saved)] + ClearSteps(Commit)
      ensures SettlesEither(disk, j, old(disk).database, Database(saved))
      ensures old(faults) == [] ==> o.Done?
    {
      ghost var was, becomes := disk.database, Database(saved);
      ghost var taken;
      o, taken := Perform(WriteConfig(j.newConfig));
      InFlightSettles(disk, j, was, becomes);
      if !o.Done? { return; }
      o, taken := Perform(SaveDatabase(saved));
      InFlightSettles(disk, j, was, becomes);
      if o.Crashed? { return; }
      if o.Done? {
        o, taken := ClearJournal(Commit);
      } else {
        var r;
        r, taken := RestoreConfig(j.oldConfig);
        if r.Done? { r, taken := ClearJournal(Commit); }
        if !r.Done? { o := r; }
      }
      InFlightSettles(disk, j, was, becomes);
    }

    /** Both stores can be read. */
    predicate Readable(d: Disk)
    {
      && d.config.Config? && schemaOf(d.config.bytes) == V3 && applicationOf(d.config.bytes).Some?
      && ReadDatabase(d).Ok? && ReadDatabase(d).value.Some?
    }

    function ReadySnapshot(d: Disk): (s: Snapshot)
      requires Readable(d)
      ensures s.source == d.config.bytes && applicationOf(s.source) == Some(s.application)
      ensures (s.profiles, s.revision, s.origin) == (d.database.image.profiles, d.database.image.revision, d.database.image.origin)
    {
      var image := d.database.image;
      Snapshot(applicationOf(d.config.bytes).value, image.profiles, d.config.bytes, image.revision, image.origin)
    }

    /** What load_ready_locked accepts. */
    predicate Ready(d: Disk)
    {
      Readable(d) && convertible(ReadySnapshot(d))
    }

    /** Why both stores cannot be loaded: the first of the checks that fails. */
    function LoadFailure(d: Disk): (f: Failure)
      requires !Ready(d)
      ensures d.config.NoConfig? ==> f == RecoveryRequired
      ensures d.config.UnreadableConfig? ==> f == d.config.failure
      ensures d.config.Config? && schemaOf(d.config.bytes) == V2 ==> f == MigrationRequired
      ensures d.config.Config? && schemaOf(d.config.bytes) == OtherSchema ==> f == UnsupportedSchema
      ensures d.config.Config? && schemaOf(d.config.bytes) == NoSchema ==> f == InvalidDocument
      ensures d.config.Config? && schemaOf(d.config.bytes) == V3 ==>
        f == if applicationOf(d.config.bytes).None? then InvalidDocument
             else if d.database.NoDatabase? then RecoveryRequired
             else if d.database.UnreadableDatabase? then d.database.failure
             else InvalidDocument
    {
      match d.config
      case NoConfig => RecoveryRequired
      case UnreadableConfig(f) => f
      case Config(bytes) =>
        match schemaOf(bytes)
        case V2 => MigrationRequired
        case OtherSchema => UnsupportedSchema
        case NoSchema => InvalidDocument
        case V3 =>
          if applicationOf(bytes).None? then InvalidDocument
          else match ReadDatabase(d)
            case Err(f) => f
            case Ok(None) => RecoveryRequired
            case Ok(_) => InvalidDocument
    }

    /** load_ready_locked. A snapshot that does not convert replaces the previous one all
        the same. */
    method LoadReadyLocked() returns (o: Outcome)
      modifies this`snapshot, this`loaded
      ensures !o.Crashed? && o.Done? == Ready(disk)
      ensures o.Done? ==>
        && disk.config.Config? && schemaOf(disk.config.bytes) == V3 && disk.database.Database? && snapshot.Some?
        && snapshot.value.source == disk.config.bytes && Some(snapshot.value.application) == applicationOf(disk.config.bytes)
        && snapshot.value.profiles == disk.database.image.profiles && snapshot.value.revision == disk.database.image.revision
        && snapshot.value.origin == disk.database.image.origin && convertible(snapshot.value)
      ensures !o.Done? ==> o == Failed(LoadFailure(disk))
      ensures o.Done? ==> loaded
      ensures !o.Done? ==> loaded == old(loaded)
      ensures snapshot == if Readable(disk) then Some(ReadySnapshot(disk)) else old(snapshot)
    {
      match disk.config {
        case NoConfig => return Failed(RecoveryRequired);
        case UnreadableConfig(f) => return Failed(f);
        case Config(bytes) =>
          match schemaOf(bytes) {
            case NoSchema => return Failed(InvalidDocument);
            case V2 => return Failed(MigrationRequired);
            case OtherSchema => return Failed(UnsupportedSchema);
            case V3 =>
          }
          if applicationOf(bytes).None? { return Failed(InvalidDocument); }
      }
      var read := ReadDatabase(disk);
      if read.Err? { return Failed(read.error); }
      if read.value.None? { return Failed(RecoveryRequired); }
      snapshot := Some(ReadySnapshot(disk));
      if !convertible(snapshot.value) { return Failed(InvalidDocument); }
      loaded := true;
      o := Done;
    }

    /** load: recover, create a fresh pair when there is none, then read both stores. */
    method Load(newConfig: string, created: Image) returns (o: Outcome, ghost base: Disk)
      requires created.revision == 0 && created.origin == None
      modifies this
      ensures RecoveryPlan(old(disk)).Err? ==> o == Failed(RecoveryPlan(old(disk)).error) && disk == old(disk) && !loaded
      ensures RecoveryPlan(old(disk)).Ok? ==>
        || base == Recovered(old(disk))
        || (!o.Done? && disk == base && exists k :: 0 <= k <= |RecoveryPlan(old(disk)).value| && disk == After(old(disk), RecoveryPlan(old(disk)).value, k))
      ensures o.Done? ==> loaded && Ready(disk) && snapshot == Some(ReadySnapshot(disk)) && disk.journal.NoJournal?
      ensures o.Done? ==>
        if base.config.NoConfig? then base.database.NoDatabase? && disk.config == Config(newConfig) && disk.database == Database(created)
        else disk == base
      ensures !base.config.NoConfig? || !base.database.NoDatabase? ==> disk == base
      ensures !o.Done? && base.journal.NoJournal? && base.config.NoConfig? && base.database.NoDatabase? ==>
        EndsInitialization(disk, newConfig, created)
      ensures old(faults) == [] && RecoveryPlan(old(disk)).Ok? ==>
        && base == Recovered(old(disk))
        && (base.config.NoConfig? && base.database.NoDatabase? ==>
            disk.journal.NoJournal? && disk.config == Config(newConfig) && disk.database == Database(created))
        && o == if Ready(disk) then Done else Failed(LoadFailure(disk))
      ensures !o.Crashed? ==> lastFailure == if o.Failed? then Some(o.failure) else None
    {
      hide EndsInitialization;
      lastFailure, loaded := None, false;
      ghost var taken;
      o, taken := RecoverLocked();
      base := disk;
      if base.journal.NoJournal? && base.config.NoConfig? && base.database.NoDatabase? {
        InitializationEnds(base, newConfig, created);
      }
      if !o.Done? { return; }
      if old(disk).journal.Whole? { RecoveredIsCleared(old(disk), old(disk).journal.journal); }
      assert After(old(disk), [], 0) == old(disk);
      if disk.config.NoConfig? && disk.database.NoDatabase? {
        o := InitializeFreshLocked(newConfig, created);
        if !o.Done? { return; }
        InitializationEnds(disk, newConfig, created);
      }
      o := LoadReadyLocked();
      Report(o);
    }

    /** The handlers at the end of load, save_snapshot and migrate_v2. */
    method Report(o: Outcome)
      modifies this`lastFailure
      ensures lastFailure == if o.Failed? then Some(o.failure) else old(lastFailure)
    {
      if o.Failed? { lastFailure := Some(o.failure); }
    }

    /** The database the repository ends with when profiles are saved as desired. */
    function SavedImage(image: Image, profiles: string, fileHash: string): (saved: Image)
      ensures saved.profiles == profiles && saved.origin == image.origin
      ensures image.profiles == profiles ==> saved == image
      ensures image.profiles != profiles ==> saved.revision == image.revision + 1 && saved.fileHash == fileHash
    {
      if image.profiles == profiles then image
      else Image(image.revision + 1, image.origin, profiles, fileHash)
    }

    /** What snapshot_ holds after a save: the committed values, or, when nothing had
        changed, what was read. */
    function CommittedSnapshot(base: Disk, desired: Snapshot, saved: Image): Snapshot
      requires Readable(base)
    {
      if base.config == Config(desired.application) && base.database.image.profiles == desired.profiles then ReadySnapshot(base)
      else Snapshot(desired.application, desired.profiles, desired.application, saved.revision, desired.origin)
    }

    /** What a save answers when no operation fails. */
    function SaveAnswer(base: Disk, desired: Snapshot, fileHash: string): (o: Outcome)
      requires Ready(base)
      ensures o == Failed(Stale) <==> desired.source != base.config.bytes || desired.revision != base.database.image.revision
      ensures o == Failed(InvalidDocument) ==> desired.origin != base.database.image.origin
      ensures o.Done? ==> desired.origin == base.database.image.origin
      ensures o.Done? && (base.config != Config(desired.application) || base.database.image.profiles != desired.profiles) ==>
        convertible(Snapshot(desired.application, desired.profiles, desired.application,
                             SavedImage(base.database.image, desired.profiles, fileHash).revision, desired.origin))
    {
      if desired.source != base.config.bytes || desired.revision != base.database.image.revision then Failed(Stale)
      else if desired.origin != base.database.image.origin then Failed(InvalidDocument)
      else if convertible(CommittedSnapshot(base, desired, SavedImage(base.database.image, desired.profiles, fileHash))) then Done
      else Failed(Corrupt)
    }

    /** What a successful save leaves: the desired settings and profiles on disk, under the
        next revision exactly when the profiles changed, and a snapshot of just that. */
    predicate Holds(base: Disk, desired: Snapshot)
      reads this
    {
      && base.database.Database? && disk.database.Database? && disk.config.Config? && snapshot.Some?
      && disk.config.bytes == desired.application
      && disk.database.image.profiles == desired.profiles
      && disk.database.image.origin == base.database.image.origin == desired.origin
      && disk.database.image.revision
         == base.database.image.revision + (if base.database.image.profiles == desired.profiles then 0 else 1)
      && snapshot.value.source == disk.config.bytes
      && snapshot.value.profiles == disk.database.image.profiles
      && snapshot.value.revision == disk.database.image.revision
      && snapshot.value.origin == disk.database.image.origin
      && (base.config != disk.config || base.database != disk.database ==> snapshot.value.application == desired.application)
      && (base.config == disk.config && base.database == disk.database ==>
          Some(snapshot.value.application) == applicationOf(disk.config.bytes))
    }

    /** save_snapshot. base is the disk once recovery has finished. A snapshot that does not
        convert after it was saved is reported as corrupt, with both stores already new. */
    method SaveSnapshot(desired: Snapshot, fileHash: string) returns (o: Outcome, ghost base: Disk)
      modifies this
      ensures !accepts(desired) ==> o == Failed(InvalidDocument) && disk == old(disk)
      ensures accepts(desired) && RecoveryPlan(old(disk)).Err? ==> o == Failed(RecoveryPlan(old(disk)).error) && disk == old(disk)
      ensures accepts(desired) && RecoveryPlan(old(disk)).Ok? ==>
        || base == Recovered(old(disk))
        || (!o.Done? && disk == base && exists k :: 0 <= k <= |RecoveryPlan(old(disk)).value| && disk == After(old(disk), RecoveryPlan(old(disk)).value, k))
      ensures o.Done? ==>
        && Ready(base) && disk.journal.NoJournal? && loaded
        && desired.source == base.config.bytes && desired.revision == base.database.image.revision
        && desired.origin == base.database.image.origin
        && disk.config == Config(desired.application)
        && disk.database == Database(SavedImage(base.database.image, desired.profiles, fileHash))
        && snapshot == Some(CommittedSnapshot(base, desired, disk.database.image)) && convertible(snapshot.value)
      ensures o.Done? ==> Holds(base, desired)
      ensures old(faults) == [] && accepts(desired) && RecoveryPlan(old(disk)).Ok? ==>
        && base == Recovered(old(disk))
        && (Ready(base) ==> o == SaveAnswer(base, desired, fileHash))
        && (!Ready(base) ==> o == Failed(LoadFailure(base)) && disk == base)
      ensures !o.Done? && base.journal.NoJournal? ==>
        || Settles(disk, base.config, base.database)
        || (base.database.Database?
            && Settles(disk, Config(desired.application), Database(SavedImage(base.database.image, desired.profiles, fileHash))))
      ensures !o.Crashed? ==> lastFailure == if o.Failed? then Some(o.failure) else None
    {
      lastFailure := None;
      base := disk;
      if base.journal.NoJournal? { SettlesWhenCleared(base); }
      if !accepts(desired) {
        o := Failed(InvalidDocument);
        Report(o);
        return;
      }
      ghost var taken;
      o, taken := RecoverLocked();
      base := disk;
      if base.journal.NoJournal? { SettlesWhenCleared(base); }
      if !o.Done? { return; }
      if old(disk).journal.Whole? { RecoveredIsCleared(old(disk), old(disk).journal.journal); }
      assert After(old(disk), [], 0) == old(disk);
      o := LoadReadyLocked();
      if o.Done? { o := SaveChanges(desired, fileHash); }
      Report(o);
    }

    /** save_snapshot from the comparison with the loaded snapshot on. */
    method SaveChanges(desired: Snapshot, fileHash: string) returns (o: Outcome)
      requires disk.journal.NoJournal? && Ready(disk) && loaded && snapshot == Some(ReadySnapshot(disk))
      modifies this`disk, this`faults, this`trace, this`snapshot, this`loaded, this`lastFailure
      ensures o.Done? ==>
        && disk.journal.NoJournal? && loaded
        && desired.source == old(disk).config.bytes && desired.revision == old(disk).database.image.revision
        && desired.origin == old(disk).database.image.origin
        && disk.config == Config(desired.application)
        && disk.database == Database(SavedImage(old(disk).database.image, desired.profiles, fileHash))
        && snapshot == Some(CommittedSnapshot(old(disk), desired, disk.database.image)) && convertible(snapshot.value)
      ensures o.Done? ==> Holds(old(disk), desired) && lastFailure == old(lastFailure)
      ensures old(disk).config.bytes != desired.source || old(disk).database.image.revision != desired.revision ==>
        o == Failed(Stale) && disk == old(disk)
      ensures old(faults) == [] ==> o == SaveAnswer(old(disk), desired, fileHash)
      ensures !o.Done? ==>
        || Settles(disk, old(disk).config, old(disk).database)
        || Settles(disk, Config(desired.application), Database(SavedImage(old(disk).database.image, desired.profiles, fileHash)))
    {
      hide Settles;
      SettlesWhenCleared(disk);
      var current := snapshot.value;
      if current.source != desired.source || current.revision != desired.revision { return Failed(Stale); }
      if current.origin != desired.origin { return Failed(InvalidDocument); }
      var configChanged := current.source != desired.application;
      var profilesChanged := current.profiles != desired.profiles;
      if !configChanged && !profilesChanged { return Done; }
      var saved := Image(current.revision + 1, current.origin, desired.profiles, fileHash);
      ghost var taken;
      if configChanged && profilesChanged {
        o := CommitBoth(desired.application, saved);
      } else if configChanged {
        o, taken := Perform(WriteConfig(desired.application));
      } else {
        o, taken := Perform(SaveDatabase(saved));
      }
      if disk.journal.NoJournal? { SettlesWhenCleared(disk); }
      if !o.Done? { return; }
      snapshot := Some(Snapshot(desired.application, desired.profiles, disk.config.bytes,
                                disk.database.image.revision, desired.origin));
      if !convertible(snapshot.value) { return Failed(Corrupt); }
      loaded := true;
    }

    /** The databases of a published migration: the old one is readable and the journal
        tells it from the imported one. */
    predicate Distinguishable(d: Disk, j: Journal, imported: Image) {
      && ReadDatabase(d).Ok? && IsOldImage(ReadDatabase(d).value, j)
      && (IsOldImage(Some(imported), j) ==> d.database == Database(imported))
    }

    /** What migrate_v2 does once its journal is published. */
    function InstallingSteps(j: Journal): seq<Step> {
      [WriteConfig(j.newConfig)] + (if j.oldDatabase.Some? then [RemoveWal, RemoveShm, ReplaceByTemp] else [LinkTemp, RemoveTemp])
      + ClearSteps(Migration)
    }

    /** The journal and the steps behind it, over no database or an existing one. */
    function MovingSteps(was: Database, source: string, newConfig: string, imported: Image, name: string): seq<Step> {
      var j := if was.Database? then ReplacementJournal(source, newConfig, was.image, imported, name)
               else MigrationJournal(source, newConfig, imported);
      [PublishJournal(j)] + InstallingSteps(j)
    }

    /** A migration that goes through takes the steps whose crashes Transactions is about,
        after the copy of the document. */
    lemma StepsOfMigration(d: Disk, source: string, newConfig: string, imported: Image, copyName: string, name: string)
      requires copyName in d.copies && name !in d.backups
      ensures var steps := PreparationSteps(d, source, copyName, name) + BuildSteps(imported)
                           + MovingSteps(d.database, source, newConfig, imported, name);
        && (d.database.NoDatabase? ==> steps == MigrationSteps(source, newConfig, imported))
        && (d.database.Database? ==> steps == ReplacementSteps(source, newConfig, d.database.image, imported, name))
    {}

    /** The steps of migrate_v2 from the journal on, without the catch block. */
    method MigratePublished(j: Journal, imported: Image) returns (o: Outcome)
      requires disk.journal == Whole(j) && j.kind == Migration && JournalAccepted(j) && OldConfig(j) == disk.config
      requires j.target == Expected(imported.revision, imported.origin, Some(imported.fileHash))
      requires disk.temp == Built(imported)
      requires if j.oldDatabase.Some? then disk.database.Database? && disk.wal != DirtyWal else disk.database.NoDatabase?
      modifies this`disk, this`faults, this`trace
      ensures o.Done? ==> disk.journal.NoJournal? && disk.config == Config(j.newConfig) && disk.temp.NoTemporary?
      ensures o.Done? ==> disk.copies == old(disk).copies
      ensures o.Done? ==> trace == old(trace) + InstallingSteps(j)
      ensures o.Done? && Distinguishable(old(disk), j, imported) ==> disk.database == Database(imported)
      ensures Distinguishable(old(disk), j, imported) ==> SettlesEither(disk, j, old(disk).database, Database(imported))
      ensures Orphaned(old(disk)) ==> Derailed(disk, j.newConfig)
      ensures o.Done? && Orphaned(old(disk)) ==> disk.database == UnreadableDatabase(Corrupt)
      ensures old(faults) == [] ==> o.Done?
    {
      hide SettlesEither, Stranded;
      ghost var was, becomes := disk.database, Database(imported);
      ghost var sound := Distinguishable(disk, j, imported);
      ghost var taken;
      o, taken := Perform(WriteConfig(j.newConfig));
      if sound { InFlightSettles(disk, j, was, becomes); }
      RefusedIsStranded(disk);
      if !o.Done? { return; }
      o := InstallDatabase(j, imported);
      if !o.Done? { return; }
      ghost var moved := disk;
      o, taken := ClearJournal(Migration);
      if sound { InFlightSettles(disk, j, was, becomes); }
      if disk.journal.Whole? { RefusedIsStranded(moved); RefusedIsStranded(disk); }
    }

    /** The two ways the temporary becomes profiles.db. */
    method InstallDatabase(j: Journal, imported: Image) returns (o: Outcome)
      requires disk.journal == Whole(j) && JournalAccepted(j) && ConfigIsNew(disk, j)
      requires j.target == Expected(imported.revision, imported.origin, Some(imported.fileHash))
      requires disk.temp == Built(imported)
      requires if j.oldDatabase.Some? then disk.database.Database? && disk.wal != DirtyWal else disk.database.NoDatabase?
      modifies this`disk, this`faults, this`trace
      ensures o.Done? ==> disk == old(disk).(wal := disk.wal, shm := disk.shm, database := disk.database, temp := NoTemporary)
      ensures o.Done? ==> disk.database == if Orphaned(old(disk)) then UnreadableDatabase(Corrupt) else Database(imported)
      ensures o.Done? ==> trace == old(trace) + if j.oldDatabase.Some? then [RemoveWal, RemoveShm, ReplaceByTemp] else [LinkTemp, RemoveTemp]
      ensures Distinguishable(old(disk), j, imported) ==> SettlesEither(disk, j, old(disk).database, Database(imported))
      ensures Orphaned(old(disk)) ==> Stranded(disk)
      ensures old(faults) == [] ==> o.Done? && faults == []
    {
      hide SettlesEither, Stranded, Distinguishable, JournalAccepted;
      if j.oldDatabase.Some? {
        o := ReplaceDatabase(j, imported);
      } else {
        o := MoveDatabase(j, imported);
      }
    }

    /** remove_database_sidecars and replace_file. */
    method ReplaceDatabase(j: Journal, imported: Image) returns (o: Outcome)
      requires disk.journal == Whole(j) && JournalAccepted(j) && ConfigIsNew(disk, j)
      requires j.target == Expected(imported.revision, imported.origin, Some(imported.fileHash))
      requires disk.temp == Built(imported) && disk.database.Database? && disk.wal != DirtyWal
      modifies this`disk, this`faults, this`trace
      ensures o.Done? ==> disk == old(disk).(wal := NoWal, shm := false, database := Database(imported), temp := NoTemporary)
      ensures o.Done? ==> trace == old(trace) + [RemoveWal, RemoveShm, ReplaceByTemp]
      ensures Distinguishable(old(disk), j, imported) ==> SettlesEither(disk, j, old(disk).database, Database(imported))
      ensures old(faults) == [] ==> o.Done? && faults == []
    {
      hide Distinguishable, SettlesEither, JournalAccepted, ConfigIsNew;
      ghost var taken;
      o, taken := Perform(RemoveWal);
      if o.Done? { o, taken := Perform(RemoveShm); }
      if o.Done? { o, taken := Perform(ReplaceByTemp); }
      if Distinguishable(old(disk), j, imported) { ReplacementSettles(old(disk), disk, j, imported); }
    }

    lemma ReplacementSettles(before: Disk, d: Disk, j: Journal, imported: Image)
      requires before.journal == Whole(j) && JournalAccepted(j) && ConfigIsNew(before, j)
      requires j.target == Expected(imported.revision, imported.origin, Some(imported.fileHash))
      requires Distinguishable(before, j, imported) && before.database.Database?
      requires d == before.(wal := d.wal, shm := d.shm, temp := d.temp, database := d.database)
      requires d.database in {before.database, Database(imported)}
      ensures SettlesEither(d, j, before.database, Database(imported))
    {
      InFlightSettles(d, j, before.database, Database(imported));
    }

    /** move_file_no_replace: link, unlink, and the removal of the link when unlink fails. */
    method MoveFile(imported: Image) returns (o: Outcome)
      requires disk.temp == Built(imported) && disk.database.NoDatabase?
      modifies this`disk, this`faults, this`trace
      ensures disk == old(disk).(temp := disk.temp, database := disk.database)
      ensures disk.database in {NoDatabase, Installed(old(disk), imported).database}
      ensures o.Done? ==> disk == Installed(old(disk), imported).(temp := NoTemporary)
      ensures o.Done? ==> trace == old(trace) + [LinkTemp, RemoveTemp]
      ensures o.Failed? && !disk.temp.NoTemporary? && |old(faults)| <= 2 && (|old(faults)| == 2 ==> old(faults)[0].Succeeds?) ==>
        disk == old(disk)
      ensures |old(faults)| == 2 && old(faults)[0].FailsBefore? ==> (o.Crashed? <==> Answer(old(faults)[1]).Crashed?)
      ensures old(faults) == [] ==> o.Done? && faults == []
    {
      ghost var taken;
      o, taken := Perform(LinkTemp);
      if o.Done? { o, taken := Perform(RemoveTemp); }
      if o.Failed? && !disk.temp.NoTemporary? {
        var cleanup;
        cleanup, taken := Perform(RemoveDatabaseFile);
        if cleanup.Crashed? { o := Crashed; }
      }
    }

    /** The same under the journal. Beside a leftover sidecar it strands the journal, even
        when it succeeds. */
    method MoveDatabase(j: Journal, imported: Image) returns (o: Outcome)
      requires disk.journal == Whole(j) && JournalAccepted(j) && ConfigIsNew(disk, j)
      requires j.target == Expected(imported.revision, imported.origin, Some(imported.fileHash))
      requires disk.temp == Built(imported) && disk.database.NoDatabase? && j.oldDatabase.None?
      modifies this`disk, this`faults, this`trace
      ensures o.Done? ==> disk == Installed(old(disk), imported).(temp := NoTemporary)
      ensures o.Done? ==> trace == old(trace) + [LinkTemp, RemoveTemp]
      ensures o.Failed? && !disk.temp.NoTemporary? && |old(faults)| <= 2 && (|old(faults)| == 2 ==> old(faults)[0].Succeeds?) ==>
        disk == old(disk)
      ensures Distinguishable(old(disk), j, imported) ==> SettlesEither(disk, j, old(disk).database, Database(imported))
      ensures Orphaned(old(disk)) ==> Stranded(disk)
      ensures old(faults) == [] ==> o.Done? && faults == []
    {
      hide SettlesEither;
      ghost var was, becomes := disk.database, Database(imported);
      ghost var sound := Distinguishable(disk, j, imported);
      o := MoveFile(imported);
      if sound { InFlightSettles(disk, j, was, becomes); }
      RefusedIsStranded(disk);
    }

    /** Builds profiles.db.migrating and publishes the journal. A failure leaves the
        temporary exactly when open_or_create failed after its file had appeared, or when
        the later failure could not sweep it away. */
    method StageMigration(j: Journal, imported: Image) returns (o: Outcome, ghost taken: nat, ghost created: bool, ghost swept: bool)
      requires disk.journal.NoJournal? && disk.temp.NoTemporary?
      modifies this`disk, this`faults, this`trace
      ensures disk == old(disk).(temp := disk.temp, journal := disk.journal) && disk.journal in {NoJournal, Whole(j)}
      ensures o.Done? ==> disk.temp == Built(imported) && disk.journal == Whole(j)
      ensures o.Done? ==> trace == old(trace) + BuildSteps(imported) + [PublishJournal(j)]
      ensures taken <= 6 && (created ==> taken >= 2) && (swept ==> created)
      ensures disk.journal.Whole? <==> taken == 6
      ensures disk.temp == if swept then NoTemporary else TemporaryAfter(NoTemporary, imported, taken)
      ensures o.Failed? ==> (disk.temp.NoTemporary? <==> if created then swept else taken == 0)
      ensures disk.journal.NoJournal? ==> forall crashes :: TemporaryOutlives(disk, crashes) <==> !disk.temp.NoTemporary?
      ensures old(faults) == [] ==> o.Done? && faults == []
    {
      hide TemporaryOutlives;
      ghost var t;
      ghost var start := disk;
      swept := false;
      o, taken := Run(OpeningSteps());
      OpeningStates(start, imported, taken);
      created := o.Done?;
      if o.Done? {
        o, t := Run(FillingSteps(imported) + [PublishJournal(j)]);
        FillingStates(start.(temp := Unfinished(SchemaCommitted)), imported, j, t);
        taken := 2 + t;
        if o.Failed? {
          var cleanup;
          cleanup, t := Perform(RemoveTemp);
          swept := t == 1;
          if !cleanup.Done? { o := cleanup; }
        }
      }
      if disk.journal.NoJournal? { UnjournaledTemporaryStays(disk); }
    }

    /** The managed backup of the database about to be replaced. */
    method BackUpDatabase(source: string, image: Image, name: string) returns (o: Outcome)
      requires disk.database == Database(image)
      modifies this`disk, this`faults, this`trace
      ensures disk == old(disk).(wal := disk.wal, backups := disk.backups)
      ensures o.Done? ==> name in disk.backups && disk.backups[name] == Backup(source, image, Database(image)) && disk.wal != DirtyWal
      ensures disk.wal == old(disk).wal || disk.wal == CleanWal
      ensures old(faults) == [] && name in old(disk).backups ==>
        o == if old(disk).backups[name] == Backup(source, image, Database(image)) then Done else Failed(Constraint)
      ensures o.Done? && name in old(disk).backups ==> trace == old(trace) + [CheckpointDatabase]
      ensures o.Done? && name !in old(disk).backups ==> trace == old(trace) + PreparingSteps(source, image, name)
      ensures old(faults) == [] && name !in old(disk).backups ==> o.Done? && faults == []
    {
      ghost var taken;
      o, taken := Perform(CheckpointDatabase);
      if !o.Done? { return; }
      var backup := Backup(source, image, Database(image));
      if name in disk.backups {
        if disk.backups[name] != backup { o := Failed(Constraint); }
        return;
      }
      o, taken := Perform(WriteBackup(name, backup));
    }

    /** Equal file hashes mean equal databases: SHA-256 taken as injective. */
    predicate HashIdentifies(was: Database, imported: Image) {
      was.Database? && was.image.fileHash == imported.fileHash ==> was.image == imported
    }

    /** The read-only copy of the v2 document. */
    method WriteMigrationBackup(source: string, name: string) returns (o: Outcome)
      modifies this`disk, this`faults, this`trace
      ensures disk == old(disk).(copies := disk.copies)
      ensures o.Done? ==> name in disk.copies && disk.copies[name] == source
      ensures o.Done? ==> trace == old(trace) + if name in old(disk).copies then [] else [WriteCopy(name, source)]
      ensures name in old(disk).copies ==> disk == old(disk) && o == (if disk.copies[name] == source then Done else Failed(Constraint))
      ensures old(faults) == [] ==> faults == [] && (o.Done? <==> name in old(disk).copies ==> old(disk).copies[name] == source)
    {
      if name in disk.copies { return if disk.copies[name] == source then Done else Failed(Constraint); }
      ghost var taken;
      o, taken := Perform(WriteCopy(name, source));
    }

    /** migrate_v2. The caller supplies what the conversion of the v2 document yields:
        whether it is valid, the new config text, the imported database, the names of the
        two backup directories, and whether the migrated pair serializes to the v2 document
        again. base is the disk once recovery has finished. Beside a leftover sidecar it never
        succeeds, and may derail without any fault. */
    method MigrateV2(replaceExisting: bool, valid: bool, newConfig: string, imported: Image, copyName: string,
                     name: string, roundTrips: bool)
      returns (o: Outcome, outcome: MigrationOutcome, ghost base: Disk)
      modifies this
      ensures RecoveryPlan(old(disk)).Err? ==> !o.Done? && disk == old(disk)
      ensures RecoveryPlan(old(disk)).Ok? ==>
        || base == Recovered(old(disk))
        || (!o.Done? && disk == base && exists k :: 0 <= k <= |RecoveryPlan(old(disk)).value| && disk == After(old(disk), RecoveryPlan(old(disk)).value, k))
      ensures o.Done? && outcome == AlreadyMigrated ==> disk == base && Ready(base) && base.database.image.origin.Some?
      ensures o.Done? && outcome == Migrated ==>
        && base.config.Config? && schemaOf(base.config.bytes) == V2
        && (base.database.NoDatabase? || replaceExisting)
        && disk.journal.NoJournal? && disk.temp.NoTemporary? && Ready(disk) && disk.config == Config(newConfig)
        && base.temp.NoTemporary? && roundTrips && copyName in disk.copies && disk.copies[copyName] == base.config.bytes
        && (ReadDatabase(base).Ok? && HashIdentifies(base.database, imported) ==> disk.database == Database(imported))
        && !Orphaned(base)
      ensures !o.Done? && base.journal.NoJournal? && ReadDatabase(base).Ok? && HashIdentifies(base.database, imported) ==>
        || Settles(disk, base.config, base.database)
        || Settles(disk, Config(newConfig), Database(imported))
      ensures !o.Done? && base.journal.NoJournal? && Orphaned(base) ==>
        Settles(disk, base.config, NoDatabase) || Derailed(disk, newConfig)
      ensures o.Done? ==> loaded
      ensures old(faults) == [] && RecoveryPlan(old(disk)).Ok? ==>
        && base == Recovered(old(disk))
        && (!(base.config.Config? && schemaOf(base.config.bytes) == V2) ==> disk == base && o == NotMigratedAnswer(base))
        && (base.config.Config? && schemaOf(base.config.bytes) == V2 ==>
            && (!base.database.NoDatabase? && !replaceExisting ==> o == Failed(Constraint) && disk == base)
            && ((base.database.NoDatabase? || replaceExisting) && !valid ==> o == Failed(InvalidDocument) && disk == base)
            && (valid && MayMigrate(base, base.config.bytes, replaceExisting, copyName, name) ==>
                if !base.temp.NoTemporary? then o == Failed(RecoveryRequired)
                else
                  && outcome == Migrated && disk.journal.NoJournal? && disk.config == Config(newConfig)
                  && (Ready(disk) ==> o == if roundTrips then Done else Failed(Corrupt))
                  && (!Ready(disk) ==> o == Failed(LoadFailure(disk)))))
      ensures lastFailure == if o.Failed? then Some(o.failure) else if o.Done? then None else lastFailure
    {
      lastFailure, loaded, outcome := None, false, AlreadyMigrated;
      ghost var taken;
      o, taken := RecoverLocked();
      base := disk;
      if base.journal.NoJournal? { SettlesWhenCleared(base); }
      if !o.Done? { return; }
      if old(disk).journal.Whole? { RecoveredIsCleared(old(disk), old(disk).journal.journal); }
      assert After(old(disk), [], 0) == old(disk);
      o, outcome := MigrateRecovered(replaceExisting, valid, newConfig, imported, copyName, name, roundTrips);
      Report(o);
    }

    /** What migrate_v2 answers when there is no v2 document to migrate. */
    function NotMigratedAnswer(d: Disk): (o: Outcome)
      requires !(d.config.Config? && schemaOf(d.config.bytes) == V2)
      ensures d.config.NoConfig? ==> o == Failed(NotLoaded)
      ensures d.config.UnreadableConfig? ==> o == Failed(d.config.failure)
      ensures d.config.Config? && schemaOf(d.config.bytes) == NoSchema ==> o == Failed(InvalidDocument)
      ensures d.config.Config? && schemaOf(d.config.bytes) == OtherSchema ==> o == Failed(UnsupportedSchema)
      ensures o.Done? <==> Ready(d) && d.database.image.origin.Some?
      ensures Ready(d) && d.database.image.origin.None? ==> o == Failed(Constraint)
    {
      match d.config
      case NoConfig => Failed(NotLoaded)
      case UnreadableConfig(f) => Failed(f)
      case Config(bytes) =>
        match schemaOf(bytes)
        case NoSchema => Failed(InvalidDocument)
        case OtherSchema => Failed(UnsupportedSchema)
        case V3 =>
          if !Ready(d) then Failed(LoadFailure(d))
          else if d.database.image.origin.None? then Failed(Constraint)
          else Done
        case V2 => Done
    }

    /** migrate_v2 after recovery. */
    method MigrateRecovered(replaceExisting: bool, valid: bool, newConfig: string, imported: Image, copyName: string,
                            name: string, roundTrips: bool)
      returns (o: Outcome, outcome: MigrationOutcome)
      requires disk.journal.NoJournal?
      modifies this`disk, this`faults, this`trace, this`lastFailure, this`snapshot, this`loaded
      ensures o.Done? && outcome == AlreadyMigrated ==> disk == old(disk) && Ready(disk) && disk.database.image.origin.Some?
      ensures o.Done? && outcome == Migrated ==>
        && old(disk).config.Config? && schemaOf(old(disk).config.bytes) == V2
        && (old(disk).database.NoDatabase? || replaceExisting)
        && disk.journal.NoJournal? && disk.temp.NoTemporary? && Ready(disk) && disk.config == Config(newConfig)
        && old(disk).temp.NoTemporary? && roundTrips && copyName in disk.copies && disk.copies[copyName] == old(disk).config.bytes
        && (ReadDatabase(old(disk)).Ok? && HashIdentifies(old(disk).database, imported) ==> disk.database == Database(imported))
        && !Orphaned(old(disk))
      ensures !o.Done? && ReadDatabase(old(disk)).Ok? && HashIdentifies(old(disk).database, imported) ==>
        || Settles(disk, old(disk).config, old(disk).database)
        || Settles(disk, Config(newConfig), Database(imported))
      ensures !o.Done? && Orphaned(old(disk)) ==> Settles(disk, old(disk).config, NoDatabase) || Derailed(disk, newConfig)
      ensures o.Done? ==> loaded && lastFailure == old(lastFailure)
      ensures !(old(disk).config.Config? && schemaOf(old(disk).config.bytes) == V2) ==> disk == old(disk) && o == NotMigratedAnswer(disk)
      ensures old(disk).config.Config? && schemaOf(old(disk).config.bytes) == V2 ==>
        && (!old(disk).database.NoDatabase? && !replaceExisting ==> o == Failed(Constraint) && disk == old(disk))
        && ((old(disk).database.NoDatabase? || replaceExisting) && !valid ==> o == Failed(InvalidDocument) && disk == old(disk))
        && (old(faults) == [] && valid && MayMigrate(old(disk), old(disk).config.bytes, replaceExisting, copyName, name) ==>
            if !old(disk).temp.NoTemporary? then o == Failed(RecoveryRequired)
            else
              && outcome == Migrated && disk.journal.NoJournal? && disk.config == Config(newConfig)
              && (Ready(disk) ==> o == if roundTrips then Done else Failed(Corrupt))
              && (!Ready(disk) ==> o == Failed(LoadFailure(disk))))
    {
      hide Settles, Derailed;
      outcome := AlreadyMigrated;
      SettlesWhenCleared(disk);
      match disk.config {
        case NoConfig => o := Failed(NotLoaded); return;
        case UnreadableConfig(f) => o := Failed(f); return;
        case Config(source) =>
          match schemaOf(source) {
            case NoSchema => o := Failed(InvalidDocument); return;
            case OtherSchema => o := Failed(UnsupportedSchema); return;
            case V3 =>
              o := LoadReadyLocked();
              if o.Done? && snapshot.value.origin.None? { o := Failed(Constraint); }
              return;
            case V2 =>
          }
          o := MigrateDocument(source, replaceExisting, valid, newConfig, imported, copyName, name);
      }
      if !o.Done? { return; }
      outcome := Migrated;
      SettlesWhenCleared(disk);
      FinishedOrDerailed(disk, newConfig);
      o := LoadReadyLocked();
      if o.Done? && !roundTrips { o := Failed(Corrupt); }
    }

    lemma FinishedOrDerailed(d: Disk, newConfig: string)
      requires d.journal.NoJournal? && d.config == Config(newConfig)
      ensures d.database == UnreadableDatabase(Corrupt) ==> Derailed(d, newConfig)
    {}

    /** Nothing but a leftover temporary keeps the migration from going ahead. */
    predicate MayMigrate(d: Disk, source: string, replaceExisting: bool, copyName: string, name: string) {
      && (d.database.NoDatabase? || (d.database.Database? && replaceExisting && name !in d.backups))
      && (copyName in d.copies ==> d.copies[copyName] == source)
    }

    /** The steps of a migration up to the temporary. */
    function PreparationSteps(d: Disk, source: string, copyName: string, name: string): seq<Step> {
      (if copyName in d.copies then [] else [WriteCopy(copyName, source)])
      + (if !d.database.Database? then []
         else if name in d.backups then [CheckpointDatabase]
         else PreparingSteps(source, d.database.image, name))
    }

    /** The checks and backups of migrate_v2, and the journal it is going to publish. */
    method PrepareMigration(source: string, replaceExisting: bool, valid: bool, newConfig: string, imported: Image,
                            copyName: string, name: string) returns (o: Outcome, j: Journal)
      requires disk.journal.NoJournal? && disk.config == Config(source)
      modifies this`disk, this`faults, this`trace
      ensures disk == old(disk).(wal := disk.wal, backups := disk.backups, copies := disk.copies)
      ensures disk.wal == old(disk).wal || (old(disk).database.Database? && disk.wal == CleanWal)
      ensures o.Done? ==>
        && old(disk).temp.NoTemporary? && copyName in disk.copies && disk.copies[copyName] == source
        && if old(disk).database.NoDatabase? then j == MigrationJournal(source, newConfig, imported)
           else
             && old(disk).database.Database? && replaceExisting && disk.wal != DirtyWal
             && j == ReplacementJournal(source, newConfig, old(disk).database.image, imported, name)
      ensures o.Done? ==> trace == old(trace) + PreparationSteps(old(disk), source, copyName, name)
      ensures !old(disk).database.NoDatabase? && !replaceExisting ==> o == Failed(Constraint) && disk == old(disk)
      ensures (old(disk).database.NoDatabase? || replaceExisting) && !valid ==> o == Failed(InvalidDocument) && disk == old(disk)
      ensures old(faults) == [] && valid && MayMigrate(old(disk), source, replaceExisting, copyName, name) ==>
        o == (if old(disk).temp.NoTemporary? then Done else Failed(RecoveryRequired)) && faults == []
    {
      j := MigrationJournal(source, newConfig, imported);
      var replacing := !disk.database.NoDatabase?;
      if replacing && !replaceExisting { return Failed(Constraint), j; }
      if !valid { return Failed(InvalidDocument), j; }
      o := WriteMigrationBackup(source, copyName);
      if !o.Done? { return; }
      if replacing {
        var read := ReadDatabase(disk);
        if read.Err? { return Failed(read.error), j; }
        var image := read.value.value;
        o := BackUpDatabase(source, image, name);
        if !o.Done? { return; }
        j := ReplacementJournal(source, newConfig, image, imported, name);
      }
      if !disk.temp.NoTemporary? { return Failed(RecoveryRequired), j; }
    }

    /** migrate_v2 on a v2 document. Without faults it goes through exactly when no
        leftover temporary and no foreign backup is in the way. */
    method MigrateDocument(source: string, replaceExisting: bool, valid: bool, newConfig: string, imported: Image,
                           copyName: string, name: string) returns (o: Outcome)
      requires disk.journal.NoJournal? && disk.config == Config(source)
      modifies this`disk, this`faults, this`trace, this`lastFailure
      ensures o.Done? ==>
        && (old(disk).database.NoDatabase? || replaceExisting)
        && disk.journal.NoJournal? && disk.temp.NoTemporary? && disk.config == Config(newConfig)
        && copyName in disk.copies && disk.copies[copyName] == source
      ensures old(faults) == [] && valid && MayMigrate(old(disk), source, replaceExisting, copyName, name) ==>
        (o.Done? <==> old(disk).temp.NoTemporary?)
      ensures o.Done? && ReadDatabase(old(disk)).Ok? && HashIdentifies(old(disk).database, imported) ==>
        disk.database == Database(imported)
      ensures var moving := MovingSteps(old(disk).database, source, newConfig, imported, name);
        o.Done? ==> trace == old(trace) + PreparationSteps(old(disk), source, copyName, name) + BuildSteps(imported) + moving
      ensures !old(disk).temp.NoTemporary? ==> !o.Done? && disk.config == old(disk).config && disk.database == old(disk).database
      ensures !o.Done? && ReadDatabase(old(disk)).Ok? && HashIdentifies(old(disk).database, imported) ==>
        || Settles(disk, Config(source), old(disk).database)
        || Settles(disk, Config(newConfig), Database(imported))
      ensures !old(disk).database.NoDatabase? && !replaceExisting ==> o == Failed(Constraint) && disk == old(disk)
      ensures (old(disk).database.NoDatabase? || replaceExisting) && !valid ==> o == Failed(InvalidDocument) && disk == old(disk)
      ensures old(faults) == [] && valid && MayMigrate(old(disk), source, replaceExisting, copyName, name) ==>
        (o == Failed(RecoveryRequired) <==> !old(disk).temp.NoTemporary?)
      ensures o.Done? ==> lastFailure == old(lastFailure)
      ensures o.Done? && Orphaned(old(disk)) ==> disk.database == UnreadableDatabase(Corrupt)
      ensures !o.Done? && Orphaned(old(disk)) ==> Settles(disk, Config(source), NoDatabase) || Derailed(disk, newConfig)
    {
      var j;
      o, j := PrepareMigration(source, replaceExisting, valid, newConfig, imported, copyName, name);
      SettlesWhenCleared(disk);
      if !o.Done? { return; }
      o := ExecuteMigration(j, imported);
    }

    /** From the temporary to the end of migrate_v2's catch block. */
    method ExecuteMigration(j: Journal, imported: Image) returns (o: Outcome)
      requires disk.journal.NoJournal? && disk.temp.NoTemporary? && disk.config.Config?
      requires j.kind == Migration && JournalAccepted(j) && OldConfig(j) == disk.config
      requires j.target == Expected(imported.revision, imported.origin, Some(imported.fileHash))
      requires if j.oldDatabase.Some? then disk.database.Database? && disk.wal != DirtyWal else disk.database.NoDatabase?
      modifies this`disk, this`faults, this`trace, this`lastFailure
      ensures o.Done? ==>
        disk.journal.NoJournal? && disk.temp.NoTemporary? && disk.config == Config(j.newConfig) && disk.copies == old(disk).copies
      ensures o.Done? ==> trace == old(trace) + BuildSteps(imported) + [PublishJournal(j)] + InstallingSteps(j)
      ensures o.Done? && Distinguishable(old(disk), j, imported) ==> disk.database == Database(imported)
      ensures !o.Done? && Distinguishable(old(disk), j, imported) ==> SettlesEither(disk, j, old(disk).database, Database(imported))
      ensures o.Done? && Orphaned(old(disk)) ==> disk.database == UnreadableDatabase(Corrupt)
      ensures !o.Done? && Orphaned(old(disk)) ==> Settles(disk, OldConfig(j), NoDatabase) || Derailed(disk, j.newConfig)
      ensures o.Failed? && o.failure != RecoveryRequired ==> disk.journal.NoJournal? || SamePair(disk, old(disk))
      ensures old(faults) == [] ==> o.Done?
      ensures o.Done? ==> lastFailure == old(lastFailure)
    {
      hide SettlesEither;
      ghost var was, becomes := disk.database, Database(imported);
      ghost var sound := Distinguishable(disk, j, imported);
      ghost var taken, created, swept;
      o, taken, created, swept := StageMigration(j, imported);
      if !o.Done? {
        if sound { InFlightSettles(disk, j, was, becomes); }
        if disk.journal.Whole? { RefusedIsStranded(disk); } else { SettlesWhenCleared(disk); }
        return;
      }
      o := MigratePublished(j, imported);
      if !o.Done? {
        o := RecoverAfterFailure(o, sound, j, was, becomes);
      }
    }
  }
}
