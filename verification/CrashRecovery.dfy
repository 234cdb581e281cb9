/** Recovery as a decision followed by durable steps, and the transactions it has to
    undo or finish. Crashes are modelled as stopping after any prefix of the steps. */
module CrashRecovery {
  import opened Wrappers
  import opened DurableStore

  /** read_journal rejects a backup reference outside a migration of an existing database. */
  predicate JournalAccepted(j: Journal) {
    j.backup.Some? ==> j.kind == Migration && j.oldDatabase.Some? && j.oldDatabase.value.fileHash.Some?
  }

  /** recoverable_replacement_database_failure. */
  predicate RestorableFailure(f: Failure) {
    f in {InvalidDocument, Corrupt, UnsupportedSchema, RecoveryRequired}
  }

  /** restore_database_replacement_backup accepts the backup the journal names. */
  predicate BackupUsable(d: Disk, j: Journal) {
    && j.kind == Migration && j.oldConfig.Some?
    && j.oldDatabase.Some? && j.oldDatabase.value.fileHash.Some?
    && j.backup.Some? && j.backup.value in d.backups
    && var b := d.backups[j.backup.value];
    && b.sourceConfig == j.oldConfig.value
    && b.recorded.revision == j.oldDatabase.value.revision
    && b.recorded.origin == j.oldDatabase.value.origin
    && Some(b.recorded.fileHash) == j.oldDatabase.value.fileHash
    && b.file == Database(b.recorded)
  }

  /** The backup the journal names can be used exactly when it was made of the old pair of
      this very migration, and its file still is what its manifest records. */
  lemma BackupUsableIff(d: Disk, j: Journal)
    ensures BackupUsable(d, j) <==>
      && j.backup.Some? && j.backup.value in d.backups && j.oldConfig.Some? && j.kind == Migration
      && var b := d.backups[j.backup.value];
      && b == Backup(j.oldConfig.value, b.recorded, Database(b.recorded))
      && j.oldDatabase == Some(Expected(b.recorded.revision, b.recorded.origin, Some(b.recorded.fileHash)))
  {}

  function RestoreConfigSteps(current: Config, previous: Option<string>): seq<Step> {
    match previous
    case Some(bytes) => [WriteConfig(bytes)]
    case None => if current.NoConfig? then [] else [RemoveConfig]
  }

  function ClearSteps(kind: Kind): seq<Step> {
    (if kind == Migration then [RemoveTemp] else []) + [TearJournal, DropJournal]
  }

  function RestoreSteps(d: Disk, j: Journal): (steps: seq<Step>)
    requires BackupUsable(d, j)
    ensures |steps| == 4
  {
    [RemoveWal, RemoveShm, InstallBackup(d.backups[j.backup.value].recorded)]
    + RestoreConfigSteps(d.config, j.oldConfig)
  }

  function RestorePlan(d: Disk, j: Journal): Result<seq<Step>, Failure> {
    if BackupUsable(d, j) then Ok(RestoreSteps(d, j) + ClearSteps(j.kind)) else Err(RecoveryRequired)
  }

  function JournalPlan(d: Disk, j: Journal): Result<seq<Step>, Failure> {
    match ReadDatabase(d)
    case Err(f) => if j.backup.Some? && RestorableFailure(f) then RestorePlan(d, j) else Err(f)
    case Ok(actual) =>
      if ConfigIsOld(d, j) && IsOldImage(actual, j) then Ok(ClearSteps(j.kind))
      else if ConfigIsNew(d, j) && IsOldImage(actual, j) then
        Ok(RestoreConfigSteps(d.config, j.oldConfig) + ClearSteps(j.kind))
      else if ConfigIsOld(d, j) && IsTargetImage(actual, j) then
        Ok([WriteConfig(j.newConfig)] + ClearSteps(j.kind))
      else if ConfigIsNew(d, j) && IsTargetImage(actual, j) then Ok(ClearSteps(j.kind))
      else if j.backup.Some? then RestorePlan(d, j)
      else Err(RecoveryRequired)
  }

  /** recover_locked: the durable steps it is about to take, or the failure it reports
      without having touched anything. */
  function RecoveryPlan(d: Disk): Result<seq<Step>, Failure> {
    match d.journal
    case NoJournal => Ok([])
    case Torn => Err(Io)
    case Whole(j) =>
      if !JournalAccepted(j) then Err(RecoveryRequired)
      else if d.config.UnreadableConfig? then Err(d.config.failure)
      else JournalPlan(d, j)
  }

  /** The disk after an uninterrupted recovery; a refused recovery changes nothing. */
  function Recovered(d: Disk): Disk {
    match RecoveryPlan(d)
    case Ok(plan) => After(d, plan, |plan|)
    case Err(_) => d
  }

  /** Restarting after each crash: the i-th recovery stops after crashes[i] steps. */
  function Interrupted(d: Disk, crashes: seq<nat>): Disk
    decreases |crashes|
  {
    if crashes == [] then d
    else match RecoveryPlan(d)
      case Err(_) => Interrupted(d, crashes[1..])
      case Ok(plan) =>
        var k := if crashes[0] <= |plan| then crashes[0] else |plan|;
        Interrupted(After(d, plan, k), crashes[1..])
  }

  predicate SamePair(a: Disk, b: Disk) { a.config == b.config && a.database == b.database }

  /** The pair that recovery is meant to end in: both stores old, or both new. */
  predicate PairMatches(d: Disk, j: Journal) {
    && ReadDatabase(d).Ok?
    && ((ConfigIsOld(d, j) && IsOldImage(ReadDatabase(d).value, j))
        || (ConfigIsNew(d, j) && IsTargetImage(ReadDatabase(d).value, j)))
  }

  lemma ClearEffect(d: Disk, kind: Kind, k: nat)
    requires k <= |ClearSteps(kind)|
    ensures var m := After(d, ClearSteps(kind), k);
      && SamePair(m, d) && m.wal == d.wal && m.shm == d.shm && m.backups == d.backups && m.copies == d.copies
      && (k + 2 <= |ClearSteps(kind)| ==> m.journal == d.journal)
      && (k + 1 == |ClearSteps(kind)| ==> m.journal == Torn)
      && (k == |ClearSteps(kind)| ==> m.journal == NoJournal)
      && m.temp == if kind == Migration && k > 0 then NoTemporary else d.temp
  {
    var s := ClearSteps(kind);
    if k > 0 { ClearEffect(d, kind, k - 1); }
  }

  /** What recovery does before it starts to remove the journal. */
  function Repair(d: Disk, j: Journal): (r: seq<Step>)
    requires JournalPlan(d, j).Ok?
    ensures JournalPlan(d, j) == Ok(r + ClearSteps(j.kind))
  {
    assert [] + ClearSteps(j.kind) == ClearSteps(j.kind);
    match ReadDatabase(d)
    case Err(_) => RestoreSteps(d, j)
    case Ok(actual) =>
      if ConfigIsOld(d, j) && IsOldImage(actual, j) then []
      else if ConfigIsNew(d, j) && IsOldImage(actual, j) then RestoreConfigSteps(d.config, j.oldConfig)
      else if ConfigIsOld(d, j) && IsTargetImage(actual, j) then [WriteConfig(j.newConfig)]
      else if ConfigIsNew(d, j) && IsTargetImage(actual, j) then []
      else RestoreSteps(d, j)
  }

  lemma RestorePrefix(d: Disk, j: Journal, k: nat)
    requires BackupUsable(d, j) && k <= 4
    ensures var m := After(d, RestoreSteps(d, j), k);
      var image := d.backups[j.backup.value].recorded;
      m == match k
           case 0 => d
           case 1 => Apply(RemoveWal, d)
           case 2 => Apply(RemoveWal, d).(shm := false)
           case 3 => d.(wal := NoWal, shm := false, database := Database(image))
           case _ => d.(wal := NoWal, shm := false, database := Database(image),
                        config := Config(j.oldConfig.value))
  {
    var steps := RestoreSteps(d, j);
    if k > 0 { RestorePrefix(d, j, k - 1); }
  }

  /** The disk once everything before the journal removal is done. */
  function Repaired(d: Disk, j: Journal): Disk
    requires JournalPlan(d, j).Ok?
  {
    After(d, Repair(d, j), |Repair(d, j)|)
  }

  /** Neither store combination is one the journal knows, or the database is unreadable. */
  predicate NeedsBackup(d: Disk, j: Journal) {
    match ReadDatabase(d)
    case Err(f) => RestorableFailure(f)
    case Ok(actual) =>
      !((ConfigIsOld(d, j) || ConfigIsNew(d, j)) && (IsOldImage(actual, j) || IsTargetImage(actual, j)))
  }

  lemma RestoreIsRepeatable(d: Disk, j: Journal, k: nat)
    requires BackupUsable(d, j) && NeedsBackup(d, j) && k <= 4
    ensures JournalPlan(d, j).Ok? && Repair(d, j) == RestoreSteps(d, j)
    ensures var m := After(d, RestoreSteps(d, j), k);
      JournalPlan(m, j).Ok? && Repaired(m, j) == Repaired(d, j)
    ensures PairMatches(Repaired(d, j), j)
  {
    RestorePrefix(d, j, k);
    RestorePrefix(d, j, 4);
    var m := After(d, RestoreSteps(d, j), k);
    assert BackupUsable(m, j);
    RestorePrefix(m, j, 4);
    hide RestorableFailure, ClearSteps;
    if k < 3 || (k == 3 && !ConfigIsOld(d, j) && !ConfigIsNew(d, j)) {
      assert NeedsBackup(m, j);
    } else if k == 3 && ConfigIsNew(d, j) && !ConfigIsOld(d, j) {
      assert After(m, Repair(m, j), 1) == Apply(WriteConfig(j.oldConfig.value), m);
    } else {
      assert After(m, Repair(m, j), 0) == m;
    }
  }

  lemma KnownPairIsRepeatable(d: Disk, j: Journal, k: nat)
    requires d.journal == Whole(j) && !d.config.UnreadableConfig?
    requires !NeedsBackup(d, j) && JournalPlan(d, j).Ok? && JournalAccepted(j) && k <= |Repair(d, j)|
    ensures PairMatches(Repaired(d, j), j)
    ensures var r := Repaired(d, j);
      && JournalPlan(r, j).Ok?
      && (Repair(r, j) == [] || (ConfigIsNew(r, j) && Repair(r, j) == [WriteConfig(j.newConfig)]))
    ensures var m := After(d, Repair(d, j), k);
      && m.journal == d.journal && !m.config.UnreadableConfig?
      && JournalPlan(m, j).Ok? && Repaired(m, j) == Repaired(d, j)
  {
    assert |Repair(d, j)| <= 1;
    assert After(d, Repair(d, j), 0) == d;
  }

  lemma BackupIsRepeatable(d: Disk, j: Journal, k: nat)
    requires d.journal == Whole(j) && !d.config.UnreadableConfig?
    requires NeedsBackup(d, j) && JournalPlan(d, j).Ok? && JournalAccepted(j) && k <= |Repair(d, j)|
    ensures PairMatches(Repaired(d, j), j)
    ensures var r := Repaired(d, j);
      && JournalPlan(r, j).Ok?
      && (Repair(r, j) == [] || (ConfigIsNew(r, j) && Repair(r, j) == [WriteConfig(j.newConfig)]))
    ensures var m := After(d, Repair(d, j), k);
      && m.journal == d.journal && !m.config.UnreadableConfig?
      && JournalPlan(m, j).Ok? && Repaired(m, j) == Repaired(d, j)
  {
    assert BackupUsable(d, j);
    RestoreIsRepeatable(d, j, k);
    RestorePrefix(d, j, k);
    RestorePrefix(d, j, 4);
    RestoreIsRepeatable(d, j, 4);
  }

  lemma RepairIsRepeatable(d: Disk, j: Journal, k: nat)
    requires d.journal == Whole(j) && !d.config.UnreadableConfig?
    requires JournalPlan(d, j).Ok? && JournalAccepted(j) && k <= |Repair(d, j)|
    ensures PairMatches(Repaired(d, j), j)
    ensures var r := Repaired(d, j);
      && JournalPlan(r, j).Ok?
      && (Repair(r, j) == [] || (ConfigIsNew(r, j) && Repair(r, j) == [WriteConfig(j.newConfig)]))
    ensures var m := After(d, Repair(d, j), k);
      && m.journal == d.journal && !m.config.UnreadableConfig?
      && JournalPlan(m, j).Ok? && Repaired(m, j) == Repaired(d, j)
  {
    hide Repair, JournalPlan, RestorableFailure;
    if NeedsBackup(d, j) { BackupIsRepeatable(d, j, k); } else { KnownPairIsRepeatable(d, j, k); }
  }

  /** An unreadable database is replaced by the backup exactly when the backup can be used
      and the failure says that the file itself is at fault. Any other failure, a locked or
      an inaccessible file above all, is reported, and nothing is touched. */
  lemma UnreadableDatabaseIsRestoredIff(d: Disk, j: Journal, f: Failure)
    requires d.journal == Whole(j) && JournalAccepted(j) && !d.config.UnreadableConfig?
    requires d.database == UnreadableDatabase(f)
    ensures RecoveryPlan(d).Ok? <==>
      BackupUsable(d, j) && (f == InvalidDocument || f == Corrupt || f == UnsupportedSchema || f == RecoveryRequired)
    ensures f == Busy || f == Io || f == Constraint || f == Stale || f == NotLoaded || f == MigrationRequired ==>
      RecoveryPlan(d) == Err(f) && Recovered(d) == d
    ensures j.backup.None? ==> RecoveryPlan(d) == Err(f) && Recovered(d) == d
    ensures RecoveryPlan(d).Ok? ==>
      && Recovered(d).database == Database(d.backups[j.backup.value].recorded)
      && Recovered(d).config == Config(j.oldConfig.value)
      && Recovered(d).wal == NoWal && !Recovered(d).shm && Recovered(d).journal.NoJournal? && Recovered(d).temp.NoTemporary?
  {
    if RecoveryPlan(d).Ok? {
      var steps := RestoreSteps(d, j);
      RestorePrefix(d, j, 4);
      AfterConcat(d, steps, ClearSteps(j.kind), |ClearSteps(j.kind)|);
      ClearEffect(After(d, steps, 4), j.kind, |ClearSteps(j.kind)|);
    }
  }

  lemma PairIsOfStores(a: Disk, b: Disk, j: Journal)
    requires SamePair(a, b) && a.wal == b.wal && a.shm == b.shm
    ensures PairMatches(a, j) <==> PairMatches(b, j)
  {}

  /** The journal directory starts to disappear only when both stores agree. */
  lemma ClearStartsAtConsistentPair(d: Disk, k: nat)
    requires d.journal.Whole? && RecoveryPlan(d).Ok? && k <= |RecoveryPlan(d).value|
    ensures var m := After(d, RecoveryPlan(d).value, k);
      m.journal != d.journal ==> PairMatches(m, d.journal.journal) && SamePair(m, Recovered(d))
  {
    hide After, JournalPlan, Repair, ConfigIsOld, ConfigIsNew, IsOldImage, IsTargetImage;
    var j := d.journal.journal;
    var repair, clear := Repair(d, j), ClearSteps(j.kind);
    AfterConcat(d, repair, clear, |clear|);
    ClearEffect(Repaired(d, j), j.kind, |clear|);
    RepairIsRepeatable(d, j, |repair|);
    if k <= |repair| {
      AfterPrefix(d, repair, clear, k);
      RepairIsRepeatable(d, j, k);
    } else {
      AfterConcat(d, repair, clear, k - |repair|);
      ClearEffect(Repaired(d, j), j.kind, k - |repair|);
      PairIsOfStores(Repaired(d, j), After(d, RecoveryPlan(d).value, k), j);
    }
  }

  lemma RecoveredIsCleared(d: Disk, j: Journal)
    requires d.journal == Whole(j) && RecoveryPlan(d).Ok?
    ensures var r := Repaired(d, j);
      Recovered(d) == r.(journal := NoJournal, temp := if j.kind == Migration then NoTemporary else r.temp)
  {
    var repair, clear := Repair(d, j), ClearSteps(j.kind);
    AfterConcat(d, repair, clear, |clear|);
    ClearEffect(Repaired(d, j), j.kind, |clear|);
  }

  function PreviousConfig(previous: Option<string>): Config {
    match previous case Some(bytes) => Config(bytes) case None => NoConfig
  }

  function OldConfig(j: Journal): Config { PreviousConfig(j.oldConfig) }

  /** When both stores hold something the journal knows, recovery keeps the database and
      makes config.json follow it. */
  lemma DatabaseDecides(d: Disk, j: Journal)
    requires d.journal == Whole(j) && JournalAccepted(j)
    requires ReadDatabase(d).Ok? && !NeedsBackup(d, j)
    ensures RecoveryPlan(d).Ok?
    ensures Recovered(d) == d.(journal := NoJournal,
      temp := if j.kind == Migration then NoTemporary else d.temp,
      config := if IsOldImage(ReadDatabase(d).value, j) then OldConfig(j) else Config(j.newConfig))
  {
    RecoveredIsCleared(d, j);
    assert After(d, Repair(d, j), 0) == d;
  }

  /** Once nothing is left to repair, a crash while clearing is repeated or final. */
  lemma ClearIsRepeatable(r: Disk, j: Journal, k: nat)
    requires r.journal == Whole(j) && JournalAccepted(j) && !r.config.UnreadableConfig?
    requires JournalPlan(r, j).Ok? && Repaired(r, j) == r
    requires Repair(r, j) == [] || (ConfigIsNew(r, j) && Repair(r, j) == [WriteConfig(j.newConfig)])
    requires k <= |ClearSteps(j.kind)|
    ensures var m := After(r, ClearSteps(j.kind), k);
      if m.journal.Torn? then k + 1 == |ClearSteps(j.kind)| && m == Recovered(r).(journal := Torn)
      else RecoveryPlan(m).Ok? && Recovered(m) == Recovered(r)
  {
    ClearEffect(r, j.kind, k);
    RecoveredIsCleared(r, j);
    var m := After(r, ClearSteps(j.kind), k);
    if m.journal.Whole? {
      assert m == r.(temp := m.temp) && Repair(m, j) == Repair(r, j);
      assert After(m, Repair(m, j), 0) == m;
      RecoveredIsCleared(m, j);
    }
  }

  /** Re-entrancy, from any disk whatever: a recovery that crashes after k of its steps
      and is started again ends on the very disk the first one was heading for. Only a
      crash between the two halves of the journal removal stops it, and then both
      stores already hold their final contents. */
  lemma RecoveryReentrant(d: Disk, k: nat)
    requires RecoveryPlan(d).Ok? && k <= |RecoveryPlan(d).value|
    ensures var m := After(d, RecoveryPlan(d).value, k);
      if m.journal.Torn? then k + 1 == |RecoveryPlan(d).value| && m == Recovered(d).(journal := Torn)
      else RecoveryPlan(m).Ok? && Recovered(m) == Recovered(d)
  {
    hide JournalPlan, Repair, PairMatches, ConfigIsNew, Recovered;
    if d.journal.Whole? {
      var j := d.journal.journal;
      var repair, clear := Repair(d, j), ClearSteps(j.kind);
      RepairIsRepeatable(d, j, |repair|);
      RecoveredIsCleared(d, j);
      if k <= |repair| {
        AfterPrefix(d, repair, clear, k);
        RepairIsRepeatable(d, j, k);
        RecoveredIsCleared(After(d, repair, k), j);
      } else {
        AfterConcat(d, repair, clear, k - |repair|);
        RecoveredIsCleared(Repaired(d, j), j);
        ClearIsRepeatable(Repaired(d, j), j, k - |repair|);
        ClearEffect(Repaired(d, j), j.kind, k - |repair|);
        assert After(d, RecoveryPlan(d).value, k) == After(Repaired(d, j), clear, k - |repair|);
      }
    }
  }

  /** Any number of crashes during recovery. */
  lemma {:induction false} RecoveryConverges(d: Disk, crashes: seq<nat>)
    requires RecoveryPlan(d).Ok?
    ensures var m := Interrupted(d, crashes);
      if m.journal.Torn? then m == Recovered(d).(journal := Torn)
      else RecoveryPlan(m).Ok? && Recovered(m) == Recovered(d)
    decreases |crashes|
  {
    if crashes != [] {
      var plan := RecoveryPlan(d).value;
      var k := if crashes[0] <= |plan| then crashes[0] else |plan|;
      RecoveryReentrant(d, k);
      var m := After(d, plan, k);
      if m.journal.Torn? { RefusalIsStable(m, crashes[1..]); } else { RecoveryConverges(m, crashes[1..]); }
    }
  }

  /** Refusing is stable: nothing changes until someone repairs the disk by hand. */
  lemma {:induction false} RefusalIsStable(d: Disk, crashes: seq<nat>)
    requires RecoveryPlan(d).Err?
    ensures Interrupted(d, crashes) == d && Recovered(d) == d
    decreases |crashes|
  {
    if crashes != [] { RefusalIsStable(d, crashes[1..]); }
  }
}
