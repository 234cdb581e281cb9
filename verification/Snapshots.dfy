/** The GUI state that travels over IPC: complete snapshots, deltas between two of them, and
    the client's copy (protocol_types.hpp, gui_snapshot_builder.cpp, session.cpp). Each
    part of the window is represented by its serialized text. */
module Snapshots {
  import opened Wrappers

  datatype Snapshot = Snapshot(
    revision: nat,
    application: string,
    profiles: seq<string>,
    applicationFields: seq<string>,
    selection: (Option<string>, Option<int>),
    profileEditor: Option<string>,
    rulesEditor: Option<string>,
    draft: string,
    lastCommand: Option<string>,
    storage: string,
    lightweightMode: bool,
    commandPending: bool)
  {
    predicate SameContent(other: Snapshot) {
      this.(revision := other.revision) == other
    }
  }

  datatype StateDelta = StateDelta(
    fromRevision: nat,
    revision: nat,
    application: Option<string>,
    profiles: Option<seq<string>>,
    applicationFields: Option<seq<string>>,
    selection: Option<(Option<string>, Option<int>)>,
    profileEditorChanged: bool,
    profileEditor: Option<string>,
    rulesEditorChanged: bool,
    rulesEditor: Option<string>,
    draft: Option<string>,
    lastCommandChanged: bool,
    lastCommand: Option<string>,
    storage: Option<string>,
    lightweightMode: Option<bool>,
    commandPending: Option<bool>)
  {
    predicate Empty() {
      && application.None? && profiles.None? && applicationFields.None? && selection.None?
      && !profileEditorChanged && !rulesEditorChanged && draft.None?
      && !lastCommandChanged && storage.None? && lightweightMode.None? && commandPending.None?
    }
  }

  function Changed<T(==)>(was: T, now: T): Option<T> {
    if was == now then None else Some(now)
  }

  function Pick<T>(change: Option<T>, was: T): T {
    if change.Some? then change.value else was
  }

  /** build_gui_state_delta. */
  function Diff(was: Snapshot, now: Snapshot): StateDelta {
    StateDelta(
      was.revision, now.revision,
      Changed(was.application, now.application),
      Changed(was.profiles, now.profiles),
      Changed(was.applicationFields, now.applicationFields),
      Changed(was.selection, now.selection),
      was.profileEditor != now.profileEditor,
      if was.profileEditor != now.profileEditor then now.profileEditor else None,
      was.rulesEditor != now.rulesEditor,
      if was.rulesEditor != now.rulesEditor then now.rulesEditor else None,
      Changed(was.draft, now.draft),
      was.lastCommand != now.lastCommand,
      if was.lastCommand != now.lastCommand then now.lastCommand else None,
      Changed(was.storage, now.storage),
      Changed(was.lightweightMode, now.lightweightMode),
      Changed(was.commandPending, now.commandPending))
  }

  /** The update at the end of apply_delta. */
  function Patched(s: Snapshot, d: StateDelta): Snapshot {
    Snapshot(
      d.revision,
      Pick(d.application, s.application),
      Pick(d.profiles, s.profiles),
      Pick(d.applicationFields, s.applicationFields),
      Pick(d.selection, s.selection),
      if d.profileEditorChanged then d.profileEditor else s.profileEditor,
      if d.rulesEditorChanged then d.rulesEditor else s.rulesEditor,
      Pick(d.draft, s.draft),
      if d.lastCommandChanged then d.lastCommand else s.lastCommand,
      Pick(d.storage, s.storage),
      Pick(d.lightweightMode, s.lightweightMode),
      Pick(d.commandPending, s.commandPending))
  }

  /** A delta carries exactly what changed: it rebuilds the newer state from the older, and
      is empty when only the revision moved. An editor that closes is carried by its flag. */
  lemma DiffRebuilds(was: Snapshot, now: Snapshot)
    ensures Patched(was, Diff(was, now)) == now
    ensures Diff(was, now).Empty() <==> was.SameContent(now)
  {}

  /** Every part of the window is in the delta exactly when it changed. */
  lemma DiffCarriesExactlyChanges(was: Snapshot, now: Snapshot)
    ensures var d := Diff(was, now);
      && d.fromRevision == was.revision && d.revision == now.revision
      && d.application == (if was.application == now.application then None else Some(now.application))
      && d.profiles == (if was.profiles == now.profiles then None else Some(now.profiles))
      && d.applicationFields == (if was.applicationFields == now.applicationFields then None else Some(now.applicationFields))
      && d.selection == (if was.selection == now.selection then None else Some(now.selection))
      && d.profileEditorChanged == (was.profileEditor != now.profileEditor)
      && d.profileEditor == (if was.profileEditor == now.profileEditor then None else now.profileEditor)
      && d.rulesEditorChanged == (was.rulesEditor != now.rulesEditor)
      && d.rulesEditor == (if was.rulesEditor == now.rulesEditor then None else now.rulesEditor)
      && d.draft == (if was.draft == now.draft then None else Some(now.draft))
      && d.lastCommandChanged == (was.lastCommand != now.lastCommand)
      && d.lastCommand == (if was.lastCommand == now.lastCommand then None else now.lastCommand)
      && d.storage == (if was.storage == now.storage then None else Some(now.storage))
      && d.lightweightMode == (if was.lightweightMode == now.lightweightMode then None else Some(now.lightweightMode))
      && d.commandPending == (if was.commandPending == now.commandPending then None else Some(now.commandPending))
  {}

  // The client's copy.

  datatype Replica = Replica(snapshot: Option<Snapshot>, connected: bool, snapshotRequired: bool)

  datatype Message = Full(snapshot: Snapshot) | Delta(delta: StateDelta)

  const FRESH := Replica(None, false, true)

  predicate Accepts(r: Replica, m: Message) {
    match m
    case Full(s) => s.revision > 0
    case Delta(d) =>
      && r.snapshot.Some? && !r.snapshotRequired
      && d.fromRevision == r.snapshot.value.revision && d.revision > d.fromRevision && !d.Empty()
  }

  function Received(r: Replica, m: Message): Replica {
    if !Accepts(r, m) then r.(snapshotRequired := true)
    else if m.Full? then Replica(Some(m.snapshot), true, false)
    else r.(snapshot := Some(Patched(r.snapshot.value, m.delta)))
  }

  function Disconnected(r: Replica): Replica {
    r.(connected := false, snapshotRequired := true)
  }

  /** What happens to a replica; messages may be lost, repeated or come in any order. */
  datatype Event = Deliver(message: Message) | Disconnect

  function After(r: Replica, events: seq<Event>): Replica {
    if events == [] then r
    else
      var last := events[|events| - 1];
      var before := After(r, events[..|events| - 1]);
      if last.Disconnect? then Disconnected(before) else Received(before, last.message)
  }

  /** A message that tells the truth: a snapshot of the server at its revision, or a delta
      that turns the state at one revision into the state at another. */
  ghost predicate Truthful(truth: imap<nat, Snapshot>, m: Message) {
    match m
    case Full(s) => s.revision in truth && truth[s.revision] == s
    case Delta(d) =>
      && d.fromRevision in truth && d.revision in truth
      && Patched(truth[d.fromRevision], d) == truth[d.revision]
  }

  lemma DiffIsTruthful(truth: imap<nat, Snapshot>, a: nat, b: nat)
    requires a in truth && b in truth && truth[a].revision == a && truth[b].revision == b
    ensures Truthful(truth, Delta(Diff(truth[a], truth[b])))
  {
    DiffRebuilds(truth[a], truth[b]);
  }

  /** However messages are lost, repeated, reordered or coalesced, the copy is the server's
      true state at the revision it claims. */
  lemma {:induction false} ReplicaIsNeverWrong(truth: imap<nat, Snapshot>, events: seq<Event>)
    requires forall e :: e in events && e.Deliver? ==> Truthful(truth, e.message)
    ensures var r := After(FRESH, events);
      && (!r.snapshotRequired ==> r.connected && r.snapshot.Some?)
      && (r.snapshot.Some? ==> r.snapshot.value.revision in truth && truth[r.snapshot.value.revision] == r.snapshot.value)
  {
    if events != [] {
      var last := events[|events| - 1];
      assert last in events;
      ReplicaIsNeverWrong(truth, events[..|events| - 1]);
    }
  }

  /** Once a snapshot is required the copy stays frozen, whatever else arrives, until a
      complete snapshot does; and that snapshot replaces it. */
  lemma {:induction false} BlockedUntilSnapshot(r: Replica, events: seq<Event>)
    requires r.snapshotRequired
    requires forall e :: e in events ==> e.Disconnect? || e.message.Delta? || e.message.snapshot.revision == 0
    ensures After(r, events).snapshotRequired && After(r, events).snapshot == r.snapshot
    ensures forall s: Snapshot :: s.revision > 0 ==>
      Received(After(r, events), Full(s)) == Replica(Some(s), true, false)
  {
    if events != [] {
      assert events[|events| - 1] in events;
      BlockedUntilSnapshot(r, events[..|events| - 1]);
    }
  }

  /** A replica that is following takes a truthful delta exactly when it starts where the
      replica is, moves forward, and changes something; any other delta blocks it. */
  lemma DeltaAdvancesOrBlocks(truth: imap<nat, Snapshot>, r: Replica, d: StateDelta)
    requires Truthful(truth, Delta(d)) && !r.snapshotRequired && r.snapshot.Some?
    requires r.snapshot.value.revision in truth && truth[r.snapshot.value.revision] == r.snapshot.value
    ensures var next := Received(r, Delta(d));
      var here := r.snapshot.value.revision;
      if d.fromRevision == here && d.revision > here && !d.Empty()
      then next.snapshot == Some(truth[d.revision]) && !next.snapshotRequired
      else next.snapshotRequired && next.snapshot == r.snapshot
  {}
}
