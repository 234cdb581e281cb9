/** The classes of session.cpp: the bounded outbound queue, the server's handshake and
    sequence checks, and the client's state tracker. */
module Sessions {
  import opened Wrappers
  import opened Snapshots

  datatype MessageKind =
    | HelloKind | HelloResultKind | Activate | Shutdown | Ping | Pong | SnapshotRequest
    | SnapshotKind | StateChanged | Command | CommandStatus | MaintenanceRequest | MaintenanceResult

  datatype Envelope = Envelope(
    protocol: string, kind: MessageKind, requestId: string, sessionId: string, sequence: nat,
    sourceCommit: string, hasResult: bool, payload: string)

  const PROTOCOL := "ccs-trans.gui-ipc/v1"
  const MAINTENANCE_PROTOCOL := "ccs-trans.maintenance-ipc/v1"

  // OutboundQueue.

  datatype OutboundItem = OutboundItem(envelope: Envelope, coalescingKey: string)

  /** At most one item per non-empty key. */
  ghost predicate Coalesced(items: seq<OutboundItem>) {
    forall i, k :: 0 <= i < k < |items| && items[i].coalescingKey != "" ==>
      items[i].coalescingKey != items[k].coalescingKey
  }

  ghost predicate HasKey(items: seq<OutboundItem>, key: string) {
    exists i :: 0 <= i < |items| && items[i].coalescingKey == key
  }

  /** The items are the newest accepted ones: an item with a key holds the last envelope
      accepted under that key. */
  ghost predicate HoldsNewest(items: seq<OutboundItem>, newest: map<string, Envelope>) {
    forall i :: 0 <= i < |items| && items[i].coalescingKey != "" ==>
      && items[i].coalescingKey in newest
      && newest[items[i].coalescingKey] == items[i].envelope
  }

  /** Replacing the envelope of the one item with a key, in place. */
  lemma Replaceable(items: seq<OutboundItem>, newest: map<string, Envelope>, envelope: Envelope, key: string, k: nat)
    requires Coalesced(items) && HoldsNewest(items, newest) && key != ""
    requires k < |items| && items[k].coalescingKey == key
    ensures Coalesced(items[k := items[k].(envelope := envelope)])
    ensures HoldsNewest(items[k := items[k].(envelope := envelope)], newest[key := envelope])
    ensures forall i :: 0 <= i < |items| && i != k ==> items[i].coalescingKey != key
  {}

  lemma Appendable(items: seq<OutboundItem>, newest: map<string, Envelope>, envelope: Envelope, key: string)
    requires Coalesced(items) && HoldsNewest(items, newest)
    requires key != "" ==> !HasKey(items, key)
    ensures Coalesced(items + [OutboundItem(envelope, key)])
    ensures HoldsNewest(items + [OutboundItem(envelope, key)], newest[key := envelope])
  {}

  /** OutboundQueue; the ghost counters record every call. */
  class OutboundQueue {
    const capacity: nat
    var items: seq<OutboundItem>
    var peakPending: nat
    var rejected: nat
    var coalesced: nat
    var closed: bool
    ghost var pushes: nat
    ghost var pops: nat
    ghost var cleared: nat
    ghost var newest: map<string, Envelope>

    ghost predicate Valid()
      reads this
    {
      && capacity > 0
      && |items| <= peakPending <= capacity
      && Coalesced(items)
      && HoldsNewest(items, newest)
      && pushes == |items| + pops + cleared + coalesced + rejected
    }

    constructor (capacity: nat)
      requires capacity > 0
      ensures Valid() && this.capacity == capacity && items == [] && pushes == 0 && !closed
      ensures peakPending == 0 && rejected == 0 && coalesced == 0
    {
      this.capacity := capacity;
      items, peakPending, rejected, coalesced, closed := [], 0, 0, 0, false;
      pushes, pops, cleared, newest := 0, 0, 0, map[];
    }

    /** push. An accepted push either replaces the envelope of the one item with its key,
        in place, or goes to the back. */
    method Push(envelope: Envelope, key: string) returns (accepted: bool)
      requires Valid()
      modifies this
      ensures Valid() && pushes == old(pushes) + 1 && closed == old(closed)
      ensures pops == old(pops) && cleared == old(cleared)
      ensures accepted <==> !closed && ((key != "" && HasKey(old(items), key)) || |old(items)| < capacity)
      ensures !accepted ==> items == old(items) && rejected == old(rejected) + 1
      ensures peakPending == if |items| > old(peakPending) then |items| else old(peakPending)
      ensures accepted ==> rejected == old(rejected) && newest == old(newest)[key := envelope]
      ensures accepted && !(key != "" && HasKey(old(items), key)) ==>
        items == old(items) + [OutboundItem(envelope, key)] && coalesced == old(coalesced)
      ensures accepted && key != "" && HasKey(old(items), key) ==>
        && coalesced == old(coalesced) + 1 && |items| == |old(items)|
        && forall i :: 0 <= i < |items| ==>
          items[i] == if old(items)[i].coalescingKey == key then OutboundItem(envelope, key) else old(items)[i]
    {
      hide HoldsNewest, Coalesced;
      pushes := pushes + 1;
      if closed {
        rejected := rejected + 1;
        return false;
      }
      if key != "" {
        var found := |items|;
        while found > 0 && items[found - 1].coalescingKey != key
          invariant 0 <= found <= |items|
          invariant forall i :: found <= i < |items| ==> items[i].coalescingKey != key
          invariant items == old(items) && pushes == old(pushes) + 1
        {
          found := found - 1;
        }
        if found > 0 {
          Replaceable(items, newest, envelope, key, found - 1);
          newest := newest[key := envelope];
          items := items[found - 1 := items[found - 1].(envelope := envelope)];
          coalesced := coalesced + 1;
          return true;
        }
      }
      if |items| >= capacity {
        rejected := rejected + 1;
        return false;
      }
      Appendable(items, newest, envelope, key);
      newest := newest[key := envelope];
      items := items + [OutboundItem(envelope, key)];
      peakPending := if peakPending < |items| then |items| else peakPending;
      return true;
    }

    /** wait_pop, after its wait: first in, first out, and a closed queue still drains. */
    method Pop() returns (item: Option<OutboundItem>)
      requires Valid()
      modifies this`items, this`pops
      ensures Valid()
      ensures item.Some? <==> old(items) != []
      ensures item.Some? ==> old(items) == [item.value] + items && pops == old(pops) + 1
      ensures item.None? ==> items == old(items) && pops == old(pops)
      ensures item.Some? && item.value.coalescingKey != "" ==>
        !HasKey(items, item.value.coalescingKey)
    {
      if items == [] { return None; }
      item := Some(items[0]);
      items := items[1..];
      pops := pops + 1;
    }

    method Close()
      requires Valid()
      modifies this`closed
      ensures Valid() && closed && items == old(items)
    {
      closed := true;
    }

    /** reset keeps the counters. */
    method Reset()
      requires Valid()
      modifies this`items, this`closed, this`cleared
      ensures Valid() && items == [] && !closed && cleared == old(cleared) + |old(items)|
    {
      cleared := cleared + |items|;
      items, closed := [], false;
    }
  }

  // ServerSession.

  datatype ErrorCode =
    | NoError | MalformedMessage | AuthenticationFailed | VersionMismatch | SourceMismatch
    | UnsupportedProtocol | SessionMismatch | SequenceRejected

  datatype Hello = Hello(
    version: string, sourceCommit: string, instanceIdentity: string, handshakeToken: string, processId: nat)

  datatype Policy = Policy(
    version: string, sourceCommit: string, instanceIdentity: string, handshakeToken: string,
    sessionId: string, expectedProcessId: Option<nat>)

  /** validate_envelope. */
  predicate WellFormed(e: Envelope) {
    var maintenance := e.kind.MaintenanceRequest? || e.kind.MaintenanceResult?;
    && e.protocol == (if maintenance then MAINTENANCE_PROTOCOL else PROTOCOL)
    && e.requestId != "" && e.payload != ""
    && if e.kind.HelloKind? then e.sessionId == "" && e.sequence == 0
       else
         && e.sessionId != ""
         && (e.kind.HelloResultKind? || e.sequence > 0)
         && (e.kind.HelloResultKind? || e.kind.CommandStatus? || e.kind.MaintenanceResult? ==> e.hasResult)
  }

  /** An envelope is well formed when it names its protocol and carries a request id and a
      payload; a hello has neither session nor number yet, and everything but the answer to
      it has both. */
  lemma WellFormedEnvelopes(e: Envelope)
    ensures WellFormed(e) <==>
      && e.requestId != "" && e.payload != ""
      && (e.kind == MaintenanceRequest || e.kind == MaintenanceResult ==> e.protocol == "ccs-trans.maintenance-ipc/v1")
      && (e.kind != MaintenanceRequest && e.kind != MaintenanceResult ==> e.protocol == "ccs-trans.gui-ipc/v1")
      && (e.kind == HelloKind ==> e.sessionId == "" && e.sequence == 0)
      && (e.kind != HelloKind ==> e.sessionId != "")
      && (e.kind != HelloKind && e.kind != HelloResultKind ==> e.sequence != 0)
      && (e.kind == HelloResultKind || e.kind == CommandStatus || e.kind == MaintenanceResult ==> e.hasResult)
  {}

  /** Who may complete the handshake. */
  predicate Authentic(policy: Policy, e: Envelope, hello: Hello, actualProcess: nat) {
    && hello.version == policy.version
    && hello.sourceCommit == policy.sourceCommit && e.sourceCommit == policy.sourceCommit
    && hello.instanceIdentity == policy.instanceIdentity
    && hello.handshakeToken == policy.handshakeToken
    && hello.processId == actualProcess
    && (policy.expectedProcessId.Some? ==> policy.expectedProcessId.value == actualProcess)
  }

  class ServerSession {
    var policy: Policy
    var lastClientSequence: nat
    var nextServerSequence: nat
    var authenticated: bool
    var tokenConsumed: bool
    /** Hellos accepted since construction; sequence numbers taken and given since then. */
    ghost var hellos: nat
    ghost var taken: seq<nat>
    ghost var given: seq<nat>

    ghost predicate Valid()
      reads this
    {
      && (authenticated ==> tokenConsumed)
      && hellos == (if tokenConsumed then 1 else 0)
      && (tokenConsumed ==> policy.handshakeToken == "")
      && (authenticated ==> lastClientSequence == |taken| && forall i :: 0 <= i < |taken| ==> taken[i] == i + 1)
      && (authenticated ==> nextServerSequence == |given| + 1 && forall i :: 0 <= i < |given| ==> given[i] == i + 1)
    }

    constructor (policy: Policy)
      ensures Valid() && this.policy == policy && hellos == 0 && !authenticated
      ensures lastClientSequence == 0 && nextServerSequence == 1
    {
      this.policy := policy;
      lastClientSequence, nextServerSequence, authenticated, tokenConsumed := 0, 1, false, false;
      hellos, taken, given := 0, [], [];
    }

    /** accept_hello: at most one hello is ever accepted, also across a disconnect. */
    method AcceptHello(e: Envelope, hello: Hello, actualProcess: nat) returns (error: ErrorCode)
      requires Valid()
      modifies this
      ensures Valid() && hellos <= 1
      ensures error == NoError <==>
        && WellFormed(e) && e.kind.HelloKind?
        && old(hellos) == 0 && Authentic(old(policy), e, hello, actualProcess)
      ensures error == NoError ==> authenticated && hellos == 1 && taken == [] && given == []
      ensures error != NoError ==> unchanged(this)
      ensures error == MalformedMessage <==> !WellFormed(e) || !e.kind.HelloKind?
      ensures old(hellos) == 1 && error != MalformedMessage ==> error == AuthenticationFailed
      ensures error == VersionMismatch <==>
        WellFormed(e) && e.kind.HelloKind? && old(hellos) == 0 && hello.version != old(policy).version
      ensures error == SourceMismatch <==>
        && WellFormed(e) && e.kind.HelloKind? && old(hellos) == 0 && hello.version == old(policy).version
        && (hello.sourceCommit != old(policy).sourceCommit || e.sourceCommit != old(policy).sourceCommit)
      ensures error in {NoError, MalformedMessage, AuthenticationFailed, VersionMismatch, SourceMismatch}
    {
      if !WellFormed(e) || !e.kind.HelloKind? { return MalformedMessage; }
      if authenticated || tokenConsumed { return AuthenticationFailed; }
      if hello.version != policy.version { return VersionMismatch; }
      if hello.sourceCommit != policy.sourceCommit || e.sourceCommit != policy.sourceCommit {
        return SourceMismatch;
      }
      if hello.instanceIdentity != policy.instanceIdentity { return AuthenticationFailed; }
      if hello.handshakeToken != policy.handshakeToken { return AuthenticationFailed; }
      if hello.processId != actualProcess
        || (policy.expectedProcessId.Some? && policy.expectedProcessId.value != actualProcess)
      {
        return AuthenticationFailed;
      }
      authenticated, tokenConsumed := true, true;
      policy := policy.(handshakeToken := "");
      lastClientSequence, nextServerSequence := 0, 1;
      hellos, taken, given := hellos + 1, [], [];
      return NoError;
    }

    /** accept_message: the numbers taken are 1, 2, 3, ... without repetition or gap. */
    method AcceptMessage(e: Envelope) returns (error: ErrorCode)
      requires Valid()
      modifies this`lastClientSequence, this`taken
      ensures Valid()
      ensures error == NoError <==>
        && authenticated && WellFormed(e) && e.protocol == PROTOCOL
        && e.sourceCommit == policy.sourceCommit && e.sessionId == policy.sessionId
        && e.sequence == |old(taken)| + 1
      ensures error == NoError ==> taken == old(taken) + [e.sequence]
      ensures error != NoError ==> taken == old(taken) && lastClientSequence == old(lastClientSequence)
      ensures error == AuthenticationFailed <==> !authenticated
      ensures error == MalformedMessage <==> authenticated && !WellFormed(e)
      ensures authenticated && WellFormed(e) ==>
        && (error == UnsupportedProtocol <==> e.protocol != "ccs-trans.gui-ipc/v1")
        && (error == SourceMismatch <==> e.protocol == "ccs-trans.gui-ipc/v1" && e.sourceCommit != policy.sourceCommit)
        && (error == SessionMismatch <==>
            e.protocol == "ccs-trans.gui-ipc/v1" && e.sourceCommit == policy.sourceCommit && e.sessionId != policy.sessionId)
      ensures error == SequenceRejected ==> authenticated && (e.sequence in taken || e.sequence > |taken| + 1 || e.sequence == 0)
    {
      if !authenticated { return AuthenticationFailed; }
      if !WellFormed(e) { return MalformedMessage; }
      if e.protocol != PROTOCOL { return UnsupportedProtocol; }
      if e.sourceCommit != policy.sourceCommit { return SourceMismatch; }
      if e.sessionId != policy.sessionId { return SessionMismatch; }
      if e.sequence != lastClientSequence + 1 {
        if 0 < e.sequence <= |taken| { assert taken[e.sequence - 1] in taken; }
        return SequenceRejected;
      }
      lastClientSequence := e.sequence;
      taken := taken + [e.sequence];
      return NoError;
    }

    method NextServerSequence() returns (sequence: nat)
      requires Valid()
      modifies this`nextServerSequence, this`given
      ensures Valid() && sequence == old(nextServerSequence) && given == old(given) + [sequence]
      ensures nextServerSequence == sequence + 1
    {
      sequence := nextServerSequence;
      nextServerSequence := nextServerSequence + 1;
      given := given + [sequence];
    }

    method Disconnect()
      requires Valid()
      modifies this`authenticated, this`lastClientSequence, this`nextServerSequence
      ensures Valid() && !authenticated && lastClientSequence == 0 && nextServerSequence == 1
    {
      authenticated, lastClientSequence, nextServerSequence := false, 0, 1;
    }
  }

  // ClientStateTracker.

  class ClientStateTracker {
    var snapshot: Option<Snapshot>
    var connected: bool
    var snapshotRequired: bool

    ghost function Now(): Replica
      reads this
    {
      Replica(snapshot, connected, snapshotRequired)
    }

    constructor ()
      ensures Now() == FRESH
    {
      snapshot, connected, snapshotRequired := None, false, true;
    }

    method AcceptSnapshot(s: Snapshot) returns (ok: bool)
      modifies this
      ensures Now() == Received(old(Now()), Full(s)) && ok == Accepts(old(Now()), Full(s))
    {
      if s.revision == 0 {
        snapshotRequired := true;
        return false;
      }
      snapshot, connected, snapshotRequired := Some(s), true, false;
      return true;
    }

    method ApplyDelta(d: StateDelta) returns (ok: bool)
      modifies this
      ensures Now() == Received(old(Now()), Delta(d)) && ok == Accepts(old(Now()), Delta(d))
    {
      if snapshot.None? || snapshotRequired {
        snapshotRequired := true;
        return false;
      }
      if d.fromRevision != snapshot.value.revision || d.revision <= d.fromRevision || d.Empty() {
        snapshotRequired := true;
        return false;
      }
      var updated := snapshot.value.(revision := d.revision);
      updated := updated.(application := Pick(d.application, updated.application));
      updated := updated.(profiles := Pick(d.profiles, updated.profiles));
      updated := updated.(applicationFields := Pick(d.applicationFields, updated.applicationFields));
      updated := updated.(selection := Pick(d.selection, updated.selection));
      updated := updated.(profileEditor := if d.profileEditorChanged then d.profileEditor else updated.profileEditor);
      updated := updated.(rulesEditor := if d.rulesEditorChanged then d.rulesEditor else updated.rulesEditor);
      updated := updated.(draft := Pick(d.draft, updated.draft));
      updated := updated.(lastCommand := if d.lastCommandChanged then d.lastCommand else updated.lastCommand);
      updated := updated.(storage := Pick(d.storage, updated.storage));
      updated := updated.(lightweightMode := Pick(d.lightweightMode, updated.lightweightMode));
      updated := updated.(commandPending := Pick(d.commandPending, updated.commandPending));
      assert updated == Patched(snapshot.value, d);
      snapshot := Some(updated);
      return true;
    }

    method Disconnect()
      modifies this
      ensures Now() == Disconnected(old(Now())) && !connected && snapshotRequired && snapshot == old(snapshot)
    {
      connected, snapshotRequired := false, true;
    }
  }
}
