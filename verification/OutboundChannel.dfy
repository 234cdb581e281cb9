/** GuiOutboundChannel (gui_outbound_channel.cpp): the job queue with one coalesced state
    job, the writer that turns it into snapshots and deltas against the last state sent,
    and, at the other end of an ordered pipe, the client's replica. */
module OutboundChannels {
  import opened Wrappers
  import opened Snapshots

  datatype Job = EnvelopeJob | SnapshotJob(snapshot: Snapshot) | StateJob

  /** hand is the job the writer has taken and not yet sent. */
  datatype Channel = Channel(
    jobs: seq<Job>, latest: Option<Snapshot>, sent: Option<Snapshot>, hand: Option<Job>,
    stateQueued: bool, closed: bool, drain: bool)

  const EMPTY := Channel([], None, None, None, false, false, false)

  function Published(capacity: nat, c: Channel, s: Snapshot): Channel {
    if c.closed then c
    else if c.stateQueued || |c.jobs| >= capacity then c.(latest := Some(s))
    else c.(latest := Some(s), jobs := c.jobs + [StateJob], stateQueued := true)
  }

  predicate PublishAccepted(capacity: nat, c: Channel) {
    !c.closed && (c.stateQueued || |c.jobs| < capacity)
  }

  function Pushed(capacity: nat, c: Channel, job: Job): Channel {
    if c.closed || |c.jobs| >= capacity then c else c.(jobs := c.jobs + [job])
  }

  predicate CanTake(c: Channel) {
    c.hand.None? && c.jobs != [] && (!c.closed || c.drain)
  }

  function Taken(c: Channel): Channel
    requires CanTake(c)
  {
    c.(jobs := c.jobs[1..], hand := Some(c.jobs[0]),
    stateQueued := c.stateQueued && c.jobs[0] != StateJob)
  }

  /** What the writer sends for the job in hand, if anything. */
  function Outgoing(c: Channel): Option<Message>
    requires c.hand.Some?
  {
    match c.hand.value
    case EnvelopeJob => None
    case SnapshotJob(s) => Some(Full(s))
    case StateJob =>
      if c.latest.None? then None
      else if c.sent.None? then Some(Full(c.latest.value))
      else
        var delta := Diff(c.sent.value, c.latest.value);
        if delta.Empty() then None else Some(Delta(delta))
  }

  predicate Writes(c: Channel)
    requires c.hand.Some?
  {
    c.hand == Some(EnvelopeJob) || Outgoing(c).Some?
  }

  /** The job is done; what was sent becomes the baseline of the next delta. */
  function Finished(c: Channel): Channel
    requires c.hand.Some?
  {
    var baseline := match Outgoing(c)
                    case None => c.sent
                    case Some(Full(s)) => Some(s)
                    case Some(Delta(_)) => c.latest;
    c.(hand := None, sent := baseline)
  }

  function Broken(c: Channel): Channel {
    c.(jobs := [], hand := None, stateQueued := false, closed := true, drain := false)
  }

  /** What is queued is still sent. */
  function Closing(c: Channel): Channel {
    c.(closed := true, drain := true)
  }

  /** What is queued is dropped. */
  function Stopped(c: Channel): Channel {
    c.(jobs := [], stateQueued := false, closed := true, drain := false)
  }

  // The channel, the pipe and the client together.

  datatype System = System(channel: Channel, pipe: seq<Message>, client: Replica)

  datatype Action =
    | Publish(state: Snapshot)
    | EnqueueSnapshot(snapshot: Snapshot)
    | EnqueueEnvelope
    | Take
    | Send(ok: bool)
    | Arrive
    | CloseAfterDrain
    | Stop

  predicate Enabled(s: System, a: Action) {
    match a
    case Take => CanTake(s.channel)
    case Send(_) => s.channel.hand.Some?
    case Arrive => s.pipe != []
    case _ => true
  }

  function Step(capacity: nat, s: System, a: Action): System
    requires Enabled(s, a)
  {
    match a
    case Publish(state) => s.(channel := Published(capacity, s.channel, state))
    case EnqueueSnapshot(snapshot) => s.(channel := Pushed(capacity, s.channel, SnapshotJob(snapshot)))
    case EnqueueEnvelope => s.(channel := Pushed(capacity, s.channel, EnvelopeJob))
    case Take => s.(channel := Taken(s.channel))
    case Send(ok) =>
      var message := Outgoing(s.channel);
      if !ok && Writes(s.channel) then s.(channel := Broken(s.channel))
      else s.(channel := Finished(s.channel), pipe := s.pipe + if message.Some? then [message.value] else [])
    case Arrive => s.(client := Received(s.client, s.pipe[0]), pipe := s.pipe[1..])
    case CloseAfterDrain => s.(channel := Closing(s.channel))
    case Stop => s.(channel := Stopped(s.channel))
  }

  const START := System(EMPTY, [], FRESH)

  ghost predicate Run(capacity: nat, s: System, actions: seq<Action>, t: System)
    decreases |actions|
  {
    if actions == [] then s == t
    else Enabled(s, actions[0]) && Run(capacity, Step(capacity, s, actions[0]), actions[1..], t)
  }

  /** The client once it has consumed these messages. */
  function Consumed(r: Replica, pipe: seq<Message>): Replica
    decreases |pipe|
  {
    if pipe == [] then r else Consumed(Received(r, pipe[0]), pipe[1..])
  }

  lemma {:induction false} ConsumedAppend(r: Replica, pipe: seq<Message>, m: Message)
    ensures Consumed(r, pipe + [m]) == Received(Consumed(r, pipe), m)
    decreases |pipe|
  {
    if pipe == [] {
      assert [m][1..] == [] && pipe + [m] == [m];
    } else {
      assert (pipe + [m])[1..] == pipe[1..] + [m];
      ConsumedAppend(Received(r, pipe[0]), pipe[1..], m);
    }
  }

  /** The baseline of the next delta is what the client will hold, unless it is waiting
      for a snapshot. */
  ghost predicate InSync(s: System) {
    var r := Consumed(s.client, s.pipe);
    r.snapshotRequired || (r.snapshot.Some? && r.snapshot == s.channel.sent)
  }

  lemma SendKeepsSync(capacity: nat, s: System, ok: bool)
    requires InSync(s) && s.channel.hand.Some?
    ensures InSync(Step(capacity, s, Send(ok)))
  {
    var message := Outgoing(s.channel);
    if message.Some? {
      ConsumedAppend(s.client, s.pipe, message.value);
      if message.value.Delta? {
        DiffRebuilds(s.channel.sent.value, s.channel.latest.value);
      }
    } else {
      assert s.pipe + [] == s.pipe;
    }
  }

  lemma {:induction false} RunKeepsSync(capacity: nat, s: System, actions: seq<Action>, t: System)
    requires InSync(s) && Run(capacity, s, actions, t)
    ensures InSync(t)
    decreases |actions|
  {
    if actions != [] {
      if actions[0].Send? { SendKeepsSync(capacity, s, actions[0].ok); }
      RunKeepsSync(capacity, Step(capacity, s, actions[0]), actions[1..], t);
    }
  }

  /** Whatever is published, queued, coalesced or rejected, a client that has read the pipe
      to its end either asks for a snapshot or holds exactly the baseline of the channel. */
  lemma ReplicaIsBaseline(capacity: nat, actions: seq<Action>, t: System)
    requires Run(capacity, START, actions, t) && t.pipe == []
    ensures t.client.snapshotRequired || (t.client.snapshot.Some? && t.client.snapshot == t.channel.sent)
  {
    RunKeepsSync(capacity, START, actions, t);
  }

  // Is what the client shows a true state of the server?

  ghost predicate TrueState(truth: imap<nat, Snapshot>, s: Snapshot) {
    s.revision in truth && truth[s.revision] == s
  }

  /** Every state the system holds is one the server had. */
  ghost predicate AllTrue(truth: imap<nat, Snapshot>, s: System) {
    && (s.channel.latest.Some? ==> TrueState(truth, s.channel.latest.value))
    && (s.channel.sent.Some? ==> TrueState(truth, s.channel.sent.value))
    && (forall j :: j in s.channel.jobs && j.SnapshotJob? ==> TrueState(truth, j.snapshot))
    && (s.channel.hand.Some? && s.channel.hand.value.SnapshotJob? ==> TrueState(truth, s.channel.hand.value.snapshot))
    && (forall m :: m in s.pipe ==> Truthful(truth, m))
    && (s.client.snapshot.Some? ==> TrueState(truth, s.client.snapshot.value))
  }

  /** What is published and queued is what the server had at that revision. */
  ghost predicate TellsTruth(truth: imap<nat, Snapshot>, a: Action) {
    match a
    case Publish(state) => TrueState(truth, state)
    case EnqueueSnapshot(snapshot) => TrueState(truth, snapshot)
    case _ => true
  }

  lemma OutgoingIsTruthful(truth: imap<nat, Snapshot>, s: System)
    requires AllTrue(truth, s) && s.channel.hand.Some? && Outgoing(s.channel).Some?
    ensures Truthful(truth, Outgoing(s.channel).value)
  {
    if Outgoing(s.channel).value.Delta? {
      DiffRebuilds(s.channel.sent.value, s.channel.latest.value);
    }
  }

  lemma SendKeepsTruth(capacity: nat, truth: imap<nat, Snapshot>, s: System, ok: bool)
    requires AllTrue(truth, s) && s.channel.hand.Some?
    ensures AllTrue(truth, Step(capacity, s, Send(ok)))
  {
    if Outgoing(s.channel).Some? { OutgoingIsTruthful(truth, s); }
    hide Diff, Patched, Truthful, TrueState;
  }

  lemma ArriveKeepsTruth(capacity: nat, truth: imap<nat, Snapshot>, s: System)
    requires AllTrue(truth, s) && s.pipe != []
    ensures AllTrue(truth, Step(capacity, s, Arrive))
  {
    hide Diff, Patched, Truthful, TrueState, Received;
    assert s.pipe[0] in s.pipe;
    ArrivalIsTrue(truth, s.client, s.pipe[0]);
  }

  lemma StepKeepsTruth(capacity: nat, truth: imap<nat, Snapshot>, s: System, a: Action)
    requires AllTrue(truth, s) && Enabled(s, a) && TellsTruth(truth, a)
    ensures AllTrue(truth, Step(capacity, s, a))
  {
    hide Truthful, TrueState, Outgoing, Finished;
    if a.Send? {
      SendKeepsTruth(capacity, truth, s, a.ok);
    } else if a.Arrive? {
      ArriveKeepsTruth(capacity, truth, s);
    }
  }

  lemma ArrivalIsTrue(truth: imap<nat, Snapshot>, r: Replica, m: Message)
    requires Truthful(truth, m) && (r.snapshot.Some? ==> TrueState(truth, r.snapshot.value))
    ensures Received(r, m).snapshot.Some? ==> TrueState(truth, Received(r, m).snapshot.value)
  {
    hide Diff;
  }

  lemma {:induction false} RunKeepsTruth(capacity: nat, truth: imap<nat, Snapshot>, s: System, actions: seq<Action>, t: System)
    requires AllTrue(truth, s) && Run(capacity, s, actions, t) && forall a :: a in actions ==> TellsTruth(truth, a)
    ensures AllTrue(truth, t)
    decreases |actions|
  {
    hide AllTrue, TellsTruth, Step;
    if actions != [] {
      assert actions[0] in actions;
      StepKeepsTruth(capacity, truth, s, actions[0]);
      RunKeepsTruth(capacity, truth, Step(capacity, s, actions[0]), actions[1..], t);
    }
  }

  /** At every moment of every run, whatever the channel coalesces, rejects or has still in
      the pipe, the client shows a state the server had at the revision it claims. */
  lemma ClientIsNeverWrong(capacity: nat, truth: imap<nat, Snapshot>, actions: seq<Action>, t: System)
    requires Run(capacity, START, actions, t) && forall a :: a in actions ==> TellsTruth(truth, a)
    ensures t.client.snapshot.Some? ==> TrueState(truth, t.client.snapshot.value)
  {
    RunKeepsTruth(capacity, truth, START, actions, t);
  }

  // Does the client end up with the latest state?

  /** Showing this state, the client is not behind the latest published one. */
  predicate NotStale(shown: Snapshot, latest: Snapshot) {
    shown.revision >= latest.revision || shown.SameContent(latest)
  }

  ghost predicate NoneStale(jobs: seq<Job>, latest: Snapshot) {
    forall j :: j in jobs && j.SnapshotJob? ==> NotStale(j.snapshot, latest)
  }

  ghost predicate AllEnvelopes(jobs: seq<Job>) {
    forall j :: j in jobs ==> j == EnvelopeJob
  }

  /** One state job, with no snapshot behind it. */
  ghost predicate StateQueued(jobs: seq<Job>) {
    jobs != [] && if jobs[0] == StateJob then AllEnvelopes(jobs[1..]) else StateQueued(jobs[1..])
  }

  /** A state job is pending, or on its way, or is not needed. */
  ghost predicate Fresh(c: Channel)
    requires HasState(c)
  {
    if c.stateQueued then StateQueued(c.jobs)
    else if c.hand == Some(StateJob) then StateJob !in c.jobs && NoneStale(c.jobs, c.latest.value)
    else
      && StateJob !in c.jobs
      && (c.latest.Some? ==> Reflected(c, c.latest.value))
  }

  /** A state job exists only once something was published. */
  ghost predicate HasState(c: Channel) {
    c.stateQueued || c.hand == Some(StateJob) ==> c.latest.Some?
  }

  ghost predicate Reflected(c: Channel, latest: Snapshot) {
    && c.sent.Some? && NotStale(c.sent.value, latest)
    && NoneStale(c.jobs, latest)
    && (c.hand.Some? ==> NoneStale([c.hand.value], latest))
  }

  /** The guard a caller needs: publishing must be accepted, and a snapshot must not be
      queued while a state job is, nor be behind the state already published. Nothing may be
      lost to a failed write or a stop. */
  predicate Guarded(capacity: nat, s: System, a: Action) {
    match a
    case Publish(_) => PublishAccepted(capacity, s.channel)
    case EnqueueSnapshot(snapshot) =>
      && !s.channel.stateQueued
      && (s.channel.latest.Some? ==> NotStale(snapshot, s.channel.latest.value))
    case Send(ok) => ok || s.channel.hand.None? || !Writes(s.channel)
    case Stop => s.channel.jobs == []
    case _ => true
  }

  ghost predicate AllGuarded(capacity: nat, s: System, actions: seq<Action>)
    decreases |actions|
  {
    || actions == []
    || (&& Enabled(s, actions[0]) && Guarded(capacity, s, actions[0])
        && AllGuarded(capacity, Step(capacity, s, actions[0]), actions[1..]))
  }

  lemma {:induction false} StateJobAppended(jobs: seq<Job>)
    requires StateJob !in jobs
    ensures StateQueued(jobs + [StateJob])
  {
    if jobs == [] {
      assert ([] + [StateJob])[1..] == [];
    } else {
      assert (jobs + [StateJob])[1..] == jobs[1..] + [StateJob];
      StateJobAppended(jobs[1..]);
    }
  }

  lemma {:induction false} EnvelopeAppended(jobs: seq<Job>)
    requires StateQueued(jobs)
    ensures StateQueued(jobs + [EnvelopeJob])
  {
    assert (jobs + [EnvelopeJob])[1..] == jobs[1..] + [EnvelopeJob];
    if jobs[0] != StateJob { EnvelopeAppended(jobs[1..]); }
  }

  lemma PublishKeepsFresh(capacity: nat, c: Channel, s: Snapshot)
    requires HasState(c) && Fresh(c) && PublishAccepted(capacity, c)
    ensures HasState(Published(capacity, c, s)) && Fresh(Published(capacity, c, s))
  {
    if !c.stateQueued { StateJobAppended(c.jobs); }
  }

  lemma PushKeepsFresh(capacity: nat, c: Channel, job: Job)
    requires HasState(c) && Fresh(c) && job != StateJob
    requires job.SnapshotJob? ==>
      && !c.stateQueued
      && (c.latest.Some? ==> NotStale(job.snapshot, c.latest.value))
    ensures HasState(Pushed(capacity, c, job)) && Fresh(Pushed(capacity, c, job))
  {
    if c.stateQueued { EnvelopeAppended(c.jobs); }
  }

  lemma FinishKeepsFresh(c: Channel)
    requires HasState(c) && Fresh(c) && c.hand.Some?
    ensures HasState(Finished(c)) && Fresh(Finished(c))
  {
    if c.hand == Some(StateJob) && c.latest.Some? && c.sent.Some? {
      DiffRebuilds(c.sent.value, c.latest.value);
    }
  }

  lemma StepKeepsFresh(capacity: nat, s: System, a: Action)
    requires HasState(s.channel) && Fresh(s.channel) && Enabled(s, a) && Guarded(capacity, s, a)
    ensures HasState(Step(capacity, s, a).channel) && Fresh(Step(capacity, s, a).channel)
  {
    match a
    case Publish(state) => PublishKeepsFresh(capacity, s.channel, state);
    case EnqueueSnapshot(snapshot) => PushKeepsFresh(capacity, s.channel, SnapshotJob(snapshot));
    case EnqueueEnvelope => PushKeepsFresh(capacity, s.channel, EnvelopeJob);
    case Send(_) => FinishKeepsFresh(s.channel);
    case _ =>
  }

  lemma {:induction false} RunKeepsFresh(capacity: nat, s: System, actions: seq<Action>, t: System)
    requires HasState(s.channel) && Fresh(s.channel) && Run(capacity, s, actions, t) && AllGuarded(capacity, s, actions)
    ensures HasState(t.channel) && Fresh(t.channel)
    decreases |actions|
  {
    if actions != [] {
      StepKeepsFresh(capacity, s, actions[0]);
      RunKeepsFresh(capacity, Step(capacity, s, actions[0]), actions[1..], t);
    }
  }

  ghost predicate Quiescent(s: System) {
    s.channel.jobs == [] && s.channel.hand.None? && s.pipe == []
  }

  /** Under the guard, once everything is sent and read the client asks for a snapshot or
      is not behind the latest published state. */
  lemma GuardedRunConverges(capacity: nat, actions: seq<Action>, t: System)
    requires Run(capacity, START, actions, t) && AllGuarded(capacity, START, actions)
    requires Quiescent(t) && t.channel.latest.Some?
    ensures t.client.snapshotRequired
      || (t.client.snapshot.Some? && NotStale(t.client.snapshot.value, t.channel.latest.value))
  {
    ReplicaIsBaseline(capacity, actions, t);
    RunKeepsFresh(capacity, START, actions, t);
  }

  lemma Then(capacity: nat, s: System, a: Action, rest: seq<Action>, t: System)
    requires Enabled(s, a) && Run(capacity, Step(capacity, s, a), rest, t)
    ensures Run(capacity, s, [a] + rest, t)
  {
    assert ([a] + rest)[1..] == rest;
  }

  /** The last thing the client will be told is this snapshot. */
  ghost predicate EndsWith(s: System, last: Snapshot) {
    if s.channel.jobs != [] then s.channel.jobs[|s.channel.jobs| - 1] == SnapshotJob(last)
    else if s.channel.hand.Some? then s.channel.hand.value == SnapshotJob(last)
    else if s.pipe != [] then s.pipe[|s.pipe| - 1] == Full(last)
    else s.client == Replica(Some(last), true, false)
  }

  /** The writer and the client do the rest. */
  lemma Drained(capacity: nat, s: System, last: Snapshot) returns (actions: seq<Action>, t: System)
    requires EndsWith(s, last) && last.revision > 0 && !s.channel.closed
    ensures Run(capacity, s, actions, t) && Quiescent(t) && !t.channel.closed
    ensures t.channel.latest == s.channel.latest && t.client == Replica(Some(last), true, false)
    decreases 2 * |s.channel.jobs| + (if s.channel.hand.Some? then 1 else 0), |s.pipe|
  {
    hide Diff, Patched;
    if s.channel.hand.Some? || s.channel.jobs != [] || s.pipe != [] {
      var a := if s.channel.hand.Some? then Send(true) else if s.channel.jobs != [] then Take else Arrive;
      var rest;
      rest, t := Drained(capacity, Step(capacity, s, a), last);
      Then(capacity, s, a, rest, t);
      actions := [a] + rest;
    } else {
      actions, t := [], s;
    }
  }

  /** The guard on snapshots is exact. In any open channel with room, from any state of the
      client, a snapshot queued against it can leave the client behind for good: the state
      job in front takes a later publication with it, or the snapshot was behind already. */
  lemma UnguardedSnapshotGoesStale(capacity: nat, s: System, snapshot: Snapshot, newer: Snapshot)
    returns (actions: seq<Action>, t: System)
    requires !s.channel.closed && |s.channel.jobs| < capacity && 0 < snapshot.revision
    requires !Guarded(capacity, s, EnqueueSnapshot(snapshot)) && !NotStale(snapshot, newer)
    ensures actions != [] && actions[0] == EnqueueSnapshot(snapshot)
    ensures Run(capacity, s, actions, t) && Quiescent(t) && !t.channel.closed
    ensures !t.client.snapshotRequired && t.client.snapshot == Some(snapshot)
    ensures t.channel.latest.Some? && !NotStale(snapshot, t.channel.latest.value)
  {
    hide Run, Diff, Patched;
    var queued := Step(capacity, s, EnqueueSnapshot(snapshot));
    assert queued.channel.jobs == s.channel.jobs + [SnapshotJob(snapshot)];
    var rest;
    if s.channel.stateQueued {
      var published := Step(capacity, queued, Publish(newer));
      assert published.channel == queued.channel.(latest := Some(newer));
      rest, t := Drained(capacity, published, snapshot);
      Then(capacity, queued, Publish(newer), rest, t);
      rest := [Publish(newer)] + rest;
    } else {
      rest, t := Drained(capacity, queued, snapshot);
    }
    Then(capacity, s, EnqueueSnapshot(snapshot), rest, t);
    actions := [EnqueueSnapshot(snapshot)] + rest;
  }

  /** There is at most one state job in the queue, and none without the flag. */
  ghost predicate FlagTracks(c: Channel) {
    && (!c.stateQueued ==> StateJob !in c.jobs)
    && forall i, k :: 0 <= i < k < |c.jobs| ==> c.jobs[i] != StateJob || c.jobs[k] != StateJob
  }

  lemma {:induction false} RunKeepsFlag(capacity: nat, s: System, actions: seq<Action>, t: System)
    requires FlagTracks(s.channel) && Run(capacity, s, actions, t)
    ensures FlagTracks(t.channel)
    decreases |actions|
  {
    hide Outgoing, Diff, Patched, Received;
    if actions != [] { RunKeepsFlag(capacity, Step(capacity, s, actions[0]), actions[1..], t); }
  }

  /** What a job that carries its own content tells the client. */
  function Told(job: Job): seq<Message> {
    if job.SnapshotJob? then [Full(job.snapshot)] else []
  }

  function ToldByAll(jobs: seq<Job>): seq<Message> {
    if jobs == [] then [] else Told(jobs[0]) + ToldByAll(jobs[1..])
  }

  /** The client once it has read the pipe and whatever is still to be sent. */
  function Eventually(s: System): Replica {
    var inHand := if s.channel.hand.Some? then Told(s.channel.hand.value) else [];
    Consumed(s.client, s.pipe + (inHand + ToldByAll(s.channel.jobs)))
  }

  lemma DrainStep(capacity: nat, s: System)
    requires StateJob !in s.channel.jobs && s.channel.hand != Some(StateJob) && !Quiescent(s)
    requires !s.channel.closed || s.channel.drain
    ensures var a := if s.channel.hand.Some? then Send(true) else if s.channel.jobs != [] then Take else Arrive;
      && Enabled(s, a)
      && Eventually(Step(capacity, s, a)) == Eventually(s)
  {
    hide Received, Diff, Patched;
    var jobs := ToldByAll(s.channel.jobs);
    if s.channel.hand.Some? {
      var told := Told(s.channel.hand.value);
      assert s.pipe + (told + jobs) == (s.pipe + told) + ([] + jobs);
      assert Step(capacity, s, Send(true)).pipe == s.pipe + told;
    } else if s.channel.jobs != [] {
      assert s.pipe + ([] + jobs) == s.pipe + (Told(s.channel.jobs[0]) + ToldByAll(s.channel.jobs[1..]));
    } else {
      assert s.pipe + ([] + jobs) == s.pipe && s.pipe[1..] + ([] + jobs) == s.pipe[1..];
    }
  }

  /** Writer and client finish what is there, when no state job is. */
  lemma DrainedBacklog(capacity: nat, s: System) returns (actions: seq<Action>, t: System)
    requires StateJob !in s.channel.jobs && s.channel.hand != Some(StateJob)
    requires !s.channel.closed || s.channel.drain
    ensures Run(capacity, s, actions, t) && Quiescent(t)
    ensures t.channel.closed == s.channel.closed && t.channel.drain == s.channel.drain
    ensures t.channel.latest == s.channel.latest && t.client == Eventually(s)
    decreases 2 * |s.channel.jobs| + (if s.channel.hand.Some? then 1 else 0), |s.pipe|
  {
    if Quiescent(s) {
      actions, t := [], s;
    } else {
      DrainStep(capacity, s);
      hide Eventually, Diff, Patched, Received;
      var a := if s.channel.hand.Some? then Send(true) else if s.channel.jobs != [] then Take else Arrive;
      var rest;
      rest, t := DrainedBacklog(capacity, Step(capacity, s, a));
      Then(capacity, s, a, rest, t);
      actions := [a] + rest;
    }
  }

  /** Closed, and with nothing left to take or to send. */
  ghost predicate Over(s: System) {
    s.channel.closed && s.channel.jobs == [] && s.channel.hand.None?
  }

  /** Nothing reaches the pipe any more, whatever is published, queued or closed: the client
      ends with what is in the pipe. */
  lemma {:induction false} OverIsFinal(capacity: nat, s: System, actions: seq<Action>, t: System)
    requires Over(s) && Run(capacity, s, actions, t)
    ensures Over(t) && t.channel.latest == s.channel.latest && t.channel.sent == s.channel.sent
    ensures Consumed(t.client, t.pipe) == Consumed(s.client, s.pipe)
    decreases |actions|
  {
    hide Received, Diff, Patched, Outgoing;
    if actions != [] { OverIsFinal(capacity, Step(capacity, s, actions[0]), actions[1..], t); }
  }

  /** A write that fails is the end of the channel, and nothing of it is seen. */
  lemma FailedWriteIsTheEnd(capacity: nat, s: System)
    requires s.channel.hand.Some? && Writes(s.channel)
    ensures var t := Step(capacity, s, Send(false));
      Over(t) && !t.channel.drain && !t.channel.stateQueued && t.pipe == s.pipe && t.client == s.client
      && t.channel.latest == s.channel.latest && t.channel.sent == s.channel.sent
  {}

  /** close_after_drain sends what is queued and takes nothing more; stop drops the queue
      and lets the job in hand go. */
  lemma ClosingDrains(capacity: nat, s: System) returns (actions: seq<Action>, t: System)
    requires StateJob !in s.channel.jobs && s.channel.hand != Some(StateJob)
    ensures actions != [] && actions[0] == CloseAfterDrain && Run(capacity, s, actions, t)
    ensures Over(t) && t.pipe == [] && t.client == Eventually(s)
  {
    hide Run, Diff, Patched;
    var closing := Step(capacity, s, CloseAfterDrain);
    assert closing.channel == s.channel.(closed := true, drain := true);
    var rest;
    rest, t := DrainedBacklog(capacity, closing);
    Then(capacity, s, CloseAfterDrain, rest, t);
    actions := [CloseAfterDrain] + rest;
  }

  lemma StoppingDrops(capacity: nat, s: System)
    requires s.channel.hand != Some(StateJob)
    ensures var t := Step(capacity, s, Stop);
      && t.channel.closed && !CanTake(t.channel) && t.channel.jobs == [] && !t.channel.stateQueued && !t.channel.drain
      && t.channel.hand == s.channel.hand && t.channel.latest == s.channel.latest && t.channel.sent == s.channel.sent
      && t.pipe == s.pipe && t.client == s.client
      && Eventually(t) == Eventually(s.(channel := s.channel.(jobs := [])))
  {
    hide Consumed;
  }

  /** Once closed, a channel accepts nothing. */
  lemma ClosedRefuses(capacity: nat, c: Channel, state: Snapshot, job: Job)
    requires c.closed
    ensures Published(capacity, c, state) == c && !PublishAccepted(capacity, c) && Pushed(capacity, c, job) == c
  {}

  /** An open channel takes a job exactly while there is room, at the end of the queue. */
  lemma OpenAcceptsIffRoom(capacity: nat, c: Channel, job: Job)
    requires !c.closed
    ensures Pushed(capacity, c, job).jobs == if |c.jobs| < capacity then c.jobs + [job] else c.jobs
    ensures Pushed(capacity, c, job) == c.(jobs := Pushed(capacity, c, job).jobs)
  {}

  /** The client follows, but shows a state behind this one. */
  predicate Behind(r: Replica, latest: Snapshot) {
    !r.snapshotRequired && r.snapshot.Some? && !NotStale(r.snapshot.value, latest)
  }

  /** So is the guard on publications. Whatever run filled an open channel, a publication
      rejected for lack of room becomes the latest state all the same but, unless a state
      job is in hand, reaches nobody: the client can end with what it was going to end with
      anyway, and for good. */
  lemma RejectedPublicationIsLost(capacity: nat, before: seq<Action>, s: System, newer: Snapshot)
    returns (actions: seq<Action>, t: System)
    requires Run(capacity, START, before, s)
    requires !s.channel.closed && !PublishAccepted(capacity, s.channel) && s.channel.hand != Some(StateJob)
    ensures actions != [] && actions[0] == Publish(newer)
    ensures Run(capacity, s, actions, t) && Quiescent(t) && !t.channel.closed
    ensures t.channel.latest == Some(newer) && t.client == Eventually(s)
    ensures Behind(t.client, t.channel.latest.value) <==> Behind(Eventually(s), newer)
  {
    hide Run, Diff, Patched, Behind;
    RunKeepsFlag(capacity, START, before, s);
    var published := Step(capacity, s, Publish(newer));
    assert published.channel == s.channel.(latest := Some(newer));
    var rest;
    rest, t := DrainedBacklog(capacity, published);
    Then(capacity, s, Publish(newer), rest, t);
    actions := [Publish(newer)] + rest;
  }

  /** The members mutex_ guards, and the writer's own sent_state_. */
  class GuiOutboundChannel {
    const capacity: nat
    var jobs: seq<Job>
    var latestState: Option<Snapshot>
    var sentState: Option<Snapshot>
    var peakPending: nat
    var rejected: nat
    var coalesced: nat
    var stateQueued: bool
    var closed: bool
    var drain: bool
    var hand: Option<Job>

    ghost function Now(): Channel
      reads this
    {
      Channel(jobs, latestState, sentState, hand, stateQueued, closed, drain)
    }

    constructor (capacity: nat)
      requires capacity > 0
      ensures this.capacity == capacity && Now() == EMPTY && peakPending == rejected == coalesced == 0
    {
      this.capacity := capacity;
      jobs, latestState, sentState, hand := [], None, None, None;
      stateQueued, closed, drain := false, false, false;
      peakPending, rejected, coalesced := 0, 0, 0;
    }

    method PublishState(s: Snapshot) returns (accepted: bool)
      modifies this
      ensures Now() == Published(capacity, old(Now()), s)
      ensures accepted == PublishAccepted(capacity, old(Now()))
      ensures accepted <==> !old(closed) && (old(stateQueued) || |old(jobs)| < capacity)
      ensures !old(closed) ==> latestState == Some(s)
      ensures peakPending == if |jobs| > |old(jobs)| && |jobs| > old(peakPending) then |jobs| else old(peakPending)
      ensures jobs == if !old(closed) && !old(stateQueued) && |old(jobs)| < capacity then old(jobs) + [StateJob] else old(jobs)
      ensures rejected == old(rejected) + (if accepted then 0 else 1)
      ensures coalesced == old(coalesced) + (if accepted && old(stateQueued) then 1 else 0)
    {
      if closed {
        rejected := rejected + 1;
        return false;
      }
      latestState := Some(s);
      if stateQueued {
        coalesced := coalesced + 1;
        return true;
      }
      if |jobs| >= capacity {
        rejected := rejected + 1;
        return false;
      }
      jobs := jobs + [StateJob];
      stateQueued := true;
      peakPending := if peakPending < |jobs| then |jobs| else peakPending;
      return true;
    }

    method PushJob(job: Job) returns (accepted: bool)
      modifies this
      ensures Now() == Pushed(capacity, old(Now()), job)
      ensures accepted <==> |jobs| == |old(jobs)| + 1
      ensures accepted <==> !old(closed) && |old(jobs)| < capacity
      ensures peakPending == if accepted && |jobs| > old(peakPending) then |jobs| else old(peakPending)
      ensures rejected == old(rejected) + (if accepted then 0 else 1)
    {
      if closed || |jobs| >= capacity {
        rejected := rejected + 1;
        return false;
      }
      jobs := jobs + [job];
      peakPending := if peakPending < |jobs| then |jobs| else peakPending;
      return true;
    }

    /** close_after_drain. */
    method CloseAfterDrain()
      modifies this`closed, this`drain
      ensures Now() == Closing(old(Now())) && closed && drain && jobs == old(jobs)
    {
      closed, drain := true, true;
    }

    /** stop, but for the thread. */
    method Stop()
      modifies this`closed, this`drain, this`jobs, this`stateQueued
      ensures Now() == Stopped(old(Now())) && closed && !drain && jobs == [] && !stateQueued
    {
      closed, drain, jobs, stateQueued := true, false, [], false;
    }

    /** The writer's critical section. */
    method TakeJob()
      requires CanTake(Now())
      modifies this`jobs, this`hand, this`stateQueued
      ensures Now() == Taken(old(Now()))
    {
      var job := jobs[0];
      jobs := jobs[1..];
      if job == StateJob { stateQueued := false; }
      hand := Some(job);
    }

    /** prepare_job, and the write that follows; ok is the outcome of the write. */
    method SendJob(ok: bool) returns (message: Option<Message>)
      requires hand.Some?
      modifies this`jobs, this`hand, this`stateQueued, this`closed, this`drain, this`sentState
      ensures message == Outgoing(old(Now()))
      ensures Now() == if !ok && Writes(old(Now())) then Broken(old(Now())) else Finished(old(Now()))
      ensures !ok && (old(hand) == Some(EnvelopeJob) || message.Some?) ==>
        closed && !drain && jobs == [] && !stateQueued && sentState == old(sentState)
    {
      var baseline: Option<Snapshot> := None;
      message := None;
      match hand.value {
        case EnvelopeJob =>
        case SnapshotJob(s) =>
          message, baseline := Some(Full(s)), Some(s);
        case StateJob =>
          if latestState.Some? {
            if sentState.None? {
              message, baseline := Some(Full(latestState.value)), latestState;
            } else {
              var delta := Diff(sentState.value, latestState.value);
              if !delta.Empty() { message, baseline := Some(Delta(delta)), latestState; }
            }
          }
      }
      if !ok && (hand.value == EnvelopeJob || message.Some?) {
        jobs, hand, stateQueued, closed, drain := [], None, false, true, false;
        return;
      }
      hand := None;
      if baseline.Some? { sentState := baseline; }
    }
  }
}
