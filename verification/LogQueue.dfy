/** The queue of class Logger (logger.cpp): any number of producers under one mutex, one
    writer thread. A run is a sequence of actions; each is one critical section or one
    call into the sink, so runs are the interleavings of all threads. */
module LogQueue {

  datatype QueuedRecord = QueuedRecord(sequence: nat, line: string, immediateFlush: bool)

  datatype Phase = Running | Failed | Stopped

  /** Where writer_loop is, with its local variables. */
  datatype Writer =
    | Waiting
    | Writing(batch: seq<QueuedRecord>, bytes: int, next: nat, failed: bool)
    | Flushing(batch: seq<QueuedRecord>, bytes: int)
    | Committing(batch: seq<QueuedRecord>, bytes: int)
    | Failing(batch: seq<QueuedRecord>, next: nat)
    | Exited

  /** accepted, received and durable are the history: the lines that were enqueued, the
      lines the sink took, and how many of those a successful flush covered. */
  datatype State = State(
    queue: seq<QueuedRecord>,
    pendingRecords: int,
    pendingBytes: int,
    nextSequence: nat,
    flushedSequence: nat,
    stopping: bool,
    phase: Phase,
    writer: Writer,
    accepted: seq<string>,
    received: seq<string>,
    durable: nat)

  datatype Action =
    | Enqueue(line: string, immediateFlush: bool)
    | MarkImmediate
    | Take
    | WriteOne(ok: bool, complaint: bool)
    | Flush(ok: bool, complaint: bool)
    | Commit
    | ReportFailure
    | RequestStop
    | Exit

  function Bytes(records: seq<QueuedRecord>): (n: nat)
    ensures records == [] ==> n == 0
  {
    if records == [] then 0 else Bytes(records[..|records| - 1]) + |records[|records| - 1].line|
  }

  function Opened(): State {
    State([], 0, 0, 1, 0, false, Running, Waiting, [], [], 0)
  }

  predicate HasSpace(capacity: nat, s: State, line: string) {
    s.pendingRecords == 0 || s.pendingBytes + |line| <= capacity
  }

  predicate Enabled(capacity: nat, s: State, a: Action) {
    match a
    case Enqueue(line, _) => !s.stopping && s.phase == Running && HasSpace(capacity, s, line)
    case MarkImmediate => !s.stopping && s.phase == Running && s.queue != []
    case Take => s.writer == Waiting && s.queue != []
    case WriteOne(_, _) => s.writer.Writing? && s.writer.next < |s.writer.batch|
    case Flush(_, _) => s.writer.Flushing?
    case Commit => s.writer.Committing?
    case ReportFailure => s.writer.Failing?
    case RequestStop => true
    case Exit => s.writer == Waiting && s.queue == [] && s.stopping
  }

  function Step(capacity: nat, s: State, a: Action): State
    requires Enabled(capacity, s, a)
  {
    match a
    case Enqueue(line, immediateFlush) =>
      s.(queue := s.queue + [QueuedRecord(s.nextSequence, line, immediateFlush)],
      nextSequence := s.nextSequence + 1,
      pendingRecords := s.pendingRecords + 1,
      pendingBytes := s.pendingBytes + |line|,
      accepted := s.accepted + [line])
    case MarkImmediate =>
      var last := |s.queue| - 1;
      s.(queue := s.queue[last := s.queue[last].(immediateFlush := true)])
    case Take =>
      s.(queue := [], writer := Writing(s.queue, Bytes(s.queue), 0, false))
    case WriteOne(ok, complaint) =>
      var w := s.writer;
      var failed := w.failed || complaint;
      var next := if ok then w.next + 1 else w.next;
      s.(received := if ok then s.received + [w.batch[w.next].line] else s.received,
      writer := if ok && next < |w.batch| then w.(next := next, failed := failed)
      else if failed then Failing(w.batch, next)
      else Flushing(w.batch, w.bytes))
    case Flush(ok, complaint) =>
      var w := s.writer;
      if ok && !complaint then s.(durable := |s.received|, writer := Committing(w.batch, w.bytes))
      else s.(writer := Failing(w.batch, |w.batch|))
    case Commit =>
      var w := s.writer;
      s.(pendingRecords := s.pendingRecords - |w.batch|,
      pendingBytes := s.pendingBytes - w.bytes,
      flushedSequence := if w.batch == [] then s.flushedSequence else w.batch[|w.batch| - 1].sequence,
      writer := Waiting)
    case ReportFailure =>
      s.(queue := [], pendingRecords := 0, pendingBytes := 0, phase := Failed, writer := Exited)
    case RequestStop =>
      s.(stopping := true)
    case Exit =>
      s.(phase := if s.phase == Running then Stopped else s.phase, writer := Exited)
  }

  /** A sink that refuses a record and gives no reason. */
  predicate Silent(s: State, a: Action) {
    a.WriteOne? && s.writer.Writing? && !a.ok && !a.complaint && !s.writer.failed
  }

  ghost predicate Run(capacity: nat, s: State, actions: seq<Action>, t: State)
    decreases |actions|
  {
    if actions == [] then s == t
    else Enabled(capacity, s, actions[0]) && Run(capacity, Step(capacity, s, actions[0]), actions[1..], t)
  }

  /** Whether some step of the run was silent. */
  ghost predicate Loses(capacity: nat, s: State, actions: seq<Action>)
    decreases |actions|
  {
    actions != []
    && (Silent(s, actions[0])
        || (Enabled(capacity, s, actions[0]) && Loses(capacity, Step(capacity, s, actions[0]), actions[1..])))
  }

  // The accounting invariant, which holds whatever the sink does.

  ghost predicate Holds(records: seq<QueuedRecord>, accepted: seq<string>, from: nat) {
    && from + |records| <= |accepted|
    && forall i :: 0 <= i < |records| ==>
      records[i].sequence == from + i + 1 && records[i].line == accepted[from + i]
  }

  function Batch(w: Writer): seq<QueuedRecord> {
    if w.Waiting? || w.Exited? then [] else w.batch
  }

  ghost predicate Counted(s: State) {
    var batch := Batch(s.writer);
    && s.pendingRecords == |batch| + |s.queue|
    && s.pendingBytes == Bytes(batch) + Bytes(s.queue)
    && |s.accepted| == s.flushedSequence + |batch| + |s.queue|
    && Holds(batch, s.accepted, s.flushedSequence)
    && Holds(s.queue, s.accepted, s.flushedSequence + |batch|)
  }

  ghost predicate WriterOk(s: State) {
    && (s.writer.Writing? ==> s.writer.next < |s.writer.batch|)
    && (s.writer.Failing? ==> s.writer.next <= |s.writer.batch|)
    && (s.writer.Writing? || s.writer.Flushing? || s.writer.Committing? ==>
          s.writer.bytes == Bytes(s.writer.batch) && s.writer.batch != [])
    && (s.writer.Exited? <==> s.phase != Running)
  }

  ghost predicate Inv(capacity: nat, s: State) {
    && s.nextSequence == |s.accepted| + 1
    && WriterOk(s)
    && (s.phase != Failed ==> Counted(s))
    && (s.phase == Failed ==> s.queue == [] && s.pendingRecords == 0 && s.pendingBytes == 0)
    && (s.phase == Stopped ==> s.stopping && s.queue == [])
    && (s.pendingRecords > 1 ==> s.pendingBytes <= capacity)
    && s.flushedSequence <= |s.accepted|
  }

  /** How many accepted records the writer has handed to the sink or passed over. */
  function Progress(s: State): nat {
    s.flushedSequence + match s.writer
    case Waiting => 0
    case Writing(_, _, next, _) => next
    case Flushing(batch, _) => |batch|
    case Committing(batch, _) => |batch|
    case Failing(_, next) => next
    case Exited => 0
  }

  /** What the sink holds when no step so far was silent, and when one was. */
  ghost predicate Delivered(s: State, lost: bool) {
    && s.durable <= |s.received|
    && (!lost ==> s.received <= s.accepted && s.flushedSequence <= s.durable)
    && (!lost && s.writer.Committing? ==> s.durable == Progress(s))
    && (!lost && s.phase != Failed ==> |s.received| == Progress(s))
    && (lost && s.phase != Failed ==> |s.received| < Progress(s))
  }

  lemma BytesAppend(records: seq<QueuedRecord>, r: QueuedRecord)
    ensures Bytes(records + [r]) == Bytes(records) + |r.line|
  {
    assert (records + [r])[..|records|] == records;
  }

  lemma BytesMarked(records: seq<QueuedRecord>, marked: seq<QueuedRecord>)
    requires records != [] && |marked| == |records|
    requires marked == records[|records| - 1 := records[|records| - 1].(immediateFlush := true)]
    ensures Bytes(marked) == Bytes(records)
  {
    assert marked[..|records| - 1] == records[..|records| - 1];
  }

  lemma EnqueueKeeps(capacity: nat, s: State, line: string, immediateFlush: bool)
    requires Inv(capacity, s) && Enabled(capacity, s, Enqueue(line, immediateFlush))
    ensures Inv(capacity, Step(capacity, s, Enqueue(line, immediateFlush)))
  {
    BytesAppend(s.queue, QueuedRecord(s.nextSequence, line, immediateFlush));
    hide Bytes;
  }

  lemma MarkKeeps(capacity: nat, s: State)
    requires Inv(capacity, s) && Enabled(capacity, s, MarkImmediate)
    ensures Inv(capacity, Step(capacity, s, MarkImmediate))
  {
    BytesMarked(s.queue, Step(capacity, s, MarkImmediate).queue);
    hide Bytes;
  }

  lemma WriterKeeps(capacity: nat, s: State, a: Action)
    requires Inv(capacity, s) && Enabled(capacity, s, a) && (a.Take? || a.WriteOne? || a.Flush?)
    ensures Inv(capacity, Step(capacity, s, a))
  {
    hide Bytes;
  }

  lemma EndKeeps(capacity: nat, s: State, a: Action)
    requires Inv(capacity, s) && Enabled(capacity, s, a)
    requires a.Commit? || a.ReportFailure? || a.RequestStop? || a.Exit?
    ensures Inv(capacity, Step(capacity, s, a))
  {
    hide Bytes;
  }

  lemma StepKeepsInv(capacity: nat, s: State, a: Action)
    requires Inv(capacity, s) && Enabled(capacity, s, a)
    ensures Inv(capacity, Step(capacity, s, a))
  {
    hide Inv, Step, Enabled;
    match a
    case Enqueue(line, immediateFlush) => EnqueueKeeps(capacity, s, line, immediateFlush);
    case MarkImmediate => MarkKeeps(capacity, s);
    case Take => WriterKeeps(capacity, s, a);
    case WriteOne(_, _) => WriterKeeps(capacity, s, a);
    case Flush(_, _) => WriterKeeps(capacity, s, a);
    case _ => EndKeeps(capacity, s, a);
  }

  lemma StepKeepsDelivered(capacity: nat, s: State, a: Action, lost: bool)
    requires Inv(capacity, s) && Delivered(s, lost) && Enabled(capacity, s, a)
    ensures Delivered(Step(capacity, s, a), lost || Silent(s, a))
  {
    hide Bytes;
    if a.WriteOne? && a.ok && !lost {
      var w := s.writer;
      assert w.batch[w.next].line == s.accepted[s.flushedSequence + w.next];
      assert s.received == s.accepted[..|s.received|];
      assert s.received + [w.batch[w.next].line] == s.accepted[..|s.received| + 1];
    }
  }

  lemma {:induction false} RunKeeps(capacity: nat, s: State, actions: seq<Action>, t: State, lost: bool)
    requires Inv(capacity, s) && Delivered(s, lost) && Run(capacity, s, actions, t)
    ensures Inv(capacity, t) && Delivered(t, lost || Loses(capacity, s, actions))
    ensures s.accepted <= t.accepted
    decreases |actions|
  {
    hide Inv, Delivered;
    if actions != [] {
      StepKeepsInv(capacity, s, actions[0]);
      StepKeepsDelivered(capacity, s, actions[0], lost);
      RunKeeps(capacity, Step(capacity, s, actions[0]), actions[1..], t, lost || Silent(s, actions[0]));
    }
  }

  lemma OpenedIsCounted(s: State)
    requires s == Opened()
    ensures Counted(s)
  {
    hide Bytes;
  }

  lemma OpenedIsDelivered(s: State)
    requires s == Opened()
    ensures Delivered(s, false) && WriterOk(s)
  {
    hide Bytes;
  }

  lemma OpenedIsSound(capacity: nat, s: State)
    requires s == Opened()
    ensures Inv(capacity, s) && Delivered(s, false)
  {
    hide Bytes, Counted, WriterOk, Delivered, Progress, Holds;
    OpenedIsCounted(s);
    OpenedIsDelivered(s);
  }

  lemma Reached(capacity: nat, actions: seq<Action>, t: State)
    requires Run(capacity, Opened(), actions, t)
    ensures Inv(capacity, t) && Delivered(t, Loses(capacity, Opened(), actions))
  {
    OpenedIsSound(capacity, Opened());
    hide *;
    RunKeeps(capacity, Opened(), actions, t, false);
  }

  // Main results, over every run from a freshly opened logger.

  /** Pending counts are the queue plus the batch in flight, and never wrap; pending bytes
      stay within the capacity except for a single oversized record. */
  lemma PendingIsExact(capacity: nat, actions: seq<Action>, t: State)
    requires Run(capacity, Opened(), actions, t)
    ensures t.phase != Failed ==> t.pendingRecords == |Batch(t.writer)| + |t.queue|
    ensures t.phase != Failed ==> t.pendingBytes == Bytes(Batch(t.writer)) + Bytes(t.queue)
    ensures t.phase == Failed ==> t.pendingRecords == 0 == t.pendingBytes && t.queue == []
    ensures t.pendingBytes > capacity ==> t.pendingRecords == 1
  {
    hide Run, Loses, Holds, Bytes;
    Reached(capacity, actions, t);
  }

  /** Records reach the sink in sequence order, each once, with no gap. */
  lemma SinkReceivesPrefix(capacity: nat, actions: seq<Action>, t: State)
    requires Run(capacity, Opened(), actions, t)
    requires !Loses(capacity, Opened(), actions)
    ensures t.received <= t.accepted && t.flushedSequence <= t.durable <= |t.received|
  {
    hide Run, Loses, Holds, Bytes;
    Reached(capacity, actions, t);
  }

  /** A clean stop has written and flushed everything accepted, exactly when no step was
      silent. */
  lemma CleanStopWritesEverything(capacity: nat, actions: seq<Action>, t: State)
    requires Run(capacity, Opened(), actions, t) && t.phase == Stopped
    ensures t.pendingRecords == 0 && t.flushedSequence == |t.accepted|
    ensures !Loses(capacity, Opened(), actions) <==> t.received == t.accepted
    ensures !Loses(capacity, Opened(), actions) ==> t.durable == |t.accepted|
  {
    hide Run, Loses, Holds, Bytes;
    Reached(capacity, actions, t);
    if !Loses(capacity, Opened(), actions) {
      assert t.received == t.accepted[..|t.received|];
    }
  }

  /** drain, and log at level error, return true only when flushedSequence has reached the
      sequence they noted on entry: everything accepted up to it is then flushed. */
  lemma TrueMeansFlushed(capacity: nat, before: seq<Action>, s: State, after: seq<Action>, t: State, target: nat)
    requires Run(capacity, Opened(), before, s) && Run(capacity, s, after, t)
    requires target < s.nextSequence && t.flushedSequence >= target
    requires !Loses(capacity, Opened(), before) && !Loses(capacity, s, after)
    ensures target <= |s.accepted| && target <= t.durable <= |t.received|
    ensures t.received[..target] == s.accepted[..target]
  {
    hide Run, Loses, Counted, WriterOk, Bytes;
    Reached(capacity, before, s);
    RunKeeps(capacity, s, after, t, false);
    assert t.received == t.accepted[..|t.received|];
    assert s.accepted == t.accepted[..|s.accepted|];
  }

  /** After a failure nothing more is enqueued or written. */
  lemma {:induction false} FailureIsFinal(capacity: nat, s: State, actions: seq<Action>, t: State)
    requires Inv(capacity, s) && s.phase == Failed && Run(capacity, s, actions, t)
    ensures t.phase == Failed && t.accepted == s.accepted && t.received == s.received
    ensures t.pendingRecords == 0 && t.flushedSequence == s.flushedSequence
    decreases |actions|
  {
    hide Counted, Bytes;
    if actions != [] {
      StepKeepsInv(capacity, s, actions[0]);
      FailureIsFinal(capacity, Step(capacity, s, actions[0]), actions[1..], t);
    }
  }

  /** A sink whose write returns false without a message: the record is gone, yet the
      batch is committed and a waiting drain returns true. */
  lemma SilentRefusalIsReportedAsFlushed(capacity: nat, line: string)
    ensures var t := Opened().(nextSequence := 2, flushedSequence := 1, accepted := [line]);
      var actions := [Enqueue(line, true), Take, WriteOne(false, false), Flush(true, false), Commit];
      && Run(capacity, Opened(), actions, t)
      && Loses(capacity, Opened(), actions)
      && t.phase == Running && t.received == []
  {
    var t := Opened().(nextSequence := 2, flushedSequence := 1, accepted := [line]);
    var record := QueuedRecord(1, line, true);
    var s1 := Step(capacity, Opened(), Enqueue(line, true));
    assert s1.queue == [record] && s1.accepted == [line];
    BytesAppend([], record);
    assert [] + [record] == [record] && Bytes([record]) == |line|;
    var s2 := s1.(queue := [], writer := Writing([record], |line|, 0, false));
    var s3 := s2.(writer := Flushing([record], |line|));
    var s4 := s2.(writer := Committing([record], |line|));
    hide Bytes;
    Then(capacity, s4, Commit, [], t, t);
    Then(capacity, s3, Flush(true, false), [Commit], s4, t);
    Then(capacity, s2, WriteOne(false, false), [Flush(true, false), Commit], s3, t);
    Then(capacity, s1, Take, [WriteOne(false, false), Flush(true, false), Commit], s2, t);
    Then(capacity, Opened(), Enqueue(line, true), [Take, WriteOne(false, false), Flush(true, false), Commit], s1, t);
  }

  lemma Then(capacity: nat, s: State, a: Action, rest: seq<Action>, next: State, t: State)
    requires Enabled(capacity, s, a) && Step(capacity, s, a) == next
    requires rest != [] ==> Run(capacity, next, rest, t)
    requires rest == [] ==> next == t
    ensures Run(capacity, s, [a] + rest, t)
    ensures Loses(capacity, s, [a] + rest) <==> Silent(s, a) || Loses(capacity, next, rest)
  {
    assert ([a] + rest)[1..] == rest;
  }

  datatype LogResult = Refused | MustWait | Queued(sequence: nat)
  datatype DrainResult = NotRunning | AlreadyFlushed | WaitFor(target: nat)

  /** The members that mutex_ guards, and the writer's locals. Each method is the body of
      one critical section, or one call into the sink. */
  class Logger {
    const capacity: nat
    var queue: seq<QueuedRecord>
    var pendingRecords: int
    var pendingBytes: int
    var nextSequence: nat
    var flushedSequence: nat
    var stopping: bool
    var phase: Phase
    var writer: Writer
    ghost var accepted: seq<string>
    ghost var received: seq<string>
    ghost var durable: nat

    ghost function Now(): State
      reads this
    {
      State(queue, pendingRecords, pendingBytes, nextSequence, flushedSequence, stopping, phase, writer,
            accepted, received, durable)
    }

    constructor (capacity: nat)
      ensures this.capacity == capacity && Now() == Opened()
    {
      this.capacity := capacity;
      queue, pendingRecords, pendingBytes, nextSequence, flushedSequence := [], 0, 0, 1, 0;
      stopping, phase, writer := false, Running, Waiting;
      accepted, received, durable := [], [], 0;
    }

    /** log, from taking the lock to the notification; MustWait is the wait for space. */
    method Log(line: string, immediateFlush: bool) returns (r: LogResult)
      modifies this
      ensures r.Queued? <==> Enabled(capacity, old(Now()), Enqueue(line, immediateFlush))
      ensures r.Queued? ==> Now() == Step(capacity, old(Now()), Enqueue(line, immediateFlush))
      ensures r.Queued? <==> phase == Running && !stopping && (old(pendingRecords) == 0 || old(pendingBytes) + |line| <= capacity)
      ensures r.Queued? ==> r.sequence == old(nextSequence) && queue == old(queue) + [QueuedRecord(r.sequence, line, immediateFlush)]
      ensures !r.Queued? ==> Now() == old(Now()) && (r.Refused? <==> stopping || phase != Running)
    {
      if phase != Running || stopping { return Refused; }
      if !(pendingRecords == 0 || pendingBytes + |line| <= capacity) { return MustWait; }
      r := Queued(nextSequence);
      queue := queue + [QueuedRecord(nextSequence, line, immediateFlush)];
      nextSequence := nextSequence + 1;
      pendingRecords := pendingRecords + 1;
      pendingBytes := pendingBytes + |line|;
      accepted := accepted + [line];
    }

    /** drain up to its wait. */
    method Drain() returns (r: DrainResult)
      requires Inv(capacity, Now())
      modifies this`queue
      ensures r.NotRunning? <==> phase != Running || stopping
      ensures r.AlreadyFlushed? ==> flushedSequence == |accepted|
      ensures r.WaitFor? ==> r.target == |accepted| && flushedSequence < r.target
      ensures r.WaitFor? && old(queue) != [] ==> queue != [] && queue[|queue| - 1].immediateFlush
      ensures if r.WaitFor? && old(queue) != [] then Now() == Step(capacity, old(Now()), MarkImmediate)
              else Now() == old(Now())
    {
      if phase != Running || stopping { return NotRunning; }
      var target := nextSequence - 1;
      if target == 0 || flushedSequence >= target { return AlreadyFlushed; }
      if queue != [] {
        var last := |queue| - 1;
        queue := queue[last := queue[last].(immediateFlush := true)];
      }
      return WaitFor(target);
    }

    /** The predicate both waits use, and what they return once it holds. A true result
        means that the sink has flushed every line accepted up to the target (unless it
        refused one in silence); a false one, that the writer is stopping or gone; and
        whoever stays asleep waits for a record that is still pending. */
    method Awaited(target: nat) returns (woken: bool, result: bool)
      requires Inv(capacity, Now()) && target <= |accepted|
      ensures woken && result && Delivered(Now(), false) ==>
        target <= durable <= |received| && received[..target] == accepted[..target]
      ensures woken && !result ==> (stopping || phase != Running) && flushedSequence < target
      ensures !woken ==> !result && phase == Running && !stopping && pendingRecords >= target - flushedSequence > 0
    {
      woken := flushedSequence >= target || phase != Running || stopping;
      result := flushedSequence >= target;
      if result && Delivered(Now(), false) {
        assert received == accepted[..|received|];
      }
    }

    /** The swap of batch and queue, and the sum of the batch's bytes. */
    method TakeBatch()
      requires Enabled(capacity, Now(), Take)
      modifies this`queue, this`writer
      ensures Now() == Step(capacity, old(Now()), Take)
    {
      var batch, bytes := queue, 0;
      hide Bytes;
      queue := [];
      for i := 0 to |batch|
        invariant bytes == Bytes(batch[..i]) && queue == []
      {
        assert batch[..i + 1] == batch[..i] + [batch[i]];
        BytesAppend(batch[..i], batch[i]);
        bytes := bytes + |batch[i].line|;
      }
      assert batch[..|batch|] == batch == old(queue);
      writer := Writing(batch, bytes, 0, false);
    }

    /** One turn of the write loop; ok and complaint are what the sink answered. */
    method WriteRecord(ok: bool, complaint: bool)
      requires Enabled(capacity, Now(), WriteOne(ok, complaint))
      modifies this`writer, this`received
      ensures Now() == Step(capacity, old(Now()), WriteOne(ok, complaint))
      ensures received == if ok then old(received) + [old(writer).batch[old(writer).next].line] else old(received)
      ensures writer.Writing? <==> ok && old(writer).next + 1 < |old(writer).batch|
      ensures writer.Failing? <==> !writer.Writing? && (old(writer).failed || complaint)
    {
      var failed := writer.failed || complaint;
      var next := writer.next;
      if ok {
        received := received + [writer.batch[next].line];
        next := next + 1;
        if next < |writer.batch| {
          writer := writer.(next := next, failed := failed);
          return;
        }
      }
      writer := if failed then Failing(writer.batch, next) else Flushing(writer.batch, writer.bytes);
    }

    method FlushSink(ok: bool, complaint: bool)
      requires Enabled(capacity, Now(), Flush(ok, complaint))
      modifies this`writer, this`durable
      ensures Now() == Step(capacity, old(Now()), Flush(ok, complaint))
      ensures if ok && !complaint then durable == |received| && writer.Committing? else durable == old(durable) && writer.Failing?
    {
      if ok && !complaint {
        durable := |received|;
        writer := Committing(writer.batch, writer.bytes);
      } else {
        writer := Failing(writer.batch, |writer.batch|);
      }
    }

    /** The second critical section of the loop; the batch is not empty. */
    method CommitBatch()
      requires Inv(capacity, Now()) && Enabled(capacity, Now(), Commit)
      modifies this`pendingRecords, this`pendingBytes, this`flushedSequence, this`writer
      ensures Now() == Step(capacity, old(Now()), Commit)
      ensures flushedSequence == old(flushedSequence) + |old(writer).batch|
      ensures 0 <= pendingRecords && 0 <= pendingBytes
    {
      var batch := writer.batch;
      pendingRecords := pendingRecords - |batch|;
      pendingBytes := pendingBytes - writer.bytes;
      flushedSequence := batch[|batch| - 1].sequence;
      writer := Waiting;
    }

    method ReportWriterFailure()
      requires Enabled(capacity, Now(), ReportFailure)
      modifies this`queue, this`pendingRecords, this`pendingBytes, this`phase, this`writer
      ensures Now() == Step(capacity, old(Now()), ReportFailure) && phase == Failed && writer == Exited
      ensures queue == [] && pendingRecords == 0 && pendingBytes == 0
    {
      queue, pendingRecords, pendingBytes := [], 0, 0;
      phase, writer := Failed, Exited;
    }

    /** The destructor's critical section, and the end of writer_loop. */
    method Stop()
      modifies this`stopping
      ensures Now() == Step(capacity, old(Now()), RequestStop) && stopping
    {
      stopping := true;
    }

    method Finish()
      requires Enabled(capacity, Now(), Exit)
      modifies this`phase, this`writer
      ensures Now() == Step(capacity, old(Now()), Exit) && writer == Exited
      ensures phase == if old(phase) == Running then Stopped else old(phase)
    {
      if phase == Running { phase := Stopped; }
      writer := Exited;
    }
  }
}
