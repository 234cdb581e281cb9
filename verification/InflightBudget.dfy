/** The lock-free byte budget (runtime_metrics.cpp) and its leases
    (inflight_memory_budget.cpp). Every load and every compare-exchange is one step, so
    runs are the interleavings of arbitrarily many threads. A slot is a Lease object
    together with the operation its owner is in the middle of. */
module InflightBudget {

  const TWO_TO_64 := 0x1_0000_0000_0000_0000

  /** Sum in std::uint64_t. */
  function Add64(a: nat, b: nat): nat {
    if a + b < TWO_TO_64 then a + b else a + b - TWO_TO_64
  }

  /** What a thread is about to do, with its local variables. */
  datatype Op =
    | Idle
    // configure_inflight_budget
    | ConfigLoad(bytes: nat)
    | ConfigTry(bytes: nat, seen: nat)
    // try_acquire_inflight, update_peak, and the caller's update of its lease
    | AcquireLoadBudget(bytes: nat)
    | AcquireLoad(bytes: nat, capacity: nat)
    | AcquireTry(bytes: nat, capacity: nat, seen: nat)
    | PeakLoad(bytes: nat, value: nat)
    | PeakTry(bytes: nat, value: nat, seen: nat)
    | Credit(bytes: nat)
    // release_inflight and the caller's update of its lease
    | ReleaseLoad(bytes: nat, reset: bool)
    | ReleaseTry(bytes: nat, reset: bool, seen: nat)
    | Debit(bytes: nat, reset: bool)
    | Underflow

  datatype Slot = Slot(valid: bool, bytes: int, op: Op, result: bool)

  /** highest is the largest value current has ever had. */
  datatype State = State(budget: nat, current: int, peak: nat, highest: nat, rejections: nat, slots: seq<Slot>)

  datatype Action =
    | Spawn
    | Configure(i: nat, bytes: nat)
    | Acquire(i: nat, bytes: nat)
    | Grow(i: nat, bytes: nat)
    | Shrink(i: nat, bytes: nat)
    | Reset(i: nat)
    | Move(i: nat, from: nat)
    | Advance(i: nat, spurious: bool)

  const DEFAULT := Slot(false, 0, Idle, false)
  const INITIAL := State(0, 0, 0, 0, 0, [])

  predicate IsIdle(s: State, i: nat) {
    i < |s.slots| && s.slots[i].op.Idle?
  }

  /** Owners only: an operation starts on an idle slot. A lease is acquired into a default
      one, and move assignment resets its target first. */
  predicate Enabled(s: State, a: Action) {
    match a
    case Spawn => true
    case Configure(i, bytes) => IsIdle(s, i) && bytes < TWO_TO_64
    case Acquire(i, bytes) => IsIdle(s, i) && !s.slots[i].valid && bytes < TWO_TO_64
    case Grow(i, bytes) => IsIdle(s, i) && bytes < TWO_TO_64
    case Shrink(i, _) => IsIdle(s, i)
    case Reset(i) => IsIdle(s, i)
    case Move(i, from) => IsIdle(s, i) && IsIdle(s, from) && i != from && !s.slots[i].valid
    case Advance(i, _) => i < |s.slots| && !s.slots[i].op.Idle?
  }

  function With(s: State, i: nat, slot: Slot): State
    requires i < |s.slots|
  {
    s.(slots := s.slots[i := slot])
  }

  function Step(s: State, a: Action): State
    requires Enabled(s, a)
  {
    match a
    case Spawn => s.(slots := s.slots + [DEFAULT])
    case Configure(i, bytes) =>
      With(s, i, if bytes == 0 then s.slots[i].(result := false) else s.slots[i].(op := ConfigLoad(bytes)))
    case Acquire(i, bytes) =>
      With(s, i, if bytes == 0 then s.slots[i].(valid := true, result := true)
                 else s.slots[i].(op := AcquireLoadBudget(bytes)))
    case Grow(i, bytes) =>
      With(s, i, if !s.slots[i].valid then s.slots[i].(result := false)
                 else if bytes == 0 then s.slots[i].(result := true)
                 else s.slots[i].(op := AcquireLoadBudget(bytes)))
    case Shrink(i, bytes) =>
      var released := if bytes < s.slots[i].bytes then bytes else s.slots[i].bytes;
      With(s, i, if s.slots[i].valid && released > 0 then s.slots[i].(op := ReleaseLoad(released, false))
                 else s.slots[i].(bytes := s.slots[i].bytes - released))
    case Reset(i) =>
      With(s, i, if s.slots[i].valid && s.slots[i].bytes > 0 then s.slots[i].(op := ReleaseLoad(s.slots[i].bytes, true))
                 else DEFAULT)
    case Move(i, from) =>
      s.(slots := s.slots[i := s.slots[from]][from := DEFAULT])
    case Advance(i, spurious) => Advanced(s, i, spurious)
  }

  /** One load, or one weak compare-exchange with the test before it. */
  function Advanced(s: State, i: nat, spurious: bool): State
    requires i < |s.slots| && !s.slots[i].op.Idle?
  {
    var slot := s.slots[i];
    match slot.op
    case ConfigLoad(bytes) => With(s, i, slot.(op := ConfigTry(bytes, s.budget)))
    case ConfigTry(bytes, seen) =>
      if seen != 0 then With(s, i, slot.(op := Idle, result := seen == bytes))
      else if !spurious && s.budget == seen then With(s.(budget := bytes), i, slot.(op := Idle, result := true))
      else With(s, i, slot.(op := ConfigTry(bytes, s.budget)))
    case AcquireLoadBudget(bytes) =>
      if s.budget == 0 then With(s.(rejections := s.rejections + 1), i, slot.(op := Idle, result := false))
      else With(s, i, slot.(op := AcquireLoad(bytes, s.budget)))
    case AcquireLoad(bytes, capacity) =>
      With(s, i, slot.(op := AcquireTry(bytes, capacity, Loaded(s.current))))
    case AcquireTry(bytes, capacity, seen) =>
      if bytes > capacity - (if capacity < seen then capacity else seen) then
        With(s.(rejections := s.rejections + 1), i, slot.(op := Idle, result := false))
      else if !spurious && s.current == seen then
        var next := Add64(seen, bytes);
        With(s.(current := next, highest := if s.highest < next then next else s.highest), i,
             slot.(op := PeakLoad(bytes, next)))
      else With(s, i, slot.(op := AcquireTry(bytes, capacity, Loaded(s.current))))
    case PeakLoad(bytes, value) => With(s, i, slot.(op := PeakTry(bytes, value, s.peak)))
    case PeakTry(bytes, value, seen) =>
      if seen >= value then With(s, i, slot.(op := Credit(bytes)))
      else if !spurious && s.peak == seen then With(s.(peak := value), i, slot.(op := Credit(bytes)))
      else With(s, i, slot.(op := PeakTry(bytes, value, s.peak)))
    case Credit(bytes) =>
      With(s, i, Slot(true, slot.bytes + bytes, Idle, true))
    case ReleaseLoad(bytes, reset) => With(s, i, slot.(op := ReleaseTry(bytes, reset, Loaded(s.current))))
    case ReleaseTry(bytes, reset, seen) =>
      if seen < bytes then With(s, i, slot.(op := Underflow))
      else if !spurious && s.current == seen then
        With(s.(current := seen - bytes), i, slot.(op := Debit(bytes, reset)))
      else With(s, i, slot.(op := ReleaseTry(bytes, reset, Loaded(s.current))))
    case Debit(bytes, reset) =>
      With(s, i, if reset then DEFAULT else slot.(bytes := slot.bytes - bytes, op := Idle))
    case Underflow => s
  }

  /** A load never sees a negative counter; CurrentIsBounded shows it would not. */
  function Loaded(current: int): nat {
    if current < 0 then 0 else current
  }

  // Accounting.

  /** What a slot contributes to the counter: its lease, plus what is acquired but not yet
      credited, minus what is released but not yet debited. */
  function Held(slot: Slot): int {
    match slot.op
    case PeakLoad(bytes, _) => slot.bytes + bytes
    case PeakTry(bytes, _, _) => slot.bytes + bytes
    case Credit(bytes) => slot.bytes + bytes
    case Debit(bytes, _) => slot.bytes - bytes
    case _ => slot.bytes
  }

  function Sum(slots: seq<Slot>): int {
    if slots == [] then 0 else Sum(slots[..|slots| - 1]) + Held(slots[|slots| - 1])
  }

  lemma {:induction false} SumUpdate(slots: seq<Slot>, i: nat, slot: Slot)
    requires i < |slots|
    ensures Sum(slots[i := slot]) == Sum(slots) - Held(slots[i]) + Held(slot)
  {
    var last := |slots| - 1;
    var updated := slots[i := slot];
    if i == last {
      assert updated[..last] == slots[..last];
    } else {
      assert updated[..last] == slots[..last][i := slot];
      SumUpdate(slots[..last], i, slot);
    }
  }

  lemma SumSpawn(slots: seq<Slot>)
    ensures Sum(slots + [DEFAULT]) == Sum(slots)
  {
    assert (slots + [DEFAULT])[..|slots|] == slots;
  }

  lemma {:induction false} SumBounds(slots: seq<Slot>, i: nat)
    requires forall k :: 0 <= k < |slots| ==> Held(slots[k]) >= 0
    ensures Sum(slots) >= 0
    ensures i < |slots| ==> Held(slots[i]) <= Sum(slots)
  {
    if slots != [] {
      SumBounds(slots[..|slots| - 1], i);
    }
  }

  ghost predicate SlotOk(budget: nat, peak: nat, highest: nat, slot: Slot) {
    && slot.bytes >= 0 && (!slot.valid ==> slot.bytes == 0)
    && match slot.op
       case Idle => true
       case ConfigLoad(bytes) => 0 < bytes < TWO_TO_64
       case ConfigTry(bytes, seen) => 0 < bytes < TWO_TO_64 && (seen == 0 || seen == budget)
       case AcquireLoadBudget(bytes) => 0 < bytes
       case AcquireLoad(bytes, capacity) => 0 < bytes && capacity == budget > 0
       case AcquireTry(bytes, capacity, seen) => 0 < bytes && capacity == budget > 0 && seen <= budget
       case PeakLoad(bytes, value) => 0 < bytes && value <= highest
       case PeakTry(bytes, value, seen) => 0 < bytes && value <= highest && seen <= peak
       case Credit(bytes) => 0 < bytes
       case ReleaseLoad(bytes, reset) => slot.valid && 0 < bytes <= slot.bytes && (reset ==> bytes == slot.bytes)
       case ReleaseTry(bytes, reset, seen) =>
         slot.valid && 0 < bytes <= slot.bytes && (reset ==> bytes == slot.bytes) && bytes <= seen
       case Debit(bytes, reset) => slot.valid && 0 < bytes <= slot.bytes && (reset ==> bytes == slot.bytes)
       case Underflow => false
  }

  /** Still on its way to raise the peak to the value. */
  predicate Raising(slot: Slot, value: nat) {
    (slot.op.PeakLoad? || slot.op.PeakTry?) && slot.op.value >= value
  }

  ghost predicate SlotsOk(s: State) {
    forall i :: 0 <= i < |s.slots| ==> SlotOk(s.budget, s.peak, s.highest, s.slots[i])
  }

  ghost predicate PeakPending(s: State) {
    s.peak >= s.highest || exists i :: 0 <= i < |s.slots| && Raising(s.slots[i], s.highest)
  }

  ghost predicate Inv(s: State) {
    && s.budget < TWO_TO_64
    && s.current == Sum(s.slots)
    && 0 <= s.current <= s.budget && s.current <= s.highest <= s.budget && s.peak <= s.highest
    && SlotsOk(s)
    && PeakPending(s)
  }

  lemma HeldIsNat(budget: nat, peak: nat, highest: nat, slot: Slot)
    requires SlotOk(budget, peak, highest, slot)
    ensures Held(slot) >= 0
    ensures slot.op.ReleaseLoad? || slot.op.ReleaseTry? ==> Held(slot) >= slot.op.bytes
  {}

  /** A load during a release sees at least the bytes being released. */
  lemma ReleaseSeesEnough(s: State, i: nat)
    requires Inv(s) && i < |s.slots|
    ensures Held(s.slots[i]) <= s.current
  {
    hide Sum, Held, SlotOk;
    forall k | 0 <= k < |s.slots| ensures Held(s.slots[k]) >= 0 {
      HeldIsNat(s.budget, s.peak, s.highest, s.slots[k]);
    }
    SumBounds(s.slots, i);
  }

  /** Budget, peak and highest may only grow (the budget once, from zero). */
  lemma SlotOkKept(s: State, slot: Slot, budget: nat, peak: nat, highest: nat)
    requires SlotOk(s.budget, s.peak, s.highest, slot)
    requires budget == s.budget || s.budget == 0
    requires peak >= s.peak && highest >= s.highest
    ensures SlotOk(budget, peak, highest, slot)
  {}

  lemma OthersOk(s: State, t: State, i: nat)
    requires SlotsOk(s) && i < |s.slots| == |t.slots| && t.slots == s.slots[i := t.slots[i]]
    requires t.budget == s.budget || s.budget == 0
    requires t.peak >= s.peak && t.highest >= s.highest
    requires SlotOk(t.budget, t.peak, t.highest, t.slots[i])
    ensures SlotsOk(t)
  {
    hide SlotOk;
    forall k | 0 <= k < |t.slots| ensures SlotOk(t.budget, t.peak, t.highest, t.slots[k]) {
      if k != i {
        assert t.slots[k] == s.slots[k];
        SlotOkKept(s, s.slots[k], t.budget, t.peak, t.highest);
      }
    }
  }

  /** A step of one slot keeps the invariant when it is locally right. */
  lemma LocalStep(s: State, t: State, i: nat)
    requires Inv(s) && i < |s.slots| && |t.slots| == |s.slots| && t.slots == s.slots[i := t.slots[i]]
    requires t.budget == s.budget || (s.budget == 0 && t.budget < TWO_TO_64)
    requires t.current - s.current == Held(t.slots[i]) - Held(s.slots[i])
    requires 0 <= t.current <= t.budget
    requires t.highest == if s.highest < t.current then t.current else s.highest
    requires s.peak <= t.peak <= t.highest
    requires SlotOk(t.budget, t.peak, t.highest, t.slots[i])
    requires t.peak >= t.highest || Raising(t.slots[i], t.highest)
          || (t.highest == s.highest && !Raising(s.slots[i], s.highest))
    ensures Inv(t)
  {
    hide Sum, SlotOk, Held;
    SumUpdate(s.slots, i, t.slots[i]);
    OthersOk(s, t, i);
    if t.peak < t.highest && !Raising(t.slots[i], t.highest) {
      var k :| 0 <= k < |s.slots| && Raising(s.slots[k], s.highest);
      assert t.slots[k] == s.slots[k];
    }
  }

  lemma InvFacts(s: State, i: nat)
    requires Inv(s) && i < |s.slots|
    ensures s.budget < TWO_TO_64 && s.current <= s.budget && s.current <= s.highest
    ensures s.highest <= s.budget && s.peak <= s.highest && 0 <= s.current
    ensures SlotOk(s.budget, s.peak, s.highest, s.slots[i]) && Held(s.slots[i]) <= s.current
  {
    ReleaseSeesEnough(s, i);
    hide Sum, PeakPending;
  }

  lemma ConfigKeepsInv(s: State, i: nat, spurious: bool)
    requires Inv(s) && i < |s.slots|
    requires var op := s.slots[i].op; op.ConfigLoad? || op.ConfigTry? || op.Underflow?
    ensures Inv(Advanced(s, i, spurious))
  {
    hide Inv, SlotsOk, PeakPending, Sum;
    InvFacts(s, i);
    LocalStep(s, Advanced(s, i, spurious), i);
  }

  lemma AcquireKeepsInv(s: State, i: nat, spurious: bool)
    requires Inv(s) && i < |s.slots|
    requires var op := s.slots[i].op; op.AcquireLoadBudget? || op.AcquireLoad? || op.AcquireTry?
    ensures Inv(Advanced(s, i, spurious))
  {
    hide Inv, SlotsOk, PeakPending, Sum;
    InvFacts(s, i);
    LocalStep(s, Advanced(s, i, spurious), i);
  }

  lemma PeakKeepsInv(s: State, i: nat, spurious: bool)
    requires Inv(s) && i < |s.slots|
    requires var op := s.slots[i].op; op.PeakLoad? || op.PeakTry? || op.Credit?
    ensures Inv(Advanced(s, i, spurious))
  {
    hide Inv, SlotsOk, PeakPending, Sum;
    InvFacts(s, i);
    LocalStep(s, Advanced(s, i, spurious), i);
  }

  lemma ReleaseKeepsInv(s: State, i: nat, spurious: bool)
    requires Inv(s) && i < |s.slots|
    requires var op := s.slots[i].op; op.ReleaseLoad? || op.ReleaseTry? || op.Debit?
    ensures Inv(Advanced(s, i, spurious))
  {
    hide Inv, SlotsOk, PeakPending, Sum;
    InvFacts(s, i);
    LocalStep(s, Advanced(s, i, spurious), i);
  }

  lemma AdvanceKeepsInv(s: State, i: nat, spurious: bool)
    requires Inv(s) && i < |s.slots| && !s.slots[i].op.Idle?
    ensures Inv(Advanced(s, i, spurious))
  {
    hide Inv, Advanced;
    var op := s.slots[i].op;
    if op.AcquireLoadBudget? || op.AcquireLoad? || op.AcquireTry? {
      AcquireKeepsInv(s, i, spurious);
    } else if op.PeakLoad? || op.PeakTry? || op.Credit? {
      PeakKeepsInv(s, i, spurious);
    } else if op.ReleaseLoad? || op.ReleaseTry? || op.Debit? {
      ReleaseKeepsInv(s, i, spurious);
    } else {
      ConfigKeepsInv(s, i, spurious);
    }
  }

  lemma MoveKeepsInv(s: State, i: nat, from: nat)
    requires Inv(s) && Enabled(s, Move(i, from))
    ensures Inv(Step(s, Move(i, from)))
  {
    var middle := s.slots[i := s.slots[from]];
    SumUpdate(s.slots, i, s.slots[from]);
    SumUpdate(middle, from, DEFAULT);
    hide Sum;
    if s.peak < s.highest {
      var k :| 0 <= k < |s.slots| && Raising(s.slots[k], s.highest);
      assert middle[from := DEFAULT][k] == s.slots[k];
    }
  }

  lemma SpawnKeepsInv(s: State)
    requires Inv(s)
    ensures Inv(Step(s, Spawn))
  {
    SumSpawn(s.slots);
    hide Sum;
    if s.peak < s.highest {
      var k :| 0 <= k < |s.slots| && Raising(s.slots[k], s.highest);
      assert (s.slots + [DEFAULT])[k] == s.slots[k];
    }
  }

  lemma StepKeepsInv(s: State, a: Action)
    requires Inv(s) && Enabled(s, a)
    ensures Inv(Step(s, a))
  {
    match a
    case Spawn => SpawnKeepsInv(s);
    case Move(i, from) => MoveKeepsInv(s, i, from);
    case Advance(i, spurious) => AdvanceKeepsInv(s, i, spurious);
    case _ => BeginKeepsInv(s, a);
  }

  lemma BeginKeepsInv(s: State, a: Action)
    requires Inv(s) && Enabled(s, a) && !a.Spawn? && !a.Move? && !a.Advance?
    ensures Inv(Step(s, a))
  {
    hide Inv, SlotsOk, PeakPending, Sum;
    InvFacts(s, a.i);
    LocalStep(s, Step(s, a), a.i);
  }

  ghost predicate Run(s: State, actions: seq<Action>, t: State)
    decreases |actions|
  {
    if actions == [] then s == t
    else Enabled(s, actions[0]) && Run(Step(s, actions[0]), actions[1..], t)
  }

  lemma {:induction false} RunKeepsInv(s: State, actions: seq<Action>, t: State)
    requires Inv(s) && Run(s, actions, t)
    ensures Inv(t)
    ensures s.budget != 0 ==> t.budget == s.budget
    decreases |actions|
  {
    hide Inv;
    if actions != [] {
      StepKeepsInv(s, actions[0]);
      RunKeepsInv(Step(s, actions[0]), actions[1..], t);
    }
  }

  // Main results, over every interleaving.

  /** The counter never exceeds the budget and never wraps. */
  lemma CurrentIsBounded(actions: seq<Action>, t: State)
    requires Run(INITIAL, actions, t)
    ensures 0 <= t.current <= t.budget < TWO_TO_64
    ensures t.current == Sum(t.slots)
  {
    RunKeepsInv(INITIAL, actions, t);
  }

  /** The accounting assertion cannot fail: no thread reaches it, through grow, shrink,
      move and reset. */
  lemma ReleaseNeverUnderflows(actions: seq<Action>, t: State, i: nat)
    requires Run(INITIAL, actions, t) && i < |t.slots|
    ensures !t.slots[i].op.Underflow?
  {
    RunKeepsInv(INITIAL, actions, t);
  }

  function LeaseBytes(slots: seq<Slot>): int {
    if slots == [] then 0 else LeaseBytes(slots[..|slots| - 1]) + slots[|slots| - 1].bytes
  }

  ghost predicate Quiet(s: State) {
    forall i :: 0 <= i < |s.slots| ==> s.slots[i].op.Idle?
  }

  /** No slot has changed the counter without having updated its lease. */
  ghost predicate Booked(slots: seq<Slot>) {
    forall i :: 0 <= i < |slots| ==> Held(slots[i]) == slots[i].bytes
  }

  lemma {:induction false} BookedSum(slots: seq<Slot>)
    requires Booked(slots)
    ensures Sum(slots) == LeaseBytes(slots)
  {
    if slots != [] {
      BookedSum(slots[..|slots| - 1]);
    }
  }

  /** When no operation is in flight, the counter is exactly the live leases, and the peak
      is exactly the largest value the counter ever had. */
  lemma QuietMeansExact(actions: seq<Action>, t: State)
    requires Run(INITIAL, actions, t) && Quiet(t)
    ensures t.current == LeaseBytes(t.slots)
    ensures t.peak == t.highest
  {
    RunKeepsInv(INITIAL, actions, t);
    BookedSum(t.slots);
    hide Sum, LeaseBytes;
  }

  /** The budget is set at most once; configure answers whether it has the wanted value. */
  lemma BudgetIsSetOnce(actions: seq<Action>, s: State, more: seq<Action>, t: State)
    requires Run(INITIAL, actions, s) && s.budget != 0 && Run(s, more, t)
    ensures t.budget == s.budget
  {
    RunKeepsInv(INITIAL, actions, s);
    RunKeepsInv(s, more, t);
  }

  lemma ConfigureAnswersRightly(actions: seq<Action>, s: State, i: nat, spurious: bool)
    requires Run(INITIAL, actions, s) && i < |s.slots| && s.slots[i].op.ConfigTry?
    ensures var t := Advanced(s, i, spurious);
      t.slots[i].op.Idle? ==> t.budget != 0 && (t.slots[i].result <==> t.budget == s.slots[i].op.bytes)
  {
    RunKeepsInv(INITIAL, actions, s);
    assert SlotOk(s.budget, s.peak, s.highest, s.slots[i]);
  }

  // What one operation does to its lease, whatever the other threads do meanwhile.

  /** The lease once the operation under way has succeeded. */
  function Goal(slot: Slot): int {
    match slot.op
    case AcquireLoadBudget(bytes) => slot.bytes + bytes
    case AcquireLoad(bytes, _) => slot.bytes + bytes
    case AcquireTry(bytes, _, _) => slot.bytes + bytes
    case PeakLoad(bytes, _) => slot.bytes + bytes
    case PeakTry(bytes, _, _) => slot.bytes + bytes
    case Credit(bytes) => slot.bytes + bytes
    case ReleaseLoad(bytes, _) => slot.bytes - bytes
    case ReleaseTry(bytes, _, _) => slot.bytes - bytes
    case Debit(bytes, _) => slot.bytes - bytes
    case _ => slot.bytes
  }

  predicate Acquires(slot: Slot) {
    || slot.op.AcquireLoadBudget? || slot.op.AcquireLoad? || slot.op.AcquireTry?
    || slot.op.PeakLoad? || slot.op.PeakTry? || slot.op.Credit?
  }

  predicate Releases(slot: Slot, resets: bool) {
    (slot.op.ReleaseLoad? || slot.op.ReleaseTry? || slot.op.Debit?) && slot.op.reset == resets
  }

  lemma AdvanceKeepsGoal(s: State, i: nat, spurious: bool)
    requires Inv(s) && i < |s.slots| && !s.slots[i].op.Idle?
    ensures |Advanced(s, i, spurious).slots| == |s.slots|
    ensures var before, after := s.slots[i], Advanced(s, i, spurious).slots[i];
      && (Acquires(before) ==>
          if after.op.Idle? then
            if after.result then after.valid && after.bytes == Goal(before) else after.bytes == before.bytes && after.valid == before.valid
          else Acquires(after) && Goal(after) == Goal(before) && after.bytes == before.bytes && after.valid == before.valid)
      && (forall resets :: Releases(before, resets) ==>
          if after.op.Idle? then if resets then after == DEFAULT else after.bytes == Goal(before)
          else Releases(after, resets) && Goal(after) == Goal(before) && after.bytes == before.bytes)
  {
    InvFacts(s, i);
    hide Inv, Sum, SlotsOk, PeakPending;
  }

  /** Acquire and grow: when the call returns, true has added exactly the requested bytes to
      the lease, false has left it alone, however the other threads interleaved. */
  lemma {:induction false} AcquiresExactly(s: State, actions: seq<Action>, t: State, i: nat)
    requires Inv(s) && Run(s, actions, t) && i < |s.slots| && Acquires(s.slots[i])
    requires i < |t.slots| && t.slots[i].op.Idle? && actions != [] && Busy(s, actions[..|actions| - 1], i)
    ensures t.slots[i].bytes == if t.slots[i].result then Goal(s.slots[i]) else s.slots[i].bytes
    ensures t.slots[i].valid <==> t.slots[i].result || s.slots[i].valid
    decreases |actions|
  {
    hide Inv, Acquires, Goal;
    var a, next := actions[0], Step(s, actions[0]);
    StepKeepsInv(s, a);
    if a.Advance? && a.i == i { AdvanceKeepsGoal(s, i, a.spurious); } else { OthersAreLocal(s, a, i); }
    if |actions| == 1 {
      assert Run(next, actions[1..], t) && actions[1..] == [];
      NotAcquiring(s.slots[i]);
    } else {
      assert actions[..|actions| - 1][1..] == actions[1..][..|actions| - 2];
      assert Busy(next, actions[1..][..|actions| - 2], i);
      AcquiresExactly(next, actions[1..], t, i);
    }
  }

  lemma NotAcquiring(slot: Slot)
    ensures slot.op.Idle? ==> !Acquires(slot) && !Releases(slot, true) && !Releases(slot, false)
  {}

  /** Only its own thread touches a slot that is in the middle of an operation. */
  lemma OthersAreLocal(s: State, a: Action, i: nat)
    requires Enabled(s, a) && i < |s.slots| && !s.slots[i].op.Idle? && !(a.Advance? && a.i == i)
    ensures i < |Step(s, a).slots| && Step(s, a).slots[i] == s.slots[i]
  {
    hide Advanced;
    if a.Advance? { AdvanceIsLocal(s, a.i, a.spurious, i); }
  }

  /** Shrink and reset: when the call returns, exactly the bytes to be released are gone;
      after a reset the lease is the empty one. */
  lemma {:induction false} ReleasesExactly(s: State, actions: seq<Action>, t: State, i: nat, resets: bool)
    requires Inv(s) && Run(s, actions, t) && i < |s.slots| && Releases(s.slots[i], resets)
    requires i < |t.slots| && t.slots[i].op.Idle? && actions != [] && Busy(s, actions[..|actions| - 1], i)
    ensures if resets then t.slots[i] == DEFAULT else t.slots[i].bytes == Goal(s.slots[i])
    decreases |actions|
  {
    hide Inv, Releases, Goal;
    var a, next := actions[0], Step(s, actions[0]);
    StepKeepsInv(s, a);
    if a.Advance? && a.i == i { AdvanceKeepsGoal(s, i, a.spurious); } else { OthersAreLocal(s, a, i); }
    if |actions| == 1 {
      assert Run(next, actions[1..], t) && actions[1..] == [];
      NotAcquiring(s.slots[i]);
    } else {
      assert actions[..|actions| - 1][1..] == actions[1..][..|actions| - 2];
      assert Busy(next, actions[1..][..|actions| - 2], i);
      ReleasesExactly(next, actions[1..], t, i, resets);
    }
  }

  /** What each call sets out to do: acquire and grow ask for all of the bytes, shrink
      releases no more than the lease holds, reset all of it, and move hands it over. */
  lemma CallsAimRight(s: State, i: nat, bytes: nat, from: nat)
    requires Inv(s)
    ensures Enabled(s, Acquire(i, bytes)) && bytes > 0 ==>
      var slot := Step(s, Acquire(i, bytes)).slots[i]; Acquires(slot) && Goal(slot) == bytes && slot.bytes == 0
    ensures Enabled(s, Grow(i, bytes)) && bytes > 0 && s.slots[i].valid ==>
      var slot := Step(s, Grow(i, bytes)).slots[i]; Acquires(slot) && Goal(slot) == s.slots[i].bytes + bytes && slot.bytes == s.slots[i].bytes
    ensures Enabled(s, Grow(i, bytes)) && !s.slots[i].valid ==>
      Step(s, Grow(i, bytes)).slots[i] == s.slots[i].(result := false)
    ensures Enabled(s, Shrink(i, bytes)) && bytes > 0 && s.slots[i].bytes > 0 ==>
      var slot := Step(s, Shrink(i, bytes)).slots[i];
      Releases(slot, false) && Goal(slot) == (if bytes < s.slots[i].bytes then s.slots[i].bytes - bytes else 0)
    ensures Enabled(s, Shrink(i, bytes)) && (bytes == 0 || s.slots[i].bytes == 0) ==> Step(s, Shrink(i, bytes)) == s
    ensures Enabled(s, Reset(i)) ==>
      var slot := Step(s, Reset(i)).slots[i];
      if s.slots[i].bytes > 0 then Releases(slot, true) && Goal(slot) == 0 else slot == DEFAULT
    ensures Enabled(s, Move(i, from)) ==>
      Step(s, Move(i, from)).slots[i] == s.slots[from] && Step(s, Move(i, from)).slots[from] == DEFAULT
  {
    if i < |s.slots| { InvFacts(s, i); }
    hide Inv, Sum, SlotsOk, PeakPending;
    if i < |s.slots| { assert s.slots[i := s.slots[i].(bytes := s.slots[i].bytes - 0)] == s.slots; }
  }

  /** Slot i is acquiring this many bytes and has not obtained them yet. */
  predicate Acquiring(s: State, i: nat, bytes: nat) {
    i < |s.slots| && (s.slots[i].op.AcquireLoad? || s.slots[i].op.AcquireTry?) && s.slots[i].op.bytes == bytes
  }

  /** The operation of slot i goes on through all these steps. */
  ghost predicate Busy(s: State, actions: seq<Action>, i: nat)
    decreases |actions|
  {
    && i < |s.slots| && !s.slots[i].op.Idle?
    && (actions == [] || (Enabled(s, actions[0]) && Busy(Step(s, actions[0]), actions[1..], i)))
  }

  lemma AdvanceIsLocal(s: State, i: nat, spurious: bool, k: nat)
    requires i < |s.slots| && !s.slots[i].op.Idle?
    ensures |Advanced(s, i, spurious).slots| == |s.slots|
    ensures k < |s.slots| && k != i ==> Advanced(s, i, spurious).slots[k] == s.slots[k]
  {}

  lemma LoadOfOwner(s: State, i: nat, spurious: bool)
    requires 0 <= s.current && i < |s.slots| && !s.slots[i].op.Idle?
    requires s.slots[i].op.AcquireLoad? || s.slots[i].op.AcquireTry? ==> s.slots[i].op.capacity == s.budget
    ensures var op := Advanced(s, i, spurious).slots[i].op;
      op.AcquireTry? ==> Acquiring(s, i, op.bytes) && s.current == op.seen && s.budget == op.capacity
  {}

  /** Only a load by its own thread sets what an acquisition has seen. */
  lemma LoadSetsSeen(s: State, a: Action, i: nat)
    requires Inv(s) && Enabled(s, a) && i < |Step(s, a).slots| && Step(s, a).slots[i].op.AcquireTry?
    ensures var op := Step(s, a).slots[i].op;
      || (i < |s.slots| && s.slots[i].op == op)
      || (Acquiring(s, i, op.bytes) && s.current == op.seen && s.budget == op.capacity)
  {
    hide Inv, Advanced;
    if a.Advance? {
      InvFacts(s, a.i);
      AdvanceIsLocal(s, a.i, a.spurious, i);
      if a.i == i { LoadOfOwner(s, i, a.spurious); }
    }
  }

  /** The moment at which an acquisition saw what it has seen, unless it was before s. */
  lemma {:induction false} SeenAt(s: State, actions: seq<Action>, t: State, i: nat)
    returns (found: bool, k: nat, m: State)
    requires Inv(s) && Run(s, actions, t) && i < |t.slots| && t.slots[i].op.AcquireTry?
    ensures !found ==> i < |s.slots| && s.slots[i].op == t.slots[i].op && Busy(s, actions, i)
    ensures found ==> k <= |actions| && Run(s, actions[..k], m) && Run(m, actions[k..], t) && Busy(m, actions[k..], i)
    ensures var op := t.slots[i].op;
      found ==> Acquiring(m, i, op.bytes) && m.current == op.seen && m.budget == op.capacity
    decreases |actions|
  {
    hide Inv, Step, Enabled;
    found, k, m := false, 0, s;
    if actions != [] {
      var a, rest := actions[0], actions[1..];
      var next := Step(s, a);
      StepKeepsInv(s, a);
      found, k, m := SeenAt(next, rest, t, i);
      if found {
        k := k + 1;
        assert actions[..k][0] == a && actions[..k][1..] == rest[..k - 1];
        assert actions[k..] == rest[k - 1..];
      } else {
        LoadSetsSeen(s, a, i);
        if !(i < |s.slots| && s.slots[i].op == t.slots[i].op) {
          found, k, m := true, 0, s;
          assert actions[..0] == [] && actions[0..] == actions;
        }
      }
    }
  }

  /** An acquisition is turned away exactly when, at some moment k of the call itself, what
      was accounted for left too little room under the budget; and if every operation had
      booked its bytes by then, it was the live leases that left too little. */
  lemma RejectedOnlyWhenFull(actions: seq<Action>, s: State, i: nat, spurious: bool)
    returns (k: nat, m: State)
    requires Run(INITIAL, actions, s) && i < |s.slots| && s.slots[i].op.AcquireTry?
    ensures k <= |actions| && Run(INITIAL, actions[..k], m) && Run(m, actions[k..], s) && Busy(m, actions[k..], i)
    ensures m.budget == s.budget && Acquiring(m, i, s.slots[i].op.bytes)
    ensures Advanced(s, i, spurious).rejections == s.rejections + 1
       <==> Sum(m.slots) + s.slots[i].op.bytes > m.budget
    ensures Booked(m.slots) ==> Sum(m.slots) == LeaseBytes(m.slots)
  {
    var found;
    found, k, m := SeenAt(INITIAL, actions, s, i);
    RunKeepsInv(INITIAL, actions, s);
    assert SlotOk(s.budget, s.peak, s.highest, s.slots[i]);
    RunKeepsInv(INITIAL, actions[..k], m);
    hide Acquiring, Run, Sum, LeaseBytes;
    if Booked(m.slots) { BookedSum(m.slots); }
  }
}
