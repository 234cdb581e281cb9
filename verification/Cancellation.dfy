/** Cancellation (cancellation.cpp): any number of threads registering callbacks, resetting
    their registrations and cancelling. Each atomic operation and each critical section is
    one step. */
module Cancellation {

  /** Where the thread that registered a callback is. */
  datatype Phase =
    | Entering   // in on_cancel, before the critical section
    | Listed     // on_cancel returned the registration
    | Invoking   // found the source cancelled
    | Calling    // claimed the callback, about to call it
    | Finished   // on_cancel returned an empty registration
    | WasReset   // the registration was reset or destroyed

  /** claimed: the exchange of active answered true; runs: how often it has been called. */
  datatype Callback = Callback(active: bool, claimed: bool, runs: nat, phase: Phase)

  /** Where a thread in cancel is. */
  datatype Cancel =
    | Begun
    | Lost
    | Swapping
    | Walking(callbacks: seq<nat>, next: nat)
    | CallingNext(callbacks: seq<nat>, next: nat)
    | Won

  /** winner is the index of the cancel whose exchange came first. */
  datatype State = State(
    cancelled: bool, listed: seq<nat>, callbacks: seq<Callback>, cancels: seq<Cancel>, winner: int)

  datatype Action =
    | BeginRegister
    | Register(i: nat)
    | Claim(i: nat)
    | Call(i: nat)
    | Reset(i: nat)
    | BeginCancel
    | AdvanceCancel(j: nat)

  const INITIAL := State(false, [], [], [], -1)

  predicate InPhase(s: State, i: nat, phase: Phase) {
    i < |s.callbacks| && s.callbacks[i].phase == phase
  }

  predicate Enabled(s: State, a: Action) {
    match a
    case BeginRegister => true
    case Register(i) => InPhase(s, i, Entering)
    case Claim(i) => InPhase(s, i, Invoking)
    case Call(i) => InPhase(s, i, Calling)
    case Reset(i) => InPhase(s, i, Listed)
    case BeginCancel => true
    case AdvanceCancel(j) => j < |s.cancels| && !s.cancels[j].Lost? && !s.cancels[j].Won?
  }

  /** remove_if over the registered callbacks. */
  function StillActive(listed: seq<nat>, callbacks: seq<Callback>): (r: seq<nat>)
    ensures forall i :: i in r <==> i in listed && i < |callbacks| && callbacks[i].active
  {
    if listed == [] then []
    else
      var rest := StillActive(listed[1..], callbacks);
      if listed[0] < |callbacks| && callbacks[listed[0]].active then [listed[0]] + rest else rest
  }

  function Step(s: State, a: Action): State
    requires Enabled(s, a)
  {
    match a
    case BeginRegister => s.(callbacks := s.callbacks + [Callback(true, false, 0, Entering)])
    case Register(i) =>
      if s.cancelled then s.(callbacks := s.callbacks[i := s.callbacks[i].(phase := Invoking)])
      else s.(listed := StillActive(s.listed, s.callbacks) + [i],
      callbacks := s.callbacks[i := s.callbacks[i].(phase := Listed)])
    case Claim(i) =>
      var c := s.callbacks[i];
      s.(callbacks := s.callbacks[i := if c.active then Callback(false, true, c.runs, Calling) else c.(phase := Finished)])
    case Call(i) =>
      var c := s.callbacks[i];
      s.(callbacks := s.callbacks[i := c.(runs := c.runs + 1, phase := Finished)])
    case Reset(i) =>
      s.(callbacks := s.callbacks[i := s.callbacks[i].(active := false, phase := WasReset)])
    case BeginCancel => s.(cancels := s.cancels + [Begun])
    case AdvanceCancel(j) => Cancelled(s, j)
  }

  function At(s: State, j: nat, c: Cancel): State
    requires j < |s.cancels|
  {
    s.(cancels := s.cancels[j := c])
  }

  /** One step of cancel. */
  function Cancelled(s: State, j: nat): State
    requires j < |s.cancels|
  {
    match s.cancels[j]
    case Begun =>
      if s.cancelled then At(s, j, Lost) else At(s.(cancelled := true, winner := j), j, Swapping)
    case Swapping => At(s.(listed := []), j, Walking(s.listed, 0))
    case Walking(callbacks, next) =>
      if next >= |callbacks| then At(s, j, Won)
      else
        var i := callbacks[next];
        if i < |s.callbacks| && s.callbacks[i].active then
          At(s.(callbacks := s.callbacks[i := s.callbacks[i].(active := false, claimed := true)]), j,
             CallingNext(callbacks, next))
        else At(s, j, Walking(callbacks, next + 1))
    case CallingNext(callbacks, next) =>
      if next < |callbacks| && callbacks[next] < |s.callbacks| then
        var i := callbacks[next];
        At(s.(callbacks := s.callbacks[i := s.callbacks[i].(runs := s.callbacks[i].runs + 1)]), j,
           Walking(callbacks, next + 1))
      else s
    case _ => s
  }

  // The invariant.

  predicate PastExchange(c: Cancel) {
    c.Swapping? || c.Walking? || c.CallingNext? || c.Won?
  }

  ghost predicate OneWinner(s: State) {
    && (if s.cancelled then 0 <= s.winner < |s.cancels| else s.winner == -1)
    && forall j :: 0 <= j < |s.cancels| ==>
      && (PastExchange(s.cancels[j]) <==> s.cancelled && j == s.winner)
      && (s.cancels[j].Lost? ==> s.cancelled)
  }

  /** The winner has claimed callback i and not yet called it. */
  predicate AboutToCall(s: State, i: nat) {
    && 0 <= s.winner < |s.cancels|
    && s.cancels[s.winner].CallingNext?
    && s.cancels[s.winner].next < |s.cancels[s.winner].callbacks|
    && s.cancels[s.winner].callbacks[s.cancels[s.winner].next] == i
  }

  /** The winner's list still holds callback i. */
  ghost predicate ToWalk(s: State, i: nat) {
    && 0 <= s.winner < |s.cancels|
    && var c := s.cancels[s.winner];
    && ((c.Swapping? && i in s.listed)
        || (c.Walking? && c.next <= |c.callbacks| && i in c.callbacks[c.next..])
        || (c.CallingNext? && c.next < |c.callbacks| && i in c.callbacks[c.next + 1..]))
  }

  ghost predicate CallbackOk(s: State, i: nat)
    requires i < |s.callbacks|
  {
    var c := s.callbacks[i];
    && (c.active ==> !c.claimed && (c.phase == Entering || c.phase == Listed || c.phase == Invoking))
    && (!c.active ==> c.claimed || c.phase == WasReset)
    && (c.phase == Entering ==> c.active)
    && (c.phase == Calling ==> c.claimed && c.runs == 0)
    && (c.phase == Finished ==> c.claimed && c.runs == 1)
    && (c.phase == Invoking ==> c.active)
    && (!c.claimed ==> c.runs == 0)
    && (c.claimed ==> c.runs == if c.phase == Calling || AboutToCall(s, i) then 0 else 1)
    && (c.phase == Calling ==> !AboutToCall(s, i))
    && (c.active && c.phase == Listed ==> if s.cancelled then ToWalk(s, i) else i in s.listed)
    && (c.claimed || c.phase == Invoking ==> s.cancelled)
  }

  ghost predicate ListOk(s: State) {
    && (forall i :: i in s.listed ==> i < |s.callbacks| && (s.callbacks[i].phase == Listed || s.callbacks[i].phase == WasReset))
    && (s.cancelled && 0 <= s.winner < |s.cancels| && !s.cancels[s.winner].Swapping? ==> s.listed == [])
    && (0 <= s.winner < |s.cancels| && (s.cancels[s.winner].Walking? || s.cancels[s.winner].CallingNext?) ==>
          var c := s.cancels[s.winner];
          && c.next <= |c.callbacks| && (c.CallingNext? ==> c.next < |c.callbacks|)
          && forall i :: i in c.callbacks ==>
            i < |s.callbacks| && (s.callbacks[i].phase == Listed || s.callbacks[i].phase == WasReset))
    && (forall i: nat :: AboutToCall(s, i) && i < |s.callbacks| ==> s.callbacks[i].claimed)
  }

  ghost predicate Inv(s: State) {
    && OneWinner(s)
    && ListOk(s)
    && forall i :: 0 <= i < |s.callbacks| ==> CallbackOk(s, i)
  }

  lemma RegisterKeepsList(s: State, a: Action)
    requires ListOk(s) && Enabled(s, a) && !a.BeginCancel? && !a.AdvanceCancel?
    ensures ListOk(Step(s, a))
  {
    var t := Step(s, a);
    assert t.winner == s.winner && t.cancels == s.cancels && t.cancelled == s.cancelled;
    if a.Register? {
      assert forall k :: k in t.listed ==> k in s.listed || k == a.i;
    }
  }

  lemma RegisterKeepsInv(s: State, a: Action)
    requires Inv(s) && Enabled(s, a) && !a.BeginCancel? && !a.AdvanceCancel?
    ensures Inv(Step(s, a))
  {
    var t := Step(s, a);
    assert ListOk(t) by {
      hide CallbackOk, OneWinner;
      RegisterKeepsList(s, a);
    }
    hide ListOk;
    assert OneWinner(t);
    hide OneWinner;
    forall i | 0 <= i < |t.callbacks| ensures CallbackOk(t, i) {
      if i < |s.callbacks| { assert CallbackOk(s, i); }
    }
  }

  lemma BeginKeepsInv(s: State)
    requires Inv(s)
    ensures Inv(Step(s, BeginCancel))
  {
    var t := Step(s, BeginCancel);
    assert OneWinner(t) by { hide CallbackOk, ListOk; }
    assert ListOk(t) by { hide CallbackOk; }
    forall i | 0 <= i < |t.callbacks| ensures CallbackOk(t, i) {
      assert CallbackOk(s, i);
    }
  }

  lemma ExchangeKeepsInv(s: State, j: nat)
    requires Inv(s) && j < |s.cancels| && (s.cancels[j].Begun? || s.cancels[j].Swapping?)
    ensures Inv(Cancelled(s, j))
  {
    var t := Cancelled(s, j);
    assert OneWinner(t) by { hide CallbackOk, ListOk; }
    assert ListOk(t) by { hide CallbackOk; }
    forall i | 0 <= i < |t.callbacks| ensures CallbackOk(t, i) {
      assert CallbackOk(s, i);
    }
  }

  lemma WalkKeepsInv(s: State, j: nat)
    requires Inv(s) && j < |s.cancels| && s.cancels[j].Walking?
    ensures Inv(Cancelled(s, j))
  {
    var t := Cancelled(s, j);
    assert OneWinner(t) by { hide CallbackOk, ListOk; }
    assert ListOk(t) by { hide CallbackOk; }
    forall i | 0 <= i < |t.callbacks| ensures CallbackOk(t, i) {
      assert CallbackOk(s, i);
    }
  }

  lemma CallKeepsInv(s: State, j: nat)
    requires Inv(s) && j < |s.cancels| && s.cancels[j].CallingNext?
    ensures Inv(Cancelled(s, j))
  {
    var t := Cancelled(s, j);
    assert OneWinner(t) by { hide CallbackOk, ListOk; }
    assert ListOk(t) by { hide CallbackOk; }
    forall i | 0 <= i < |t.callbacks| ensures CallbackOk(t, i) {
      assert CallbackOk(s, i);
    }
  }

  lemma CancelKeepsInv(s: State, a: Action)
    requires Inv(s) && Enabled(s, a) && (a.BeginCancel? || a.AdvanceCancel?)
    ensures Inv(Step(s, a))
  {
    hide Inv, Cancelled;
    if a.BeginCancel? {
      BeginKeepsInv(s);
    } else if s.cancels[a.j].Walking? {
      WalkKeepsInv(s, a.j);
    } else if s.cancels[a.j].CallingNext? {
      CallKeepsInv(s, a.j);
    } else {
      ExchangeKeepsInv(s, a.j);
    }
  }

  ghost predicate Run(s: State, actions: seq<Action>, t: State)
    decreases |actions|
  {
    if actions == [] then s == t
    else Enabled(s, actions[0]) && Run(Step(s, actions[0]), actions[1..], t)
  }

  lemma {:induction false} RunKeepsInv(s: State, actions: seq<Action>, t: State)
    requires Inv(s) && Run(s, actions, t)
    ensures Inv(t)
    decreases |actions|
  {
    hide Inv;
    if actions != [] {
      if actions[0].BeginCancel? || actions[0].AdvanceCancel? {
        CancelKeepsInv(s, actions[0]);
      } else {
        RegisterKeepsInv(s, actions[0]);
      }
      RunKeepsInv(Step(s, actions[0]), actions[1..], t);
    }
  }

  // Main results, over every interleaving.

  /** At most one cancel returns true, and once any cancel has returned, exactly one is the
      one that does. */
  lemma ExactlyOneCancelWins(actions: seq<Action>, t: State)
    requires Run(INITIAL, actions, t)
    ensures forall j, k :: 0 <= j < |t.cancels| && 0 <= k < |t.cancels| && t.cancels[j].Won? && t.cancels[k].Won? ==> j == k
    ensures (exists j :: 0 <= j < |t.cancels| && (t.cancels[j].Lost? || t.cancels[j].Won?)) ==>
      0 <= t.winner < |t.cancels| && PastExchange(t.cancels[t.winner])
  {
    RunKeepsInv(INITIAL, actions, t);
  }

  /** A callback runs at most once, and never when its registration was reset before it
      was claimed. */
  lemma CallbackRunsAtMostOnce(actions: seq<Action>, t: State, i: nat)
    requires Run(INITIAL, actions, t) && i < |t.callbacks|
    ensures t.callbacks[i].runs <= 1
    ensures t.callbacks[i].runs == 1 ==> t.callbacks[i].claimed && t.cancelled
  {
    RunKeepsInv(INITIAL, actions, t);
    assert CallbackOk(t, i);
  }

  /** No registration racing with cancel is lost: when cancel has returned true and
      on_cancel has returned, the callback has run exactly once, unless its registration was
      reset before either side claimed it. */
  lemma NoCallbackIsLost(actions: seq<Action>, t: State, j: nat, i: nat)
    requires Run(INITIAL, actions, t)
    requires j < |t.cancels| && t.cancels[j].Won?
    requires i < |t.callbacks| && t.callbacks[i].phase in {Listed, Finished, WasReset}
    ensures t.callbacks[i].runs == (if t.callbacks[i].phase == WasReset && !t.callbacks[i].claimed then 0 else 1)
  {
    RunKeepsInv(INITIAL, actions, t);
    assert CallbackOk(t, i);
    assert t.winner == j;
  }
}
