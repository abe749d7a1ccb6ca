/** How the calls of `push` and `Pop` end, over every run. */
module QueueCalls {
  import opened Wrappers
  import opened QueueMachine
  import opened QueueSafety
  import N = NotificationMachine
  import S = NotificationSafety
  import T = NotificationTheorems

  // ---------------------------------------------------------------- push

  /** A push that is about to return false has found the queue full. */
  ghost predicate RefusedFull(s: State) {
    forall i :: 0 <= i < |s.senders| && s.senders[i] == PushUnlock(false) ==> |s.queue| >= s.max
  }

  lemma SenderRefusedFull(s: State, i: nat)
    requires Shape(s) && MutexHeld(s) && RefusedFull(s) && i < |s.senders| && SenderReady(s, i)
    ensures RefusedFull(SenderNext(s, i))
  {
    var s' := SenderNext(s, i);
    forall k | 0 <= k < |s.senders| && s'.senders[k] == PushUnlock(false) ensures |s'.queue| >= s'.max {
      assert k != i ==> s.mutex == Some(k + 1) && !SenderHolds(s.senders[i]);
    }
  }

  lemma RefusedFullStep(s: State, a: Action)
    requires Shape(s) && MutexHeld(s) && RefusedFull(s) && Enabled(s, a)
    ensures RefusedFull(Apply(s, a))
  {
    if a.SenderStep? {
      SenderRefusedFull(s, a.i);
    } else {
      var s' := Apply(s, a);
      forall k | 0 <= k < |s.senders| && s'.senders[k] == PushUnlock(false) ensures |s'.queue| >= s'.max {
        assert s.senders[k] == PushUnlock(false) && s.mutex == Some(k + 1);
      }
    }
  }

  predicate Carries(pc: SenderPc) { pc.PushShared? || pc.PushLock? || pc.PushCheck? || pc.PushBack? }

  predicate HasPushed(pc: SenderPc) { pc.PushNotify? || pc.PushNotifying? || pc == PushUnlock(true) }

  /** A push carries the item it was called with, and has stored it last of all when it is about to return true. */
  ghost predicate OwnItems(s: State) {
    && Shape(s)
    && (forall i :: 0 <= i < |s.senders| && Carries(s.senders[i]) ==> s.senders[i].x == s.item[i])
    && (forall i :: 0 <= i < |s.senders| && HasPushed(s.senders[i]) ==>
          s.accepted != [] && s.accepted[|s.accepted| - 1] == s.item[i])
  }

  lemma SenderOwnItems(s: State, i: nat)
    requires MutexHeld(s) && OwnItems(s) && i < |s.senders| && SenderReady(s, i) && Shape(SenderNext(s, i))
    ensures OwnItems(SenderNext(s, i))
  {
    var s' := SenderNext(s, i);
    forall k | 0 <= k < |s.senders| && HasPushed(s'.senders[k])
      ensures s'.accepted != [] && s'.accepted[|s'.accepted| - 1] == s'.item[k]
    {
      assert k != i ==> s.mutex == Some(k + 1) && !SenderHolds(s.senders[i]);
    }
  }

  lemma OwnItemsStep(s: State, a: Action)
    requires MutexHeld(s) && OwnItems(s) && Enabled(s, a)
    ensures OwnItems(Apply(s, a))
  {
    ShapeStep(s, a);
    if a.SenderStep? {
      SenderOwnItems(s, a.i);
    }
  }

  // ---------------------------------------------------------------- Pop

  /** A `Pop` pops nothing but one item at its end; its wait is the one that was asked for. */
  ghost predicate PopFollows(s: State) {
    && Shape(s)
    && (!s.reader.ReaderIdle? && !s.reader.Aborted? ==>
          |s.popped| == s.before + if s.reader.PopDone? then 1 else 0)
    && (s.reader.PopWaiting? ==> s.n.deadline[0] == s.until && s.n.token[0] == s.token)
  }

  lemma InsideKeepsWait(n: N.State, a: N.Action)
    requires N.Shape(n) && N.Enabled(n, a) && (a.Step? || a.Wake? || a.Tick? || a.Pick? || a.BeginStop?)
    ensures N.Apply(n, a).deadline == n.deadline && N.Apply(n, a).token == n.token
  {
  }

  lemma PopFollowsStep(s: State, a: Action)
    requires Roles(s) && ReaderView(s) && PopFollows(s) && Enabled(s, a)
    ensures PopFollows(Apply(s, a))
  {
    ShapeStep(s, a);
    if a.Inside? {
      InsideKeepsWait(s.n, a.a);
    }
  }

  /** A wait of the reader that returned false was stopped, or saw its deadline pass. */
  ghost predicate FalseHasReason(s: State) {
    && Shape(s)
    && (s.reader.PopWaiting? && s.n.threads[0].Idle? && !s.n.results[0] ==> N.StopSeen(s.n, 0) || N.Past(s.n, 0))
  }

  /** What the wait of an idle thread saw is not forgotten. */
  lemma ReasonStays(n: N.State, a: N.Action)
    requires N.Shape(n) && N.Enabled(n, a) && |n.threads| > 0 && n.threads[0].Idle?
    requires a.Step? || a.Wake? || a.Tick? || a.Pick? || a.BeginStop?
    ensures N.Shape(N.Apply(n, a)) && N.Apply(n, a).results[0] == n.results[0]
    ensures N.StopSeen(n, 0) ==> N.StopSeen(N.Apply(n, a), 0)
    ensures N.Past(n, 0) ==> N.Past(N.Apply(n, a), 0)
  {
    S.ShapeStep(n, a);
  }

  lemma ReturnHasReason(n: N.State, a: N.Action)
    requires T.Inv(n) && N.Enabled(n, a) && |n.threads| > 0 && (a.Step? || a.Wake? || a.Tick? || a.Pick?)
    requires IsWait(n.threads[0]) && !n.threads[0].Idle? && N.Apply(n, a).threads[0].Idle? && !N.Apply(n, a).results[0]
    ensures N.Shape(N.Apply(n, a)) && (N.StopSeen(N.Apply(n, a), 0) || N.Past(N.Apply(n, a), 0))
  {
    S.ShapeStep(n, a);
    assert S.Knows(n.threads[0], n.notified, N.StopSeen(n, 0), N.Past(n, 0));
  }

  lemma InsideFalseHasReason(s: State, a: N.Action)
    requires Roles(s) && T.Inv(s.n) && FalseHasReason(s) && N.Enabled(s.n, a) && InsideAllowed(s, a)
    ensures FalseHasReason(Apply(s, Inside(a)))
  {
    ShapeStep(s, Inside(a));
    var n' := N.Apply(s.n, a);
    if s.reader.PopWaiting? && n'.threads[0].Idle? && !n'.results[0] {
      if s.n.threads[0].Idle? {
        ReasonStays(s.n, a);
      } else {
        ReturnHasReason(s.n, a);
      }
    }
  }

  lemma FalseHasReasonStep(s: State, a: Action)
    requires Roles(s) && T.Inv(s.n) && FalseHasReason(s) && Enabled(s, a)
    ensures FalseHasReason(Apply(s, a))
  {
    ShapeStep(s, a);
    if a.Inside? {
      InsideFalseHasReason(s, a.a);
    }
  }

  // ---------------------------------------------------------------- theorems

  ghost predicate Calls(s: State) { RefusedFull(s) && OwnItems(s) && PopFollows(s) && FalseHasReason(s) }

  lemma {:induction false} RunCalls(states: seq<State>, actions: seq<Action>, max: nat, senders: nat, others: nat,
                                    tokens: nat, i: nat)
    requires QueueRun(states, actions, max, senders, others, tokens) && i < |states|
    ensures Calls(states[i])
    decreases i
  {
    if i == 0 {
    } else {
      RunCalls(states, actions, max, senders, others, tokens, i - 1);
      RunInv(states, actions, max, senders, others, tokens, i - 1);
      CallsStep(states[i - 1], actions[i - 1]);
    }
  }

  lemma CallsStep(s: State, a: Action)
    requires Inv(s) && Calls(s) && Enabled(s, a)
    ensures Calls(Apply(s, a))
  {
    RefusedFullStep(s, a);
    OwnItemsStep(s, a);
    PopFollowsStep(s, a);
    FalseHasReasonStep(s, a);
  }

  /** Sender k returns from `push` with this action. */
  ghost predicate PushReturns(s: State, a: Action, k: nat)
    requires Shape(s) && Enabled(s, a)
  {
    k < |s.senders| && !s.senders[k].SenderIdle? && Apply(s, a).senders[k].SenderIdle?
  }

  /** The reader returns from `Pop` with this action. */
  ghost predicate PopReturns(s: State, a: Action)
    requires Shape(s) && Enabled(s, a)
  {
    !s.reader.ReaderIdle? && Apply(s, a).reader.ReaderIdle?
  }

  /** A push that returns without success found the queue gone or full. */
  lemma PushIsRefusedOnly(states: seq<State>, actions: seq<Action>, max: nat, senders: nat, others: nat,
                          tokens: nat, i: nat, k: nat)
    requires QueueRun(states, actions, max, senders, others, tokens) && i < |actions|
    requires Shape(states[i]) && Enabled(states[i], actions[i]) && PushReturns(states[i], actions[i], k)
    requires states[i + 1].completed == states[i].completed
    ensures !states[i].alive || |states[i].queue| == max
  {
    RunInv(states, actions, max, senders, others, tokens, i);
    RunCalls(states, actions, max, senders, others, tokens, i);
  }

  /** A push that returns with success has stored the item it was called with, behind all others. */
  lemma PushStoresItsItem(states: seq<State>, actions: seq<Action>, max: nat, senders: nat, others: nat,
                          tokens: nat, i: nat, k: nat)
    requires QueueRun(states, actions, max, senders, others, tokens) && i < |actions|
    requires Shape(states[i]) && Enabled(states[i], actions[i]) && PushReturns(states[i], actions[i], k)
    requires states[i + 1].completed != states[i].completed
    ensures states[i].accepted != [] && states[i].accepted[|states[i].accepted| - 1] == states[i].item[k]
    ensures states[i + 1].completed == states[i].completed + 1 && states[i + 1].accepted == states[i].accepted
  {
    RunInv(states, actions, max, senders, others, tokens, i);
    RunCalls(states, actions, max, senders, others, tokens, i);
  }

  /**
   A `Pop` that returns has popped one item since it was called; or none, and then its wait was stopped by its token, or
   saw its deadline pass.
   */
  lemma PopReturnsItem(states: seq<State>, actions: seq<Action>, max: nat, senders: nat, others: nat,
                       tokens: nat, i: nat)
    requires QueueRun(states, actions, max, senders, others, tokens) && i < |actions|
    requires Shape(states[i]) && Enabled(states[i], actions[i]) && PopReturns(states[i], actions[i])
    ensures var s := states[i];
      || |s.popped| == s.before + 1
      || (&& |s.popped| == s.before && s.n.deadline[0] == s.until && s.n.token[0] == s.token
          && (s.n.stopped[s.token] || N.Past(s.n, 0)))
  {
    RunInv(states, actions, max, senders, others, tokens, i);
    RunCalls(states, actions, max, senders, others, tokens, i);
  }
}
