/** The promises of `wait`, `wait_until`, `notify` and `request_stop`, over every run. */
module NotificationTheorems {
  import opened Wrappers
  import opened NotificationMachine
  import opened NotificationSafety

  ghost predicate Inv(s: State) {
    && Mutexes(s) && StopsRequested(s) && CallbacksListed(s) && Results(s)
    && StopHandshake(s) && NotifyHandshake(s)
  }

  lemma InitInv(n: nat, tokens: nat)
    ensures Inv(Init(n, tokens))
  {
  }

  lemma InvStep(s: State, a: Action)
    requires Inv(s) && Enabled(s, a)
    ensures Inv(Apply(s, a))
  {
    MutexesStep(s, a);
    StopsRequestedStep(s, a);
    CallbacksListedStep(s, a);
    ResultsStep(s, a);
    StopHandshakeStep(s, a);
    NotifyHandshakeStep(s, a);
  }

  ghost predicate NotificationRun(states: seq<State>, actions: seq<Action>, n: nat, tokens: nat) {
    IsRun(states, actions) && states[0] == Init(n, tokens)
  }

  lemma {:induction false} RunInv(states: seq<State>, actions: seq<Action>, n: nat, tokens: nat, i: nat)
    requires NotificationRun(states, actions, n, tokens) && i < |states|
    ensures Inv(states[i])
    decreases i
  {
    if i == 0 {
      InitInv(n, tokens);
    } else {
      RunInv(states, actions, n, tokens, i - 1);
      InvStep(states[i - 1], actions[i - 1]);
    }
  }

  /**
   Whenever a wait, timed or not, has a result, the waiting thread holds the caller's mutex, the
   result is the predicate in that very state, and false means that stop was requested or the
   deadline of a timed wait has passed.
   */
  lemma WaitContract(states: seq<State>, actions: seq<Action>, n: nat, tokens: nat, i: nat, t: nat)
    requires NotificationRun(states, actions, n, tokens) && i < |states| && Shape(states[i])
    requires t < |states[i].threads| && states[i].threads[t].Return?
    ensures states[i].outer == Some(t) && states[i].inner != Some(t)
    ensures states[i].threads[t].r == states[i].notified
    ensures !states[i].threads[t].r ==> StopSeen(states[i], t) || Past(states[i], t)
  {
    RunInv(states, actions, n, tokens, i);
    assert HoldsOuter(states[i].threads[t]) && !HoldsInner(states[i].threads[t]);
    assert Knows(states[i].threads[t], states[i].notified, StopSeen(states[i], t), Past(states[i], t));
  }

  /** Neither a stop nor a notification is lost on a sleeping thread: its wake-up is still to come. */
  lemma NoLostStopOrNotify(states: seq<State>, actions: seq<Action>, n: nat, tokens: nat, i: nat, t: nat)
    requires NotificationRun(states, actions, n, tokens) && i < |states| && Shape(states[i])
    requires t < |states[i].threads| && states[i].threads[t].Blocked?
    ensures StopSeen(states[i], t) ==> CallbackOutstanding(states[i], t)
    ensures states[i].notified ==> exists u :: 0 <= u < |states[i].threads| && Notifying(states[i].threads[u])
  {
    RunInv(states, actions, n, tokens, i);
    var s := states[i];
    assert Sleeping(s.threads[t]);
    assert s.notified ==> NotifyOutstanding(s);
  }

  /** No thread is handed the caller's mutex while it holds the inner one. */
  lemma LockOrder(s: State, a: Action)
    requires Mutexes(s) && Enabled(s, a) && Apply(s, a).outer.Some? && Apply(s, a).outer != s.outer
    ensures s.inner != Apply(s, a).outer
  {
  }

  predicate Resting(pc: Pc) { pc.Idle? || pc.Blocked? }

  ghost predicate AtRest(s: State) { forall t :: 0 <= t < |s.threads| ==> Resting(s.threads[t]) }

  ghost predicate SomeCallback(s: State) {
    exists u, i: nat :: 0 <= u < |s.threads| && RunsCallbackOf(s.threads[u], i)
  }

  /** The next step of a thread that has none but this to wait for. */
  lemma GoesOn(s: State, t: nat) returns (a: Action)
    requires Mutexes(s) && t < |s.threads| && !Resting(s.threads[t])
    requires (WantsOuter(s.threads[t]) ==> s.outer.None?) && (WantsInner(s.threads[t]) ==> s.inner.None?)
    requires s.threads[t].Deregister? ==> !SomeCallback(s)
    ensures Enabled(s, a) && (a.Step? || a.Pick?) && a.t == t
  {
    if i :| 0 <= i < |s.threads| && s.threads[t].CallNext? && Listed(s, i, s.threads[t].j) {
      a := Pick(t, i);
    } else {
      a := Step(t);
    }
  }

  /** In every reachable state some thread can go on, unless each is idle or asleep. */
  lemma NoDeadlock(s: State) returns (a: Action)
    requires Inv(s) && !AtRest(s)
    ensures Enabled(s, a) && (a.Step? || a.Pick?)
  {
    if s.inner.Some? {
      assert HoldsInner(s.threads[s.inner.value]);
      a := GoesOn(s, s.inner.value);
    } else if SomeCallback(s) {
      var u, i: nat :| 0 <= u < |s.threads| && RunsCallbackOf(s.threads[u], i);
      a := GoesOn(s, u);
    } else if s.outer.Some? {
      assert HoldsOuter(s.threads[s.outer.value]);
      a := GoesOn(s, s.outer.value);
    } else {
      var t :| 0 <= t < |s.threads| && !Resting(s.threads[t]);
      a := GoesOn(s, t);
    }
  }

  /** When nothing can go on, whoever sleeps was neither stopped nor notified. */
  lemma SleepIsJustified(s: State, t: nat)
    requires Inv(s) && AtRest(s) && t < |s.threads| && s.threads[t].Blocked?
    ensures !s.notified && !StopSeen(s, t)
  {
    assert Sleeping(s.threads[t]);
  }
}
