/** The lifetime of stop callbacks, and the effect of `notify` and `reset`, over every run. */
module NotificationCallbacks {
  import opened Wrappers
  import opened NotificationMachine
  import opened NotificationSafety
  import opened NotificationTheorems

  // ---------------------------------------------------------------- the lifetime of a callback

  /** The wait has yet to destroy its callback. */
  predicate OwnsCallback(pc: Pc) { InsideWait(pc) || pc.Evaluate? || pc.Deregister? }

  /** A callback is listed, or being run, only while the wait that owns it is under way. */
  ghost predicate CallbacksOwned(s: State) {
    && Shape(s)
    && (forall t :: 0 <= t < |s.threads| && s.registered[t] ==> OwnsCallback(s.threads[t]))
    && (forall u, t :: 0 <= u < |s.threads| && 0 <= t < |s.threads| && RunsCallbackOf(s.threads[u], t) ==>
          OwnsCallback(s.threads[t]))
  }

  /** A wait keeps its callback until it is deregistered, which waits for its end. */
  lemma OwnerStays(s: State, a: Action, t: nat)
    requires Shape(s) && Enabled(s, a) && t < |s.threads| && OwnsCallback(s.threads[t])
    requires !(a == Step(t) && s.threads[t].Deregister?)
    ensures OwnsCallback(Apply(s, a).threads[t])
  {
  }

  /** Only a thread that is already at it, or picks it, runs the callback of t. */
  lemma RunsAlready(s: State, a: Action, u: nat, t: nat)
    requires Shape(s) && Enabled(s, a) && u < |s.threads| && t < |s.threads|
    requires RunsCallbackOf(Apply(s, a).threads[u], t)
    ensures RunsCallbackOf(s.threads[u], t) || a == Pick(u, t)
  {
  }

  lemma RegisteredAlready(s: State, a: Action, t: nat)
    requires Shape(s) && Enabled(s, a) && t < |s.threads| && Shape(Apply(s, a)) && Apply(s, a).registered[t]
    ensures (s.registered[t] && !(a == Step(t) && s.threads[t].Deregister?)) || OwnsCallback(Apply(s, a).threads[t])
  {
  }

  lemma CallbacksOwnedStep(s: State, a: Action)
    requires CallbacksOwned(s) && Enabled(s, a)
    ensures CallbacksOwned(Apply(s, a))
  {
    ShapeStep(s, a);
    var s' := Apply(s, a);
    forall t | 0 <= t < |s.threads| && s'.registered[t] ensures OwnsCallback(s'.threads[t]) {
      RegisteredAlready(s, a, t);
      if !OwnsCallback(s'.threads[t]) {
        OwnerStays(s, a, t);
      }
    }
    forall u, t | 0 <= u < |s.threads| && 0 <= t < |s.threads| && RunsCallbackOf(s'.threads[u], t)
      ensures OwnsCallback(s'.threads[t])
    {
      RunsAlready(s, a, u, t);
      OwnerStays(s, a, t);
    }
  }

  // ---------------------------------------------------------------- one thread runs the callbacks of a token

  ghost predicate BothStopping(s: State, u: int, v: int, j: nat) {
    0 <= u < |s.threads| && 0 <= v < |s.threads| && Stopping(s.threads[u], j) && Stopping(s.threads[v], j)
  }

  ghost predicate OneStopper(s: State) {
    forall u, v, j: nat :: BothStopping(s, u, v, j) ==> u == v
  }

  lemma NewStopper(s: State, a: Action, u: nat, j: nat)
    requires Shape(s) && Enabled(s, a) && u < |s.threads|
    requires !Stopping(s.threads[u], j) && Stopping(Apply(s, a).threads[u], j)
    ensures j < |s.stopped| && a == Step(u) && !s.stopped[j]
  {
  }

  lemma OneStopperStep(s: State, a: Action)
    requires StopsRequested(s) && OneStopper(s) && Enabled(s, a)
    ensures OneStopper(Apply(s, a))
  {
    var s' := Apply(s, a);
    forall u, v, j: nat | BothStopping(s', u, v, j) ensures u == v {
      if !Stopping(s.threads[u], j) {
        NewStopper(s, a, u, j);
      }
      if !Stopping(s.threads[v], j) {
        NewStopper(s, a, v, j);
      }
      assert Stopping(s.threads[u], j) && Stopping(s.threads[v], j) ==> BothStopping(s, u, v, j);
    }
  }

  // ---------------------------------------------------------------- the flag

  /** Under the lock `notify` has set the flag and `reset` has cleared it. */
  ghost predicate FlagFollows(s: State) {
    forall t :: 0 <= t < |s.threads| ==>
      (s.threads[t].NotifyUnlock? ==> s.notified) && (s.threads[t].ResetUnlock? ==> !s.notified)
  }

  lemma NextFlagFollows(s: State, t: nat)
    requires Mutexes(s) && FlagFollows(s) && t < |s.threads| && Ready(s, t)
    ensures FlagFollows(Next(s, t))
  {
    var s' := Next(s, t);
    forall v | 0 <= v < |s.threads| && (s'.threads[v].NotifyUnlock? || s'.threads[v].ResetUnlock?)
      ensures s'.notified == s'.threads[v].NotifyUnlock?
    {
      assert v != t ==> s.threads[v] == s'.threads[v] && s.outer == Some(v) && !HoldsOuter(s.threads[t]);
    }
  }

  lemma FlagFollowsStep(s: State, a: Action)
    requires Mutexes(s) && FlagFollows(s) && Enabled(s, a)
    ensures FlagFollows(Apply(s, a))
  {
    if a.Step? {
      NextFlagFollows(s, a.t);
    }
  }

  // ---------------------------------------------------------------- theorems

  ghost predicate Orderly(s: State) { CallbacksOwned(s) && OneStopper(s) && FlagFollows(s) }

  lemma InitOrderly(n: nat, tokens: nat)
    ensures Orderly(Init(n, tokens))
  {
  }

  lemma OrderlyStep(s: State, a: Action)
    requires Mutexes(s) && StopsRequested(s) && Orderly(s) && Enabled(s, a)
    ensures Orderly(Apply(s, a))
  {
    CallbacksOwnedStep(s, a);
    OneStopperStep(s, a);
    FlagFollowsStep(s, a);
  }

  lemma {:induction false} RunOrderly(states: seq<State>, actions: seq<Action>, n: nat, tokens: nat, i: nat)
    requires NotificationRun(states, actions, n, tokens) && i < |states|
    ensures Orderly(states[i])
    decreases i
  {
    if i == 0 {
      InitOrderly(n, tokens);
    } else {
      RunOrderly(states, actions, n, tokens, i - 1);
      RunInv(states, actions, n, tokens, i - 1);
      OrderlyStep(states[i - 1], actions[i - 1]);
    }
  }

  /** In every run a stop callback is listed or run only while the wait that owns it is under way. */
  lemma NoLateCallback(states: seq<State>, actions: seq<Action>, n: nat, tokens: nat, i: nat, t: nat)
    requires NotificationRun(states, actions, n, tokens) && i < |states| && Shape(states[i])
    requires t < |states[i].threads| && !OwnsCallback(states[i].threads[t])
    ensures !states[i].registered[t]
    ensures forall u :: 0 <= u < |states[i].threads| ==> !RunsCallbackOf(states[i].threads[u], t)
  {
    RunOrderly(states, actions, n, tokens, i);
  }

  /** The precondition of `execute`: no two callbacks of a token are run at the same time. */
  lemma OneCallbackAtATime(states: seq<State>, actions: seq<Action>, n: nat, tokens: nat, i: nat,
                           u: nat, v: nat, j: nat)
    requires NotificationRun(states, actions, n, tokens) && i < |states|
    requires u < |states[i].threads| && v < |states[i].threads|
    requires Stopping(states[i].threads[u], j) && Stopping(states[i].threads[v], j)
    ensures u == v
  {
    RunOrderly(states, actions, n, tokens, i);
    assert BothStopping(states[i], u, v, j);
  }

  /** Where `notify` or `reset` gives up the lock, the flag is as it left it. */
  lemma FlagIsStored(states: seq<State>, actions: seq<Action>, n: nat, tokens: nat, i: nat, t: nat)
    requires NotificationRun(states, actions, n, tokens) && i < |states| && t < |states[i].threads|
    ensures states[i].threads[t].NotifyUnlock? ==> states[i].notified
    ensures states[i].threads[t].ResetUnlock? ==> !states[i].notified
  {
    RunOrderly(states, actions, n, tokens, i);
  }
}
