/** What the interruptible waits and the notification promise, over every run. */
module NotificationSafety {
  import opened Wrappers
  import opened NotificationMachine

  // ---------------------------------------------------------------- mutexes

  ghost predicate OuterHeld(s: State) {
    && (forall t :: 0 <= t < |s.threads| ==> (s.outer == Some(t) <==> HoldsOuter(s.threads[t])))
    && (s.outer.Some? ==> s.outer.value < |s.threads|)
  }

  ghost predicate InnerHeld(s: State) {
    && (forall t :: 0 <= t < |s.threads| ==> (s.inner == Some(t) <==> HoldsInner(s.threads[t])))
    && (s.inner.Some? ==> s.inner.value < |s.threads|)
  }

  ghost predicate Mutexes(s: State) { Shape(s) && OuterHeld(s) && InnerHeld(s) }

  lemma ShapeStep(s: State, a: Action)
    requires Shape(s) && Enabled(s, a)
    ensures Shape(Apply(s, a))
  {
  }

  /** A thread holds a mutex after its step if it took it then, or held it and did not release it. */
  lemma HoldsNext(s: State, t: nat)
    requires Shape(s) && t < |s.threads| && Ready(s, t)
    ensures var pc, pc' := s.threads[t], NextPc(s, t);
      && (HoldsOuter(pc') <==> WantsOuter(pc) || (HoldsOuter(pc) && !ReleasesOuter(pc)))
      && (HoldsInner(pc') <==> WantsInner(pc) || (HoldsInner(pc) && !ReleasesInner(pc)))
  {
  }

  lemma NextOuter(s: State, t: nat)
    requires Shape(s) && OuterHeld(s) && t < |s.threads| && Ready(s, t)
    ensures OuterHeld(Next(s, t))
  {
    HoldsNext(s, t);
  }

  lemma NextInner(s: State, t: nat)
    requires Shape(s) && InnerHeld(s) && t < |s.threads| && Ready(s, t)
    ensures InnerHeld(Next(s, t))
  {
    HoldsNext(s, t);
  }

  /** Only a step of a thread takes or releases a mutex. */
  lemma HoldsOther(s: State, a: Action, v: nat)
    requires Shape(s) && Enabled(s, a) && !a.Step? && v < |s.threads|
    ensures HoldsOuter(Apply(s, a).threads[v]) == HoldsOuter(s.threads[v])
    ensures HoldsInner(Apply(s, a).threads[v]) == HoldsInner(s.threads[v])
  {
  }

  lemma OtherMutexes(s: State, a: Action)
    requires Mutexes(s) && Enabled(s, a) && !a.Step?
    ensures OuterHeld(Apply(s, a)) && InnerHeld(Apply(s, a))
  {
    var s' := Apply(s, a);
    assert s'.outer == s.outer && s'.inner == s.inner && |s'.threads| == |s.threads|;
    forall v | 0 <= v < |s.threads|
      ensures (s.outer == Some(v) <==> HoldsOuter(s'.threads[v])) && (s.inner == Some(v) <==> HoldsInner(s'.threads[v]))
    {
      HoldsOther(s, a, v);
    }
  }

  lemma MutexesStep(s: State, a: Action)
    requires Mutexes(s) && Enabled(s, a)
    ensures Mutexes(Apply(s, a))
  {
    ShapeStep(s, a);
    if a.Step? {
      NextOuter(s, a.t);
      NextInner(s, a.t);
    } else {
      OtherMutexes(s, a);
    }
  }

  // ---------------------------------------------------------------- callbacks

  /** The thread has requested stop on token j and has not run all callbacks yet. */
  predicate Stopping(pc: Pc, j: nat) {
    (pc.CallNext? || pc.CallbackLock? || pc.CallbackWake? || pc.CallbackUnlock?) && pc.j == j
  }

  /** Whoever runs the callbacks of a token has requested stop on it. */
  ghost predicate StopsRequested(s: State) {
    && Shape(s)
    && forall u, j: nat :: 0 <= u < |s.threads| && j < |s.stopped| && Stopping(s.threads[u], j) ==> s.stopped[j]
  }

  lemma StopsRequestedStep(s: State, a: Action)
    requires StopsRequested(s) && Enabled(s, a)
    ensures StopsRequested(Apply(s, a))
  {
    ShapeStep(s, a);
    var s' := Apply(s, a);
    forall u, j: nat | 0 <= u < |s.threads| && j < |s.stopped| && Stopping(s'.threads[u], j) ensures s'.stopped[j] {
      if !Stopping(s.threads[u], j) {
        BecomesStopping(s, a, u, j);
      }
    }
  }

  lemma BecomesStopping(s: State, a: Action, u: nat, j: nat)
    requires Shape(s) && Enabled(s, a) && u < |s.threads| && j < |s.stopped|
    requires !Stopping(s.threads[u], j) && Stopping(Apply(s, a).threads[u], j)
    ensures a == Step(u) && s.threads[u] == StopSet(j)
  {
  }

  /** Between registering and deregistering the callback is listed, unless stop was requested. */
  ghost predicate CallbacksListed(s: State) {
    && Shape(s)
    && forall t :: 0 <= t < |s.threads| && InsideWait(s.threads[t]) ==> s.registered[t] || StopSeen(s, t)
  }

  predicate InsideWait(pc: Pc) {
    match pc
    case InlineLock | InlineWake | InlineUnlock => true
    case WaitPredicate | WaitLockInner | WaitStopInner | WaitUnlockOuter | WaitBlock | Blocked => true
    case Woken | WokenInner | WaitRelock | GiveUp | CheckClock | CheckStop => true
    case _ => false
  }

  lemma NextCallbacksListed(s: State, t: nat)
    requires CallbacksListed(s) && t < |s.threads| && Ready(s, t) && Shape(Next(s, t))
    ensures CallbacksListed(Next(s, t))
  {
    var s' := Next(s, t);
    assert InsideWait(s'.threads[t]) ==> s'.registered[t] || StopSeen(s', t);
  }

  lemma OtherCallbacksListed(s: State, a: Action)
    requires CallbacksListed(s) && StopsRequested(s) && Enabled(s, a) && !a.Step? && Shape(Apply(s, a))
    ensures CallbacksListed(Apply(s, a))
  {
    if a.Pick? {
      assert Stopping(s.threads[a.t], s.token[a.i]);
    }
  }

  lemma CallbacksListedStep(s: State, a: Action)
    requires CallbacksListed(s) && StopsRequested(s) && Enabled(s, a)
    ensures CallbacksListed(Apply(s, a))
  {
    ShapeStep(s, a);
    if a.Step? {
      NextCallbacksListed(s, a.t);
    } else {
      OtherCallbacksListed(s, a);
    }
  }

  // ---------------------------------------------------------------- results

  /** What a wait knows under `mutex_`: the predicate was false, or its result is the predicate, and why it gives up. */
  predicate Knows(pc: Pc, notified: bool, stopped: bool, expired: bool) {
    match pc
    case InlineLock | InlineWake | InlineUnlock => stopped
    case WaitLockInner | WaitStopInner | WaitUnlockOuter => !notified
    case GiveUp => !notified && stopped
    case Evaluate => stopped || expired
    case Deregister(r) => r == notified && (!r ==> stopped || expired)
    case Return(r) => r == notified && (!r ==> stopped || expired)
    case _ => true
  }

  ghost predicate Results(s: State) {
    && Shape(s)
    && forall t :: 0 <= t < |s.threads| ==> Knows(s.threads[t], s.notified, StopSeen(s, t), Past(s, t))
  }

  lemma OwnResult(s: State, t: nat)
    requires Mutexes(s) && Results(s) && t < |s.threads| && Ready(s, t)
    ensures var s' := Next(s, t); Shape(s') && Knows(s'.threads[t], s'.notified, StopSeen(s', t), Past(s', t))
  {
    ShapeStep(s, Step(t));
  }

  lemma OthersResult(s: State, t: nat, v: nat)
    requires Mutexes(s) && Results(s) && t < |s.threads| && Ready(s, t) && v < |s.threads| && v != t
    ensures var s' := Next(s, t); Shape(s') && Knows(s'.threads[v], s'.notified, StopSeen(s', v), Past(s', v))
  {
    ShapeStep(s, Step(t));
    var s' := Next(s, t);
    assert s'.notified != s.notified ==> HoldsOuter(s.threads[t]) && !HoldsOuter(s.threads[v]);
    assert Past(s', v) == Past(s, v) && (StopSeen(s, v) ==> StopSeen(s', v));
  }

  lemma NextResults(s: State, t: nat)
    requires Mutexes(s) && Results(s) && t < |s.threads| && Ready(s, t)
    ensures Results(Next(s, t))
  {
    OwnResult(s, t);
    forall v | 0 <= v < |s.threads| && v != t
      ensures var s' := Next(s, t); Knows(s'.threads[v], s'.notified, StopSeen(s', v), Past(s', v))
    {
      OthersResult(s, t, v);
    }
  }

  lemma KnowsOther(s: State, a: Action, v: nat)
    requires Results(s) && Enabled(s, a) && !a.Step? && v < |s.threads| && Shape(Apply(s, a))
    ensures var s' := Apply(s, a); Knows(s'.threads[v], s'.notified, StopSeen(s', v), Past(s', v))
  {
    assert Knows(s.threads[v], s.notified, StopSeen(s, v), Past(s, v));
  }

  lemma ResultsStep(s: State, a: Action)
    requires Mutexes(s) && Results(s) && Enabled(s, a)
    ensures Results(Apply(s, a))
  {
    ShapeStep(s, a);
    if a.Step? {
      NextResults(s, a.t);
    } else {
      forall v | 0 <= v < |s.threads|
        ensures var s' := Apply(s, a); Knows(s'.threads[v], s'.notified, StopSeen(s', v), Past(s', v))
      {
        KnowsOther(s, a, v);
      }
    }
  }

  // ---------------------------------------------------------------- stop and notify handshakes

  /** The thread is past its last look at the stop flag, or asleep. */
  predicate Sleeping(pc: Pc) { pc.WaitUnlockOuter? || pc.WaitBlock? || pc.Blocked? }

  predicate AboutToWake(pc: Pc, t: nat) { (pc.CallbackLock? || pc.CallbackWake?) && pc.i == t }

  ghost predicate SomeStopping(s: State, j: nat) {
    exists u :: 0 <= u < |s.threads| && Stopping(s.threads[u], j)
  }

  /** The callback of t is being run and will wake it, or is listed and some thread runs those of its token. */
  ghost predicate CallbackOutstanding(s: State, t: nat)
    requires Shape(s) && t < |s.threads|
  {
    || (exists u :: 0 <= u < |s.threads| && AboutToWake(s.threads[u], t))
    || (s.registered[t] && SomeStopping(s, s.token[t]))
  }

  ghost predicate StopHandshake(s: State) {
    && Shape(s)
    && forall t :: 0 <= t < |s.threads| && Sleeping(s.threads[t]) && StopSeen(s, t) ==> CallbackOutstanding(s, t)
  }

  /** A thread that runs callbacks goes on until none is listed. */
  lemma StopperGoesOn(s: State, a: Action, u: nat, j: nat, i: nat)
    requires Shape(s) && Enabled(s, a) && u < |s.threads| && Stopping(s.threads[u], j)
    requires i < |s.threads| && Listed(s, i, j)
    ensures Stopping(Apply(s, a).threads[u], j)
  {
    if a.Step? && a.t != u {
      assert Next(s, a.t).threads[u] == s.threads[u];
    }
  }

  lemma StoppingStays(s: State, a: Action, j: nat, i: nat)
    requires Shape(s) && Enabled(s, a) && SomeStopping(s, j) && i < |s.threads| && Listed(s, i, j)
    ensures SomeStopping(Apply(s, a), j)
  {
    var u :| 0 <= u < |s.threads| && Stopping(s.threads[u], j);
    StopperGoesOn(s, a, u, j, i);
  }

  lemma AboutToWakeStays(s: State, a: Action, u: nat, t: nat)
    requires Shape(s) && Enabled(s, a) && u < |s.threads| && AboutToWake(s.threads[u], t)
    requires !(a.Step? && WakesAll(s.threads[a.t]))
    ensures AboutToWake(Apply(s, a).threads[u], t)
  {
  }

  /** A listed callback of a thread in its wait stays listed until it is picked. */
  lemma ListedStays(s: State, a: Action, t: nat)
    requires Shape(s) && Enabled(s, a) && t < |s.threads| && Sleeping(s.threads[t]) && s.registered[t]
    requires !(a.Pick? && a.i == t)
    ensures Shape(Apply(s, a)) && Apply(s, a).registered[t] && Apply(s, a).token[t] == s.token[t]
  {
    ShapeStep(s, a);
  }

  /** The duty to wake t is kept until everyone is woken. */
  lemma DutyStays(s: State, a: Action, t: nat)
    requires Shape(s) && Enabled(s, a) && t < |s.threads| && CallbackOutstanding(s, t) && Sleeping(s.threads[t])
    requires !(a.Step? && WakesAll(s.threads[a.t])) && Shape(Apply(s, a))
    ensures CallbackOutstanding(Apply(s, a), t)
  {
    if u :| 0 <= u < |s.threads| && AboutToWake(s.threads[u], t) {
      AboutToWakeStays(s, a, u, t);
    } else if a.Pick? && a.i == t {
      assert AboutToWake(Apply(s, a).threads[a.t], t);
    } else {
      ListedStays(s, a, t);
      StoppingStays(s, a, s.token[t], t);
    }
  }

  /** Whoever wakes everyone holds inner, so afterwards no thread is asleep or about to be. */
  lemma AllAwake(s: State, t: nat, v: nat)
    requires Mutexes(s) && t < |s.threads| && Ready(s, t) && WakesAll(s.threads[t]) && v < |s.threads|
    ensures !Sleeping(Next(s, t).threads[v])
  {
  }

  lemma NewSleeperNotStopped(s: State, a: Action, v: nat)
    requires Mutexes(s) && Enabled(s, a) && v < |s.threads| && Shape(Apply(s, a))
    requires Sleeping(Apply(s, a).threads[v]) && !Sleeping(s.threads[v])
    ensures !StopSeen(Apply(s, a), v)
  {
  }

  /** A stop that reaches a sleeper finds its callback listed. */
  lemma NewStop(s: State, a: Action, v: nat)
    requires CallbacksListed(s) && Enabled(s, a) && v < |s.threads| && Shape(Apply(s, a))
    requires Sleeping(s.threads[v]) && !StopSeen(s, v) && StopSeen(Apply(s, a), v)
    ensures CallbackOutstanding(Apply(s, a), v)
  {
    assert s.threads[a.t] == StopSet(s.token[v]);
    assert Stopping(Apply(s, a).threads[a.t], s.token[v]);
  }

  lemma StopHandshakeAt(s: State, a: Action, v: nat)
    requires Mutexes(s) && CallbacksListed(s) && StopHandshake(s) && Enabled(s, a) && v < |s.threads|
    requires Shape(Apply(s, a)) && Sleeping(Apply(s, a).threads[v]) && StopSeen(Apply(s, a), v)
    ensures CallbackOutstanding(Apply(s, a), v)
  {
    if a.Step? && WakesAll(s.threads[a.t]) {
      AllAwake(s, a.t, v);
    } else if !Sleeping(s.threads[v]) {
      NewSleeperNotStopped(s, a, v);
    } else if StopSeen(s, v) {
      DutyStays(s, a, v);
    } else {
      NewStop(s, a, v);
    }
  }

  lemma StopHandshakeStep(s: State, a: Action)
    requires Mutexes(s) && CallbacksListed(s) && StopHandshake(s) && Enabled(s, a)
    ensures StopHandshake(Apply(s, a))
  {
    ShapeStep(s, a);
    var s' := Apply(s, a);
    forall v | 0 <= v < |s.threads| && Sleeping(s'.threads[v]) && StopSeen(s', v) ensures CallbackOutstanding(s', v) {
      StopHandshakeAt(s, a, v);
    }
  }

  /** The notifier has set the flag and has yet to wake everyone. */
  predicate Notifying(pc: Pc) { pc.NotifyUnlock? || pc.NotifyLockInner? || pc.NotifyWake? }

  ghost predicate NotifyOutstanding(s: State) {
    exists u :: 0 <= u < |s.threads| && Notifying(s.threads[u])
  }

  ghost predicate NotifyHandshake(s: State) {
    && Shape(s)
    && (s.notified && (exists t :: 0 <= t < |s.threads| && Sleeping(s.threads[t])) ==> NotifyOutstanding(s))
  }

  lemma NotifyStays(s: State, a: Action)
    requires Shape(s) && Enabled(s, a) && NotifyOutstanding(s)
    requires !(a.Step? && WakesAll(s.threads[a.t]))
    ensures NotifyOutstanding(Apply(s, a))
  {
    var u :| 0 <= u < |s.threads| && Notifying(s.threads[u]);
    assert Notifying(Apply(s, a).threads[u]);
  }

  lemma NewSleeperNotNotified(s: State, a: Action, v: nat)
    requires Mutexes(s) && Results(s) && Enabled(s, a) && v < |s.threads|
    requires Sleeping(Apply(s, a).threads[v]) && !Sleeping(s.threads[v])
    ensures !Apply(s, a).notified
  {
  }

  lemma NotifyHandshakeStep(s: State, a: Action)
    requires Mutexes(s) && Results(s) && NotifyHandshake(s) && Enabled(s, a)
    ensures NotifyHandshake(Apply(s, a))
  {
    ShapeStep(s, a);
    var s' := Apply(s, a);
    if s'.notified && exists t :: 0 <= t < |s.threads| && Sleeping(s'.threads[t]) {
      var v :| 0 <= v < |s.threads| && Sleeping(s'.threads[v]);
      if a.Step? && WakesAll(s.threads[a.t]) {
        AllAwake(s, a.t, v);
      } else if !s.notified {
        assert s.threads[a.t].NotifySet?;
        assert Notifying(s'.threads[a.t]);
      } else if Sleeping(s.threads[v]) {
        NotifyStays(s, a);
      } else {
        NewSleeperNotNotified(s, a, v);
      }
    }
  }
}
