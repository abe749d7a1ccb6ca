/** No schedule keeps waits, notifications and stop requests busy for ever. */
module NotificationProgress {
  import opened Counting
  import opened NotificationMachine
  import opened NotificationSafety
  import opened NotificationTheorems

  const WAKE := 17

  /** What one listed callback may cost: a few steps, and waking every thread. */
  function CallbackCost(n: nat): nat { WAKE * n + 4 }

  /** An upper bound on the steps of a thread before it is idle or asleep; `stopped` is the flag of its token. */
  function Rank(pc: Pc, stopped: bool, n: nat): nat {
    match pc
    case Idle | Blocked => 0
    // a wait
    case Return(_) | WaitBlock => 1
    case Deregister(_) | WaitUnlockOuter => 2
    case Evaluate => 3
    case CheckStop => if stopped then 4 else 13
    case CheckClock => if stopped then 5 else 14
    case GiveUp => 6
    case WaitStopInner => 9
    case WaitLockInner => 10
    case WaitPredicate => 11
    case WaitRelock => 15
    case WokenInner => 16
    case Woken => WAKE
    case InlineUnlock => 12
    case InlineWake => WAKE * n + 13
    case InlineLock => WAKE * n + 14
    case WaitRegister => CallbackCost(n) + 15
    case WaitStop => CallbackCost(n) + 16
    case WaitClock => CallbackCost(n) + 17
    case WaitLock => CallbackCost(n) + 18
    // notify, reset, stop
    case NotifyUnlockInner | ResetUnlock | CallNext(_) => 1
    case ResetSet | StopSet(_) | CallbackUnlock(_, _) => 2
    case ResetLock => 3
    case NotifyWake => WAKE * n + 2
    case NotifyLockInner | CallbackWake(_, _) => WAKE * n + 3
    case NotifyUnlock | CallbackLock(_, _) => WAKE * n + 4
    case NotifySet => WAKE * n + 5
    case NotifyLock => WAKE * n + 6
  }

  /** What thread t, and its callback if that is listed, may still cause. */
  function Work(s: State, t: nat): nat
    requires t < |s.threads| == |s.token| == |s.registered| && s.token[t] < |s.stopped|
  {
    Rank(s.threads[t], StopSeen(s, t), |s.threads|) + if s.registered[t] then CallbackCost(|s.threads|) else 0
  }

  ghost function Works(s: State): (r: seq<nat>)
    requires Shape(s)
    ensures |r| == |s.threads| && forall t :: 0 <= t < |r| ==> r[t] == Work(s, t)
  {
    seq(|s.threads|, t requires 0 <= t < |s.threads| && Shape(s) => Work(s, t))
  }

  ghost function Measure(s: State): nat
    requires Shape(s)
  {
    Sum(Works(s))
  }

  // ---------------------------------------------------------------- steps of the threads

  function WakeCost(pc: Pc, n: nat): nat { if WakesAll(pc) then WAKE * n else 0 }

  lemma RankDrops(s: State, t: nat)
    requires Mutexes(s) && Results(s) && t < |s.threads| && Ready(s, t)
    ensures var pc, n := s.threads[t], |s.threads|;
      Rank(NextPc(s, t), StopSeen(s, t), n) + WakeCost(pc, n)
      + (if pc.WaitRegister? && !StopSeen(s, t) then CallbackCost(n) else 0) < Rank(pc, StopSeen(s, t), n)
  {
    assert Knows(s.threads[t], s.notified, StopSeen(s, t), Past(s, t));
  }

  lemma OwnWorkDrops(s: State, t: nat)
    requires Mutexes(s) && Results(s) && t < |s.threads| && Ready(s, t) && Shape(Next(s, t))
    ensures Work(Next(s, t), t) + WakeCost(s.threads[t], |s.threads|) < Work(s, t)
  {
    RankDrops(s, t);
    assert StopSeen(Next(s, t), t) != StopSeen(s, t) ==> Next(s, t).threads[t].CallNext?;
  }

  lemma OthersWork(s: State, t: nat, v: nat)
    requires Shape(s) && t < |s.threads| && Ready(s, t) && Shape(Next(s, t)) && v < |s.threads| && v != t
    ensures Work(Next(s, t), v) <= Work(s, v) + if WakesAll(s.threads[t]) then WAKE else 0
  {
    var s' := Next(s, t);
    assert s'.registered[v] == s.registered[v] && s'.token[v] == s.token[v];
    assert StopSeen(s, v) ==> StopSeen(s', v);
  }

  lemma StepMeasure(s: State, t: nat)
    requires Mutexes(s) && Results(s) && t < |s.threads| && Ready(s, t)
    ensures Shape(Next(s, t)) && Measure(Next(s, t)) < Measure(s)
  {
    ShapeStep(s, Step(t));
    var s' := Next(s, t);
    var d := if WakesAll(s.threads[t]) then WAKE else 0;
    var mid := Works(s)[t := Work(s', t)];
    OwnWorkDrops(s, t);
    SumUpdate(Works(s), t, Work(s', t));
    forall v | 0 <= v < |s.threads| ensures Works(s')[v] <= mid[v] + d {
      if v != t {
        OthersWork(s, t, v);
      }
    }
    SumGrows(mid, Works(s'), d);
  }

  lemma PickWork(s: State, u: nat, i: nat, v: nat)
    requires Shape(s) && Enabled(s, Pick(u, i)) && Shape(Apply(s, Pick(u, i))) && v < |s.threads|
    ensures var n := |s.threads|;
      Work(Apply(s, Pick(u, i)), v)
      == Work(s, v) + (if v == u then WAKE * n + 3 else 0) - (if v == i then CallbackCost(n) else 0)
  {
  }

  /** Starting a callback costs less than having it listed. */
  lemma PickMeasure(s: State, u: nat, i: nat)
    requires Shape(s) && Enabled(s, Pick(u, i)) && Shape(Apply(s, Pick(u, i)))
    ensures Measure(Apply(s, Pick(u, i))) < Measure(s)
  {
    var s' := Apply(s, Pick(u, i));
    var works, works' := Works(s), Works(s');
    forall v | 0 <= v < |s.threads| ensures works'[v] == if v == u || v == i then Work(s', v) else works[v] {
      PickWork(s, u, i, v);
    }
    PickWork(s, u, i, u);
    PickWork(s, u, i, i);
    var mid := works[u := works'[u]];
    assert works' == mid[i := works'[i]];
    SumUpdate(works, u, works'[u]);
    SumUpdate(mid, i, works'[i]);
  }

  predicate Internal(a: Action) { a.Step? || a.Pick? }

  predicate External(a: Action) { !Internal(a) }

  /** Every step of a call, and every callback started, brings the threads closer to rest. */
  lemma InternalMeasureStep(s: State, a: Action)
    requires Mutexes(s) && Results(s) && Enabled(s, a) && Internal(a)
    ensures Shape(Apply(s, a)) && Measure(Apply(s, a)) < Measure(s)
  {
    ShapeStep(s, a);
    if a.Step? {
      StepMeasure(s, a.t);
    } else {
      PickMeasure(s, a.t, a.i);
    }
  }

  // ---------------------------------------------------------------- new calls, wake-ups, and the clock

  /** What a new call, or a spurious wake-up or timeout, may add. */
  function CallCost(n: nat): nat { CallbackCost(n) + 18 }

  lemma ExternalMeasureStep(s: State, a: Action)
    requires Shape(s) && Enabled(s, a) && External(a)
    ensures Shape(Apply(s, a)) && Measure(Apply(s, a)) <= Measure(s) + CallCost(|s.threads|)
  {
    ShapeStep(s, a);
    var s' := Apply(s, a);
    if a.Tick? {
      assert Works(s') == Works(s);
    } else {
      NewWork(s, a);
      assert Works(s') == Works(s)[a.t := Work(s', a.t)];
      SumUpdate(Works(s), a.t, Work(s', a.t));
    }
  }

  lemma NewWork(s: State, a: Action)
    requires Shape(s) && Enabled(s, a) && External(a) && !a.Tick? && Shape(Apply(s, a))
    ensures Work(Apply(s, a), a.t) <= Work(s, a.t) + CallCost(|s.threads|)
    ensures forall v :: 0 <= v < |s.threads| && v != a.t ==> Work(Apply(s, a), v) == Work(s, v)
  {
  }

  // ---------------------------------------------------------------- theorems

  lemma {:induction false} RunThreads(states: seq<State>, actions: seq<Action>, n: nat, tokens: nat, i: nat)
    requires NotificationRun(states, actions, n, tokens) && i < |states|
    ensures |states[i].threads| == n
    decreases i
  {
    if i == 0 {
    } else {
      RunThreads(states, actions, n, tokens, i - 1);
      assert states[i] == Apply(states[i - 1], actions[i - 1]);
    }
  }

  lemma RunMeasureStep(states: seq<State>, actions: seq<Action>, n: nat, tokens: nat, i: nat)
    requires NotificationRun(states, actions, n, tokens) && i < |actions|
    ensures Charged(Measure(states[i]), actions[i], Measure(states[i + 1]), Internal, CallCost(n))
  {
    RunInv(states, actions, n, tokens, i);
    RunThreads(states, actions, n, tokens, i);
    if Internal(actions[i]) {
      InternalMeasureStep(states[i], actions[i]);
    } else {
      ExternalMeasureStep(states[i], actions[i]);
    }
  }

  lemma {:induction false} SumOfNought(xs: seq<nat>)
    requires forall i :: 0 <= i < |xs| ==> xs[i] == 0
    ensures Sum(xs) == 0
  {
    if xs == [] {
    } else {
      SumOfNought(xs[..|xs| - 1]);
    }
  }

  /**
   In every run the steps inside calls are bounded by a constant for each call, each spurious wake-up or timeout, and
   each change of the clock: once these cease, every call ends or falls asleep.
   */
  lemma BoundedRun(states: seq<State>, actions: seq<Action>, n: nat, tokens: nat, i: nat)
    requires NotificationRun(states, actions, n, tokens) && i < |states|
    ensures Count(actions[..i], Internal) <= CallCost(n) * Count(actions[..i], External)
  {
    var measures: seq<nat> := seq(|states|, k requires 0 <= k < |states| => Measure(states[k]));
    forall k | 0 <= k < |actions| ensures Charged(measures[k], actions[k], measures[k + 1], Internal, CallCost(n)) {
      RunMeasureStep(states, actions, n, tokens, k);
    }
    BoundedCharges(measures, actions, Internal, External, CallCost(n), i);
    SumOfNought(Works(states[0]));
    BudgetIsProduct(CallCost(n), Count(actions[..i], External));
  }

  /**
   Where a run can go no further by itself, every thread is idle or asleep in a wait whose flag is clear and whose
   token was not stopped.
   */
  lemma StuckMeansJustified(states: seq<State>, actions: seq<Action>, n: nat, tokens: nat, i: nat, t: nat)
    requires NotificationRun(states, actions, n, tokens) && i < |states| && Shape(states[i])
    requires forall a :: Internal(a) ==> !Enabled(states[i], a)
    requires t < |states[i].threads|
    ensures var s := states[i];
      s.threads[t].Idle? || (s.threads[t].Blocked? && !s.notified && !StopSeen(s, t))
  {
    RunInv(states, actions, n, tokens, i);
    if !AtRest(states[i]) {
      var a := NoDeadlock(states[i]);
      assert Internal(a);
    }
    if states[i].threads[t].Blocked? {
      SleepIsJustified(states[i], t);
    } else {
      assert Resting(states[i].threads[t]);
    }
  }
}
