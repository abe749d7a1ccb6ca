/** What a timed wait does with the clock: no wait goes to sleep on a deadline it has seen pass. */
module NotificationDeadlines {
  import opened Wrappers
  import opened NotificationMachine
  import opened NotificationSafety
  import opened NotificationTheorems

  /** Past its look at the clock, and not yet woken or giving up. */
  predicate WaitsOn(pc: Pc) {
    match pc
    case WaitStop | WaitRegister | InlineLock | InlineWake | InlineUnlock => true
    case WaitPredicate | WaitLockInner | WaitStopInner | WaitUnlockOuter | WaitBlock | Blocked | Woken => true
    case GiveUp | CheckStop => true
    case _ => false
  }

  /** About to look at the clock. */
  predicate WillLook(pc: Pc) {
    pc.WaitLock? || pc.WaitClock? || pc.WokenInner? || pc.WaitRelock? || pc.CheckClock?
  }

  /** A timed wait goes on only after a look at the clock that found time left; an untimed wait never looks. */
  predicate InTime(pc: Pc, deadline: Option<Time>, read: Option<Time>) {
    if deadline.None? then read.None? && !ReadsClock(pc)
    else
      && (WaitsOn(pc) ==> read.Some?)
      && (WaitsOn(pc) || WillLook(pc) ==> read.None? || read.value < deadline.value)
  }

  ghost predicate Deadlines(s: State) {
    && Shape(s)
    && forall t :: 0 <= t < |s.threads| ==> InTime(s.threads[t], s.deadline[t], s.read[t])
  }

  lemma OwnDeadline(s: State, t: nat)
    requires Deadlines(s) && t < |s.threads| && Ready(s, t)
    ensures InTime(Next(s, t).threads[t], Next(s, t).deadline[t], Next(s, t).read[t])
  {
  }

  lemma NextDeadlines(s: State, t: nat)
    requires Deadlines(s) && t < |s.threads| && Ready(s, t) && Shape(Next(s, t))
    ensures Deadlines(Next(s, t))
  {
    OwnDeadline(s, t);
    var s' := Next(s, t);
    forall v | 0 <= v < |s.threads| && v != t
      ensures InTime(s'.threads[v], s'.deadline[v], s'.read[v])
    {
      assert s'.deadline[v] == s.deadline[v] && s'.read[v] == s.read[v];
      assert s'.threads[v] == s.threads[v] || (s.threads[v].Blocked? && s'.threads[v].Woken?);
    }
  }

  lemma OtherDeadline(s: State, a: Action, v: nat)
    requires Deadlines(s) && Enabled(s, a) && !a.Step? && v < |s.threads|
    ensures InTime(Apply(s, a).threads[v], Apply(s, a).deadline[v], Apply(s, a).read[v])
  {
    var s' := Apply(s, a);
    assert InTime(s.threads[v], s.deadline[v], s.read[v]);
    if a.Tick? || a.t != v {
      assert s'.threads[v] == s.threads[v] && s'.deadline[v] == s.deadline[v] && s'.read[v] == s.read[v];
    }
  }

  lemma DeadlinesStep(s: State, a: Action)
    requires Deadlines(s) && Enabled(s, a)
    ensures Deadlines(Apply(s, a))
  {
    ShapeStep(s, a);
    if a.Step? {
      NextDeadlines(s, a.t);
    } else {
      var s' := Apply(s, a);
      forall v | 0 <= v < |s.threads| ensures InTime(s'.threads[v], s'.deadline[v], s'.read[v]) {
        OtherDeadline(s, a, v);
      }
    }
  }

  lemma {:induction false} RunDeadlines(states: seq<State>, actions: seq<Action>, n: nat, tokens: nat, i: nat)
    requires NotificationRun(states, actions, n, tokens) && i < |states|
    ensures Deadlines(states[i])
    decreases i
  {
    if i == 0 {
    } else {
      RunDeadlines(states, actions, n, tokens, i - 1);
      DeadlinesStep(states[i - 1], actions[i - 1]);
    }
  }

  /** At step k thread t looked at the clock, and has not been woken or begun a wait since. */
  ghost predicate LookedAt(states: seq<State>, actions: seq<Action>, i: nat, t: nat, k: nat) {
    && k < i < |states| == |actions| + 1
    && actions[k] == Step(t) && t < |states[k].threads| && ReadsClock(states[k].threads[t])
    && forall j :: k < j < i ==> !StartsOver(states[j], actions[j], t)
  }

  /** The thread begins a wait, or goes on after being woken. */
  predicate StartsOver(s: State, a: Action, t: nat) {
    (a.BeginWait? && a.t == t) || (a == Step(t) && t < |s.threads| && s.threads[t].Woken?)
  }

  /** Only a look at the clock gives the wait of t something to remember. */
  lemma ReadStays(s: State, a: Action, t: nat)
    requires Shape(s) && Enabled(s, a) && t < |s.threads| && !(a == Step(t) && ReadsClock(s.threads[t]))
    ensures Shape(Apply(s, a)) && Apply(s, a).read[t] == if StartsOver(s, a, t) then None else s.read[t]
  {
    ShapeStep(s, a);
  }

  lemma LookRead(s: State, t: nat)
    requires Shape(s) && t < |s.threads| && Ready(s, t) && ReadsClock(s.threads[t])
    ensures Shape(Next(s, t)) && Next(s, t).read[t] == Some(s.clock)
  {
    ShapeStep(s, Step(t));
  }

  lemma {:induction false} ReadWasMade(states: seq<State>, actions: seq<Action>, n: nat, tokens: nat, i: nat, t: nat)
    returns (k: nat)
    requires NotificationRun(states, actions, n, tokens) && i < |states| && Shape(states[i])
    requires t < |states[i].threads| && states[i].read[t].Some?
    ensures LookedAt(states, actions, i, t, k) && states[i].read[t].value == states[k].clock
    decreases i
  {
    var before := states[i - 1];
    assert Enabled(before, actions[i - 1]) && states[i] == Apply(before, actions[i - 1]);
    if actions[i - 1] == Step(t) && ReadsClock(before.threads[t]) {
      LookRead(before, t);
      k := i - 1;
    } else {
      ReadStays(before, actions[i - 1], t);
      k := ReadWasMade(states, actions, n, tokens, i - 1, t);
    }
  }

  /**
   In every run, a timed wait that sleeps or is about to has looked at the clock since it began or was last woken, and
   there was time left.
   */
  lemma SleepsInTime(states: seq<State>, actions: seq<Action>, n: nat, tokens: nat, i: nat, t: nat) returns (k: nat)
    requires NotificationRun(states, actions, n, tokens) && i < |states| && Shape(states[i])
    requires t < |states[i].threads| && Sleeping(states[i].threads[t]) && states[i].deadline[t].Some?
    ensures LookedAt(states, actions, i, t, k) && states[k].clock < states[i].deadline[t].value
  {
    RunDeadlines(states, actions, n, tokens, i);
    k := ReadWasMade(states, actions, n, tokens, i, t);
  }

  /** In a call of a wait, up to its end. */
  predicate InCall(pc: Pc) { WaitsOn(pc) || WillLook(pc) || pc.Evaluate? || pc.Deregister? || pc.Return? }

  lemma WaitEnds(s: State, a: Action, t: nat)
    requires Shape(s) && Enabled(s, a) && t < |s.threads| && InCall(s.threads[t]) && Apply(s, a).threads[t].Idle?
    ensures a == Step(t) && s.threads[t].Return?
  {
  }

  /** What a wait hands to its caller is the flag as it is when the wait ends. */
  lemma ResultIsFlag(states: seq<State>, actions: seq<Action>, n: nat, tokens: nat, i: nat, t: nat)
    requires NotificationRun(states, actions, n, tokens) && i < |actions| && Shape(states[i]) && Shape(states[i + 1])
    requires t < |states[i].threads| == |states[i + 1].threads|
    requires InCall(states[i].threads[t]) && states[i + 1].threads[t].Idle?
    ensures states[i + 1].results[t] == states[i].notified
  {
    WaitContractAt(states, actions, n, tokens, i, t);
  }

  lemma WaitContractAt(states: seq<State>, actions: seq<Action>, n: nat, tokens: nat, i: nat, t: nat)
    requires NotificationRun(states, actions, n, tokens) && i < |actions| && Shape(states[i]) && Shape(states[i + 1])
    requires t < |states[i].threads| == |states[i + 1].threads|
    requires InCall(states[i].threads[t]) && states[i + 1].threads[t].Idle?
    ensures states[i].threads[t].Return? && states[i].threads[t].r == states[i].notified
    ensures states[i + 1].results[t] == states[i].threads[t].r
  {
    WaitEnds(states[i], actions[i], t);
    WaitContract(states, actions, n, tokens, i, t);
  }

  /** A wait that has seen its deadline pass never sleeps again: it evaluates the predicate and returns. */
  lemma DeadlineEndsTheWait(states: seq<State>, actions: seq<Action>, n: nat, tokens: nat, i: nat, t: nat)
    requires NotificationRun(states, actions, n, tokens) && i < |states| && Shape(states[i])
    requires t < |states[i].threads| && InCall(states[i].threads[t]) && Past(states[i], t)
    ensures states[i].threads[t].Evaluate? || states[i].threads[t].Deregister? || states[i].threads[t].Return?
  {
    RunDeadlines(states, actions, n, tokens, i);
  }
}
