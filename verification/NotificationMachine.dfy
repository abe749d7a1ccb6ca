/**
 `NotificationBasic` as a step machine: `waitWithAbort`, `waitForWithAbort`, `notify` and `reset`,
 with the interruptible `wait` and the predicate `wait_until` of the condition variable inlined,
 and stop requests that arrive at any moment.

 The predicate of the waits is `notified_yet_`, guarded by `mutex_` (here `outer`); the condition
 variable's private mutex is `inner`.  Each lock, unlock, block, wake-up, flag load or store and
 clock read is one step.  The clock may jump in either direction.
 */
module NotificationMachine {
  import opened Wrappers

  type Time = nat

  datatype Pc =
    | Idle
    // waitWithAbort, waitForWithAbort
    | WaitLock              // about to lock outer
    | WaitClock             // outer; timed wait only: has the deadline passed already?
    | WaitStop              // outer; loads the stop flag on entry
    | WaitRegister          // outer; constructs the stop callback
    | InlineLock            // outer; callback runs at once
    | InlineWake            // outer, inner
    | InlineUnlock          // outer, inner
    | WaitPredicate         // outer
    | WaitLockInner         // outer
    | WaitStopInner         // outer, inner; loads the stop flag under inner
    | WaitUnlockOuter       // outer, inner
    | WaitBlock             // inner; gives inner up and blocks, atomically
    | Blocked
    | Woken                 // about to lock inner again
    | WokenInner            // inner
    | WaitRelock            // about to lock outer again
    | GiveUp                // outer, inner; stop was seen, about to unlock inner
    | CheckClock            // outer; timed wait only
    | CheckStop             // outer; timed wait only
    | Evaluate              // outer; returns the predicate
    | Deregister(r: bool)   // outer; destroys the stop callback
    | Return(r: bool)       // outer; the wait has returned r
    // notify
    | NotifyLock
    | NotifySet             // outer
    | NotifyUnlock          // outer
    | NotifyLockInner
    | NotifyWake            // inner
    | NotifyUnlockInner     // inner
    // reset
    | ResetLock
    | ResetSet              // outer
    | ResetUnlock           // outer
    // request_stop on token j; i is the thread whose callback is run
    | StopSet(j: nat)
    | CallNext(j: nat)               // looks for a callback that has not been started
    | CallbackLock(j: nat, i: nat)
    | CallbackWake(j: nat, i: nat)   // inner
    | CallbackUnlock(j: nat, i: nat) // inner

  /**
   Any number of threads may wait with the same stop token: `token[t]` is the one of the current or
   last wait of thread t.  `registered[t]` says that its callback is listed and has not been started.
   `deadline[t]` is None for the untimed wait, `read[t]` is what its wait read from the clock since it
   began or was last woken, `results[t]` what its last wait returned.
   */
  datatype State = State(
    notified: bool,
    outer: Option<nat>,
    inner: Option<nat>,
    stopped: seq<bool>,
    token: seq<nat>,
    registered: seq<bool>,
    clock: Time,
    threads: seq<Pc>,
    deadline: seq<Option<Time>>,
    read: seq<Option<Time>>,
    results: seq<bool>)

  datatype Action =
    | Step(t: nat)
    | Wake(t: nat)                                 // spurious, or the timed wait's timeout
    | Tick(now: Time)
    | Pick(t: nat, i: nat)                         // the stopping thread t starts the callback of thread i
    | BeginWait(t: nat, until: Option<Time>, j: nat)
    | BeginNotify(t: nat)
    | BeginReset(t: nat)
    | BeginStop(t: nat, j: nat)

  predicate HoldsOuter(pc: Pc) {
    match pc
    case WaitClock | WaitStop | WaitRegister | InlineLock | InlineWake | InlineUnlock => true
    case WaitPredicate | WaitLockInner | WaitStopInner | WaitUnlockOuter | GiveUp => true
    case CheckClock | CheckStop | Evaluate | Deregister(_) | Return(_) => true
    case NotifySet | NotifyUnlock | ResetSet | ResetUnlock => true
    case _ => false
  }

  predicate HoldsInner(pc: Pc) {
    match pc
    case InlineWake | InlineUnlock | WaitStopInner | WaitUnlockOuter | WaitBlock | WokenInner | GiveUp => true
    case NotifyWake | NotifyUnlockInner | CallbackWake(_, _) | CallbackUnlock(_, _) => true
    case _ => false
  }

  predicate WantsOuter(pc: Pc) { pc.WaitLock? || pc.WaitRelock? || pc.NotifyLock? || pc.ResetLock? }

  predicate WantsInner(pc: Pc) {
    pc.InlineLock? || pc.WaitLockInner? || pc.Woken? || pc.NotifyLockInner? || pc.CallbackLock?
  }

  predicate ReleasesOuter(pc: Pc) { pc.WaitUnlockOuter? || pc.Return? || pc.NotifyUnlock? || pc.ResetUnlock? }

  predicate ReleasesInner(pc: Pc) {
    pc.InlineUnlock? || pc.WaitBlock? || pc.WokenInner? || pc.GiveUp? || pc.NotifyUnlockInner? || pc.CallbackUnlock?
  }

  predicate WakesAll(pc: Pc) { pc.InlineWake? || pc.NotifyWake? || pc.CallbackWake? }

  predicate ReadsClock(pc: Pc) { pc.WaitClock? || pc.CheckClock? }

  /** The stop callback of thread i is being run at pc. */
  predicate RunsCallbackOf(pc: Pc, i: nat) {
    (pc.CallbackLock? || pc.CallbackWake? || pc.CallbackUnlock?) && pc.i == i
  }

  /** n threads and one stop token more than asked for: there is always one. */
  function Init(n: nat, tokens: nat): State {
    State(false, None, None, seq(tokens + 1, _ => false), seq(n, _ => 0), seq(n, _ => false), 0, seq(n, _ => Idle),
          seq(n, _ => None), seq(n, _ => None), seq(n, _ => false))
  }

  ghost predicate Shape(s: State) {
    && |s.token| == |s.registered| == |s.deadline| == |s.read| == |s.results| == |s.threads|
    && (forall t :: 0 <= t < |s.threads| ==> s.token[t] < |s.stopped|)
    && forall t :: 0 <= t < |s.threads| ==> PcShape(s.threads[t], |s.stopped|, |s.threads|)
  }

  predicate PcShape(pc: Pc, tokens: nat, n: nat) {
    match pc
    case StopSet(j) => j < tokens
    case CallNext(j) => j < tokens
    case CallbackLock(j, i) => j < tokens && i < n
    case CallbackWake(j, i) => j < tokens && i < n
    case CallbackUnlock(j, i) => j < tokens && i < n
    case _ => true
  }

  /** Stop was requested on the token that thread t waits with. */
  predicate StopSeen(s: State, t: nat)
    requires t < |s.token| && s.token[t] < |s.stopped|
  {
    s.stopped[s.token[t]]
  }

  /** The callback of thread i is still to be run for token j. */
  predicate Listed(s: State, i: nat, j: nat)
    requires i < |s.token| == |s.registered|
  {
    s.registered[i] && s.token[i] == j
  }

  ghost predicate Ready(s: State, t: nat)
    requires t < |s.threads| == |s.token| == |s.registered|
  {
    var pc := s.threads[t];
    && (WantsOuter(pc) ==> s.outer.None?)
    && (WantsInner(pc) ==> s.inner.None?)
    && (pc.Deregister? ==> forall u :: 0 <= u < |s.threads| ==> !RunsCallbackOf(s.threads[u], t))
    && (pc.CallNext? ==> forall i :: 0 <= i < |s.threads| ==> !Listed(s, i, pc.j))
    && !pc.Idle? && !pc.Blocked?
  }

  ghost predicate Enabled(s: State, a: Action)
    requires Shape(s)
  {
    match a
    case Step(t) => t < |s.threads| && Ready(s, t)
    case Wake(t) => t < |s.threads| && s.threads[t].Blocked?
    case Tick(_) => true
    case Pick(t, i) => t < |s.threads| && i < |s.threads| && s.threads[t].CallNext? && Listed(s, i, s.threads[t].j)
    case BeginWait(t, _, j) => t < |s.threads| && j < |s.stopped| && s.threads[t].Idle?
    case BeginStop(t, j) => t < |s.threads| && j < |s.stopped| && s.threads[t].Idle?
    case _ => a.t < |s.threads| && s.threads[a.t].Idle?
  }

  predicate Expired(s: State, t: nat)
    requires t < |s.deadline|
  {
    s.deadline[t].Some? && s.deadline[t].value <= s.clock
  }

  /** What the wait of thread t last read from the clock was past its deadline. */
  predicate Past(s: State, t: nat)
    requires t < |s.deadline| == |s.read|
  {
    s.deadline[t].Some? && s.read[t].Some? && s.deadline[t].value <= s.read[t].value
  }

  function NextPc(s: State, t: nat): Pc
    requires t < |s.threads| == |s.token| == |s.deadline| && s.token[t] < |s.stopped|
    requires PcShape(s.threads[t], |s.stopped|, |s.threads|)
  {
    var timed := s.deadline[t].Some?;
    match s.threads[t]
    case Idle => Idle
    case WaitLock => if timed then WaitClock else WaitStop
    case WaitClock => if Expired(s, t) then Evaluate else WaitStop
    case WaitStop => if StopSeen(s, t) then Evaluate else WaitRegister
    case WaitRegister => if StopSeen(s, t) then InlineLock else WaitPredicate
    case InlineLock => InlineWake
    case InlineWake => InlineUnlock
    case InlineUnlock => WaitPredicate
    case WaitPredicate => if s.notified then Deregister(true) else WaitLockInner
    case WaitLockInner => WaitStopInner
    case WaitStopInner => if StopSeen(s, t) then GiveUp else WaitUnlockOuter
    case WaitUnlockOuter => WaitBlock
    case WaitBlock => Blocked
    case Blocked => Blocked
    case Woken => WokenInner
    case WokenInner => WaitRelock
    case WaitRelock => if timed then CheckClock else WaitPredicate
    case GiveUp => if timed then CheckClock else Deregister(false)
    case CheckClock => if Expired(s, t) then Evaluate else CheckStop
    case CheckStop => if StopSeen(s, t) then Evaluate else WaitPredicate
    case Evaluate => Deregister(s.notified)
    case Deregister(r) => Return(r)
    case Return(_) => Idle
    case NotifyLock => NotifySet
    case NotifySet => NotifyUnlock
    case NotifyUnlock => NotifyLockInner
    case NotifyLockInner => NotifyWake
    case NotifyWake => NotifyUnlockInner
    case NotifyUnlockInner => Idle
    case ResetLock => ResetSet
    case ResetSet => ResetUnlock
    case ResetUnlock => Idle
    case StopSet(j) => if s.stopped[j] then Idle else CallNext(j)
    case CallNext(_) => Idle
    case CallbackLock(j, i) => CallbackWake(j, i)
    case CallbackWake(j, i) => CallbackUnlock(j, i)
    case CallbackUnlock(j, _) => CallNext(j)
  }

  function Owner(owner: Option<nat>, me: nat, acquires: bool, releases: bool): Option<nat> {
    if acquires then Some(me) else if releases then None else owner
  }

  function WakeAll(threads: seq<Pc>): (r: seq<Pc>)
    ensures |r| == |threads|
    ensures forall t :: 0 <= t < |r| ==> r[t] == (if threads[t].Blocked? then Woken else threads[t])
  {
    seq(|threads|, i requires 0 <= i < |threads| => if threads[i].Blocked? then Woken else threads[i])
  }

  ghost function Next(s: State, t: nat): State
    requires Shape(s) && t < |s.threads| && Ready(s, t)
  {
    var pc := s.threads[t];
    State(
      if pc.NotifySet? then true else if pc.ResetSet? then false else s.notified,
      Owner(s.outer, t, WantsOuter(pc), ReleasesOuter(pc)),
      Owner(s.inner, t, WantsInner(pc), ReleasesInner(pc)),
      if pc.StopSet? then s.stopped[pc.j := true] else s.stopped,
      s.token,
      if pc.WaitRegister? && !StopSeen(s, t) then s.registered[t := true]
      else if pc.Deregister? then s.registered[t := false] else s.registered,
      s.clock,
      (if WakesAll(pc) then WakeAll(s.threads) else s.threads)[t := NextPc(s, t)],
      s.deadline,
      if ReadsClock(pc) then s.read[t := Some(s.clock)] else if pc.Woken? then s.read[t := None] else s.read,
      if pc.Return? then s.results[t := pc.r] else s.results)
  }

  ghost function Apply(s: State, a: Action): State
    requires Shape(s) && Enabled(s, a)
  {
    match a
    case Step(t) => Next(s, t)
    case Wake(t) => s.(threads := s.threads[t := Woken])
    case Tick(now) => s.(clock := now)
    case Pick(t, i) =>
      s.(threads := s.threads[t := CallbackLock(s.threads[t].j, i)], registered := s.registered[i := false])
    case BeginWait(t, until, j) =>
      s.(threads := s.threads[t := WaitLock], token := s.token[t := j],
         deadline := s.deadline[t := until], read := s.read[t := None])
    case BeginNotify(t) => s.(threads := s.threads[t := NotifyLock])
    case BeginReset(t) => s.(threads := s.threads[t := ResetLock])
    case BeginStop(t, j) => s.(threads := s.threads[t := StopSet(j)])
  }

  ghost predicate IsRun(states: seq<State>, actions: seq<Action>) {
    && |states| == |actions| + 1
    && (forall i :: 0 <= i < |states| ==> Shape(states[i]))
    && forall i :: 0 <= i < |actions| ==>
         Enabled(states[i], actions[i]) && states[i + 1] == Apply(states[i], actions[i])
  }
}
