/** What every reachable state of the thread pool keeps, one small invariant at a time. */
module PoolSafety {
  import opened Wrappers
  import opened Counting
  import opened PoolMachine

  // ---------------------------------------------------------------- mutexes

  /** `queue_mutex_` is held by exactly the thread whose program counter says so. */
  ghost predicate OuterHeld(s: State) {
    && (forall w :: 0 <= w < |s.workers| ==> (s.outer == Some(Worker(w)) <==> WorkerHoldsOuter(s.workers[w])))
    && (forall c :: 0 <= c < |s.clients| ==> (s.outer == Some(Client(c)) <==> ClientHoldsOuter(s.clients[c])))
    && OwnerExists(s, s.outer)
  }

  /** The same for the private mutex of the condition variable. */
  ghost predicate InnerHeld(s: State) {
    && (forall w :: 0 <= w < |s.workers| ==> (s.inner == Some(Worker(w)) <==> WorkerHoldsInner(s.workers[w])))
    && (forall c :: 0 <= c < |s.clients| ==> (s.inner == Some(Client(c)) <==> ClientHoldsInner(s.clients[c])))
    && OwnerExists(s, s.inner)
  }

  ghost predicate OwnerExists(s: State, owner: Option<Thread>) {
    match owner
    case None => true
    case Some(Worker(w)) => w < |s.workers|
    case Some(Client(c)) => c < |s.clients|
  }

  ghost predicate Mutexes(s: State) {
    Shape(s) && OuterHeld(s) && InnerHeld(s)
  }

  lemma ShapeStep(s: State, a: Action)
    requires Shape(s) && Enabled(s, a)
    ensures Shape(Apply(s, a))
  {
  }

  /** A worker holds a mutex after its step if it took it then, or held it and did not release it. */
  lemma WorkerHoldsNext(s: State, w: nat)
    requires Shape(s) && w < |s.workers| && WorkerReady(s, w)
    ensures var pc, pc' := s.workers[w], WorkerNextPc(s, w);
      && (WorkerHoldsOuter(pc') <==> WorkerWantsOuter(pc) || (WorkerHoldsOuter(pc) && !WorkerReleasesOuter(pc)))
      && (WorkerHoldsInner(pc') <==> WorkerWantsInner(pc) || (WorkerHoldsInner(pc) && !WorkerReleasesInner(pc)))
  {
  }

  lemma WorkerOuterStep(s: State, w: nat)
    requires Shape(s) && OuterHeld(s) && w < |s.workers| && WorkerReady(s, w)
    ensures OuterHeld(WorkerNext(s, w))
  {
    WorkerHoldsNext(s, w);
  }

  lemma WorkerInnerStep(s: State, w: nat)
    requires Shape(s) && InnerHeld(s) && w < |s.workers| && WorkerReady(s, w)
    ensures InnerHeld(WorkerNext(s, w))
  {
    WorkerHoldsNext(s, w);
  }

  lemma ClientOuterStep(s: State, c: nat)
    requires Shape(s) && OuterHeld(s) && c < |s.clients| && ClientReady(s, c)
    ensures OuterHeld(ClientNext(s, c))
  {
  }

  lemma ClientInnerStep(s: State, c: nat)
    requires Shape(s) && InnerHeld(s) && c < |s.clients| && ClientReady(s, c)
    ensures InnerHeld(ClientNext(s, c))
  {
  }

  /** Only a step of a thread takes or releases a mutex. */
  lemma OtherHolds(s: State, a: Action)
    requires Shape(s) && Enabled(s, a) && !a.WorkerStep? && !a.ClientStep?
    ensures var s' := OtherNext(s, a);
      && |s'.workers| == |s.workers| && |s'.clients| == |s.clients|
      && (forall w :: 0 <= w < |s.workers| ==> WorkerHoldsOuter(s'.workers[w]) == WorkerHoldsOuter(s.workers[w]))
      && (forall w :: 0 <= w < |s.workers| ==> WorkerHoldsInner(s'.workers[w]) == WorkerHoldsInner(s.workers[w]))
      && (forall c :: 0 <= c < |s.clients| ==> ClientHoldsOuter(s'.clients[c]) == ClientHoldsOuter(s.clients[c]))
      && (forall c :: 0 <= c < |s.clients| ==> ClientHoldsInner(s'.clients[c]) == ClientHoldsInner(s.clients[c]))
  {
  }

  lemma OtherMutexes(s: State, a: Action)
    requires Mutexes(s) && Enabled(s, a) && !a.WorkerStep? && !a.ClientStep?
    ensures OuterHeld(OtherNext(s, a)) && InnerHeld(OtherNext(s, a))
  {
    OtherHolds(s, a);
  }

  lemma MutexesStep(s: State, a: Action)
    requires Mutexes(s) && Enabled(s, a)
    ensures Mutexes(Apply(s, a))
  {
    ShapeStep(s, a);
    match a
    case WorkerStep(w) => WorkerOuterStep(s, w); WorkerInnerStep(s, w);
    case ClientStep(c) => ClientOuterStep(s, c); ClientInnerStep(s, c);
    case _ => OtherMutexes(s, a);
  }

  // ---------------------------------------------------------------- stop flags

  /** A worker that found its stop flag unset under `queue_mutex_` still has it unset. */
  ghost predicate StopStable(s: State) {
    && Shape(s)
    && forall w :: 0 <= w < |s.workers| ==> StopStableAt(s.workers[w], s.stopped[w])
  }

  predicate StopStableAt(pc: WorkerPc, stopped: bool) {
    match pc
    case WaitRegister | WaitUnlockOuter => !stopped
    case LoopQueue | Leave | Exited | GiveUp => stopped
    case InlineLock | InlineWake | InlineUnlock => false
    case _ => true
  }

  lemma WorkerStopStable(s: State, w: nat)
    requires Mutexes(s) && StopStable(s) && w < |s.workers| && WorkerReady(s, w) && Shape(WorkerNext(s, w))
    ensures StopStable(WorkerNext(s, w))
  {
    assert StopStableAt(s.workers[w], s.stopped[w]);
    assert StopStableAt(WorkerNextPc(s, w), s.stopped[w]);
  }

  lemma StopStableStep(s: State, a: Action)
    requires Mutexes(s) && StopStable(s) && Enabled(s, a)
    ensures StopStable(Apply(s, a))
  {
    ShapeStep(s, a);
    if a.WorkerStep? {
      WorkerStopStable(s, a.w);
    }
  }

  /** A stop callback is registered exactly while its worker is between registering and deregistering. */
  ghost predicate CallbacksListed(s: State) {
    && Shape(s)
    && forall w :: 0 <= w < |s.workers| ==> (s.registered[w] <==> InsideWait(s.workers[w]))
  }

  predicate InsideWait(pc: WorkerPc) {
    pc.WaitPredicate? || pc.WaitLockInner? || pc.WaitStopInner? || pc.WaitUnlockOuter? || pc.WaitBlock? ||
    pc.Blocked? || pc.Woken? || pc.WokenInner? || pc.WaitRelock? || pc.GiveUp? || pc.Deregister?
  }

  lemma WorkerCallbacksListedStep(s: State, w: nat)
    requires StopStable(s) && CallbacksListed(s) && w < |s.workers| && WorkerReady(s, w) && Shape(WorkerNext(s, w))
    ensures CallbacksListed(WorkerNext(s, w))
  {
  }

  lemma ClientCallbacksListedStep(s: State, c: nat)
    requires CallbacksListed(s) && c < |s.clients| && ClientReady(s, c) && Shape(ClientNext(s, c))
    ensures CallbacksListed(ClientNext(s, c))
  {
  }

  lemma CallbacksListedStep(s: State, a: Action)
    requires StopStable(s) && CallbacksListed(s) && Enabled(s, a)
    ensures CallbacksListed(Apply(s, a))
  {
    ShapeStep(s, a);
    match a
    case WorkerStep(w) => WorkerCallbacksListedStep(s, w);
    case ClientStep(c) => ClientCallbacksListedStep(s, c);
    case _ =>
  }

  /** Why `wait` returned: a task is queued or stop was requested. */
  ghost predicate ReasonToReturn(s: State) {
    && Shape(s)
    && forall w :: 0 <= w < |s.workers| && (s.workers[w].Deregister? || s.workers[w].Take?)
                   ==> s.queue != [] || s.stopped[w]
  }

  lemma WorkerReason(s: State, w: nat)
    requires Mutexes(s) && StopStable(s) && ReasonToReturn(s) && w < |s.workers| && WorkerReady(s, w)
    requires Shape(WorkerNext(s, w))
    ensures ReasonToReturn(WorkerNext(s, w))
  {
    assert StopStableAt(s.workers[w], s.stopped[w]);
  }

  lemma ReasonToReturnStep(s: State, a: Action)
    requires Mutexes(s) && StopStable(s) && ReasonToReturn(s) && Enabled(s, a)
    ensures ReasonToReturn(Apply(s, a))
  {
    ShapeStep(s, a);
    if a.WorkerStep? {
      WorkerReason(s, a.w);
    }
  }

  // ---------------------------------------------------------------- the shutdown flag

  /**
   The flag stored outside the mutex covers what happens under it: whoever acts on a shutdown has
   the flag set, and while `Enqueue` is about to push no worker has been told to stop.
   */
  ghost predicate FlagFirst(s: State) {
    && Shape(s)
    && (forall c :: 0 <= c < |s.clients| && AfterFlag(s.clients[c]) ==> s.shutdown)
    && (forall w :: 0 <= w < |s.stopped| && s.stopped[w] ==> s.shutdown)
    && (s.returned ==> s.shutdown)
    && (forall c, w :: 0 <= c < |s.clients| && 0 <= w < |s.stopped| && s.clients[c].EnqueuePush? ==> !s.stopped[w])
  }

  predicate AfterFlag(pc: ClientPc) {
    pc.EnqueueUnlock? || pc.InlineFlag? || pc.InlineStop? || pc.InlineRunning? || pc.ShutdownLock? || UnderShutdown(pc)
  }

  predicate UnderShutdown(pc: ClientPc) {
    pc.StopTask? || pc.StopWorker? || pc.CallbackLock? || pc.CallbackWake? || pc.CallbackUnlock? || pc.ShutdownUnlock?
  }

  lemma WorkerFlagFirstStep(s: State, w: nat)
    requires Mutexes(s) && FlagFirst(s) && w < |s.workers| && WorkerReady(s, w) && Shape(WorkerNext(s, w))
    ensures FlagFirst(WorkerNext(s, w))
  {
  }

  lemma ClientFlagFirstStep(s: State, c: nat)
    requires Mutexes(s) && FlagFirst(s) && c < |s.clients| && ClientReady(s, c) && Shape(ClientNext(s, c))
    ensures FlagFirst(ClientNext(s, c))
  {
  }

  lemma FlagFirstStep(s: State, a: Action)
    requires Mutexes(s) && FlagFirst(s) && Enabled(s, a)
    ensures FlagFirst(Apply(s, a))
  {
    ShapeStep(s, a);
    match a
    case WorkerStep(w) => WorkerFlagFirstStep(s, w);
    case ClientStep(c) => ClientFlagFirstStep(s, c);
    case _ =>
  }

  /** Worker w has been told to stop by the shutdown at pc. */
  predicate HasStopped(pc: ClientPc, w: nat) {
    match pc
    case StopWorker(i) => w < i
    case CallbackLock(i) => w <= i
    case CallbackWake(i) => w <= i
    case CallbackUnlock(i) => w <= i
    case ShutdownUnlock => true
    case _ => false
  }

  ghost predicate StopsInOrder(s: State) {
    && Shape(s)
    && (forall c, w :: 0 <= c < |s.clients| && 0 <= w < |s.stopped| && HasStopped(s.clients[c], w) ==> s.stopped[w])
    && (forall w :: 0 <= w < |s.stopped| && s.returned ==> s.stopped[w])
  }

  lemma StopsInOrderStep(s: State, a: Action)
    requires Mutexes(s) && StopsInOrder(s) && Enabled(s, a)
    ensures StopsInOrder(Apply(s, a))
  {
    ShapeStep(s, a);
  }

  // ---------------------------------------------------------------- stop handshake

  predicate AboutToNotify(pc: ClientPc, w: nat) {
    (pc.CallbackLock? || pc.CallbackWake?) && pc.i == w
  }

  /** The client that holds `queue_mutex_` still has to run the `notify_all` of worker w's callback. */
  predicate NotifyOutstanding(s: State, w: nat) {
    match s.outer
    case Some(Client(c)) => c < |s.clients| && AboutToNotify(s.clients[c], w)
    case _ => false
  }

  /** Whenever a worker that sleeps, or is past its last look at the stop flag, is stopped, its wake-up is to come. */
  ghost predicate StopHandshake(s: State) {
    && Shape(s)
    && forall w :: 0 <= w < |s.workers| && s.stopped[w] && (s.workers[w].WaitBlock? || s.workers[w].Blocked?)
         ==> NotifyOutstanding(s, w)
  }

  lemma WorkerStopHandshakeStep(s: State, w: nat)
    requires Mutexes(s) && StopStable(s) && StopHandshake(s) && w < |s.workers| && WorkerReady(s, w)
    ensures StopHandshake(WorkerNext(s, w))
  {
  }

  lemma ClientStopHandshakeStep(s: State, c: nat)
    requires Mutexes(s) && CallbacksListed(s) && StopHandshake(s) && c < |s.clients| && ClientReady(s, c)
    ensures StopHandshake(ClientNext(s, c))
  {
  }

  lemma StopHandshakeStep(s: State, a: Action)
    requires Mutexes(s) && StopStable(s) && CallbacksListed(s) && StopHandshake(s) && Enabled(s, a)
    ensures StopHandshake(Apply(s, a))
  {
    ShapeStep(s, a);
    match a
    case WorkerStep(w) => WorkerStopHandshakeStep(s, w);
    case ClientStep(c) => ClientStopHandshakeStep(s, c);
    case _ =>
  }

  /** After a `Shutdown` has returned no later one has a callback to run. */
  ghost predicate NoLateCallback(s: State) {
    s.returned ==> forall c :: 0 <= c < |s.clients| ==> !RunsCallback(s.clients[c])
  }

  predicate RunsCallback(pc: ClientPc) { pc.CallbackLock? || pc.CallbackWake? || pc.CallbackUnlock? }

  lemma NoLateCallbackStep(s: State, a: Action)
    requires Mutexes(s) && StopsInOrder(s) && NoLateCallback(s) && Enabled(s, a)
    ensures NoLateCallback(Apply(s, a))
  {
  }

  // ---------------------------------------------------------------- stop propagation

  function TaskOf(pc: WorkerPc): Option<Task> {
    match pc
    case UnlockToRun(t) => Some(t)
    case ExecFlag(t) => Some(t)
    case ExecStop(t) => Some(t)
    case Running(t) => Some(t)
    case _ => None
  }

  /** The shutdown at pc has already requested stop on the stop source in `active_[w]`. */
  predicate HasSwept(pc: ClientPc, w: nat) {
    if pc.StopTask? then w < pc.i else UnderShutdown(pc)
  }

  ghost predicate Swept(s: State, w: nat) {
    s.returned || exists c :: 0 <= c < |s.clients| && HasSwept(s.clients[c], w)
  }

  /** The stop source of the task a worker holds is in `active_`, and a swept task that runs was asked to stop. */
  ghost predicate StopReaches(s: State) {
    && Shape(s)
    && (forall w :: 0 <= w < |s.workers| && TaskOf(s.workers[w]).Some? ==> s.active[w] == TaskOf(s.workers[w]))
    && (forall w :: 0 <= w < |s.workers| && s.workers[w].Running? && Swept(s, w)
                    ==> s.workers[w].task in s.stoppedTasks)
    && (forall c :: 0 <= c < |s.clients| && s.clients[c].InlineRunning? ==> s.clients[c].task in s.stoppedTasks)
  }

  lemma SweptImpliesFlag(s: State, w: nat)
    requires FlagFirst(s) && Swept(s, w)
    ensures s.shutdown
  {
  }

  lemma WorkerStopReachesStep(s: State, w: nat)
    requires Shape(s) && FlagFirst(s) && StopReaches(s) && w < |s.workers| && WorkerReady(s, w)
    ensures StopReaches(WorkerNext(s, w))
  {
    var s' := WorkerNext(s, w);
    forall v | 0 <= v < |s.workers| && s'.workers[v].Running? && Swept(s', v)
      ensures s'.workers[v].task in s'.stoppedTasks
    {
      assert Swept(s, v);
      SweptImpliesFlag(s, v);
    }
  }

  lemma ClientStopReachesStep(s: State, c: nat)
    requires Mutexes(s) && FlagFirst(s) && StopReaches(s) && c < |s.clients| && ClientReady(s, c)
    ensures StopReaches(ClientNext(s, c))
  {
    ShapeStep(s, ClientStep(c));
    var s' := ClientNext(s, c);
    forall v | 0 <= v < |s.workers| && s'.workers[v].Running? && Swept(s', v)
      ensures s'.workers[v].task in s'.stoppedTasks
    {
      assert s.workers[v] == s'.workers[v];
      if !Swept(s, v) {
        assert HasSwept(s'.clients[c], v);
        assert s.clients[c] == StopTask(v);
      }
    }
  }

  lemma OtherStopReaches(s: State, a: Action)
    requires StopReaches(s) && Enabled(s, a) && !a.WorkerStep? && !a.ClientStep? && Shape(OtherNext(s, a))
    ensures StopReaches(OtherNext(s, a))
  {
    var s' := OtherNext(s, a);
    forall v | 0 <= v < |s.workers| && s'.workers[v].Running? && Swept(s', v)
      ensures s'.workers[v].task in s'.stoppedTasks
    {
      assert Swept(s, v);
    }
  }

  lemma StopReachesStep(s: State, a: Action)
    requires Mutexes(s) && FlagFirst(s) && StopReaches(s) && Enabled(s, a)
    ensures StopReaches(Apply(s, a))
  {
    ShapeStep(s, a);
    match a
    case WorkerStep(w) => WorkerStopReachesStep(s, w);
    case ClientStep(c) => ClientStopReachesStep(s, c);
    case _ => OtherStopReaches(s, a);
  }

  // ---------------------------------------------------------------- nothing is stranded

  /** Once a worker is past its loop the queue is empty. */
  ghost predicate LeftEmpty(s: State) {
    forall w :: 0 <= w < |s.workers| && HasLeft(s.workers[w]) ==> s.queue == []
  }

  predicate HasLeft(pc: WorkerPc) { pc.Leave? || pc.Exited? }

  lemma WorkerLeftEmpty(s: State, w: nat)
    requires LeftEmpty(s) && Shape(s) && w < |s.workers| && WorkerReady(s, w)
    ensures LeftEmpty(WorkerNext(s, w))
  {
    assert HasLeft(WorkerNextPc(s, w)) ==> s.queue == [];
  }

  lemma ClientLeftEmpty(s: State, c: nat)
    requires StopStable(s) && FlagFirst(s) && LeftEmpty(s) && c < |s.clients| && ClientReady(s, c)
    ensures LeftEmpty(ClientNext(s, c))
  {
    forall w | 0 <= w < |s.workers| && HasLeft(ClientNext(s, c).workers[w]) ensures ClientNext(s, c).queue == [] {
      assert HasLeft(s.workers[w]) && StopStableAt(s.workers[w], s.stopped[w]);
    }
  }

  lemma LeftEmptyStep(s: State, a: Action)
    requires Mutexes(s) && StopStable(s) && FlagFirst(s) && LeftEmpty(s) && Enabled(s, a)
    ensures LeftEmpty(Apply(s, a))
  {
    match a
    case WorkerStep(w) => WorkerLeftEmpty(s, w);
    case ClientStep(c) => ClientLeftEmpty(s, c);
    case _ =>
  }

  // ---------------------------------------------------------------- no lost wake-up

  /** The worker found the queue empty and will sleep, or sleeps. */
  predicate Committed(pc: WorkerPc) {
    pc.WaitLockInner? || pc.WaitStopInner? || pc.WaitUnlockOuter? || pc.WaitBlock? || pc.Blocked?
  }

  /** The worker is awake inside `wait` and has yet to look at the queue, or has looked and is about to take a task. */
  predicate Rechecking(pc: WorkerPc) {
    pc.Woken? || pc.WokenInner? || pc.WaitRelock? || pc.WaitPredicate? || pc.Deregister? || pc.Take?
  }

  /** The enqueuer is between its push and its notify. */
  predicate Notifying(pc: ClientPc) { pc.NotifyLock? || pc.NotifyWake? }

  ghost predicate SomeNotifying(s: State) {
    exists c :: 0 <= c < |s.clients| && Notifying(s.clients[c])
  }

  ghost function WakeupsUnderWay(s: State): nat {
    Count(s.workers, Rechecking) + (if SomeNotifying(s) then 1 else 0)
  }

  ghost predicate NoLostWakeup(s: State) {
    (exists w :: 0 <= w < |s.workers| && Committed(s.workers[w])) ==> |s.queue| <= WakeupsUnderWay(s)
  }

  lemma StillNotifying(s: State, s': State, c: nat)
    requires c < |s.clients| == |s'.clients| && s'.clients == s.clients[c := s'.clients[c]]
    requires Notifying(s.clients[c]) ==> Notifying(s'.clients[c])
    ensures SomeNotifying(s) ==> SomeNotifying(s')
  {
    if SomeNotifying(s) {
      var k :| 0 <= k < |s.clients| && Notifying(s.clients[k]);
      assert Notifying(s'.clients[k]);
    }
  }

  lemma WorkerNoLostWakeupStep(s: State, w: nat)
    requires Mutexes(s) && StopStable(s) && NoLostWakeup(s) && w < |s.workers| && WorkerReady(s, w)
    ensures NoLostWakeup(WorkerNext(s, w))
  {
    CountUpdate(s.workers, w, WorkerNextPc(s, w), Rechecking);
    assert SomeNotifying(s) == SomeNotifying(WorkerNext(s, w));
  }

  lemma ClientNoLostWakeupStep(s: State, c: nat)
    requires Mutexes(s) && NoLostWakeup(s) && c < |s.clients| && ClientReady(s, c)
    ensures NoLostWakeup(ClientNext(s, c))
  {
    var pc, s' := s.clients[c], ClientNext(s, c);
    if pc.NotifyWake? || pc.CallbackWake? {
      forall w | 0 <= w < |s'.workers| ensures !Committed(s'.workers[w]) { }
    } else {
      assert s'.workers == s.workers;
      if pc.EnqueuePush? {
        assert !SomeNotifying(s);
      }
      StillNotifying(s, s', c);
    }
  }

  lemma NoLostWakeupStep(s: State, a: Action)
    requires Mutexes(s) && StopStable(s) && NoLostWakeup(s) && Enabled(s, a)
    ensures NoLostWakeup(Apply(s, a))
  {
    match a
    case WorkerStep(w) => WorkerNoLostWakeupStep(s, w);
    case ClientStep(c) => ClientNoLostWakeupStep(s, c);
    case SpuriousWake(w) =>
      CountUpdate(s.workers, w, Woken, Rechecking);
      assert SomeNotifying(s) == SomeNotifying(Apply(s, a));
    case NotifyOne(c, w) =>
      CountUpdate(s.workers, w, Woken, Rechecking);
    case _ =>
      StillNotifying(s, Apply(s, a), a.c);
  }

  // ---------------------------------------------------------------- each task is in one place

  function Handing(pc: ClientPc): Option<Task> {
    match pc
    case EnqueueLock(t) => Some(t)
    case EnqueueFlag(t) => Some(t)
    case EnqueueUnlock(t) => Some(t)
    case InlineFlag(t) => Some(t)
    case InlineStop(t) => Some(t)
    case InlineRunning(t) => Some(t)
    case EnqueuePush(t) => Some(t)
    case _ => None
  }

  function WorkerHolds(t: Task): WorkerPc -> bool { (pc: WorkerPc) => TaskOf(pc) == Some(t) }

  function ClientHolds(t: Task): ClientPc -> bool { (pc: ClientPc) => Handing(pc) == Some(t) }

  /** How many places task t is in: held by clients, queued, held by workers, or done. */
  ghost function Places(s: State, t: Task): nat {
    Count(s.clients, ClientHolds(t)) + multiset(s.queue)[t] + Count(s.workers, WorkerHolds(t)) +
    multiset(s.finished)[t] + multiset(s.inlined)[t]
  }

  ghost predicate OnePlace(s: State) {
    forall t: Task :: Places(s, t) == if t in s.used then 1 else 0
  }

  /** First in, first out; and what left the queue is with a worker or done. */
  ghost predicate InOrder(s: State) {
    && s.accepted == s.taken + s.queue
    && forall t: Task :: multiset(s.taken)[t] == Count(s.workers, WorkerHolds(t)) + multiset(s.finished)[t]
  }

  lemma PushOccurs(q: seq<Task>, x: Task, t: Task)
    ensures multiset(q + [x])[t] == multiset(q)[t] + if x == t then 1 else 0
  {
  }

  lemma PopOccurs(q: seq<Task>, t: Task)
    requires q != []
    ensures multiset(q[1..])[t] == multiset(q)[t] - if q[0] == t then 1 else 0
  {
    assert q == [q[0]] + q[1..];
  }

  function Bit(b: bool): nat { if b then 1 else 0 }

  /** Only taking and finishing change which task a worker holds. */
  lemma WorkerKeepsTask(s: State, w: nat)
    requires Shape(s) && w < |s.workers|
    ensures var pc, pc' := s.workers[w], WorkerNextPc(s, w);
      if pc.Take? && s.queue != [] then TaskOf(pc).None? && TaskOf(pc') == Some(s.queue[0])
      else if pc.Running? then TaskOf(pc) == Some(pc.task) && TaskOf(pc').None?
      else TaskOf(pc') == TaskOf(pc)
  {
  }

  lemma ClientKeepsTask(s: State, c: nat)
    requires Shape(s) && c < |s.clients|
    ensures var pc, pc' := s.clients[c], ClientNextPc(s, c);
      if pc.EnqueuePush? || pc.InlineRunning? then Handing(pc) == Some(pc.task) && Handing(pc').None?
      else Handing(pc') == Handing(pc)
  {
  }

  /** A worker step moves a task from the queue to the worker, or from the worker to the finished ones. */
  lemma WorkerMoves(s: State, w: nat, t: Task)
    requires Shape(s) && w < |s.workers| && WorkerReady(s, w)
    ensures var s', pc, pc' := WorkerNext(s, w), s.workers[w], WorkerNextPc(s, w);
      && multiset(s'.queue)[t] + multiset(s'.taken)[t] == multiset(s.queue)[t] + multiset(s.taken)[t]
      && Bit(TaskOf(pc') == Some(t)) + multiset(s'.finished)[t] - multiset(s'.taken)[t]
         == Bit(TaskOf(pc) == Some(t)) + multiset(s.finished)[t] - multiset(s.taken)[t]
  {
    var pc := s.workers[w];
    WorkerKeepsTask(s, w);
    if pc.Take? && s.queue != [] {
      PopOccurs(s.queue, t);
      PushOccurs(s.taken, s.queue[0], t);
    } else if pc.Running? {
      PushOccurs(s.finished, pc.task, t);
    }
  }

  lemma WorkerHeldCount(s: State, w: nat, t: Task)
    requires Shape(s) && StopStable(s) && w < |s.workers| && WorkerReady(s, w)
    ensures Count(WorkerNext(s, w).workers, WorkerHolds(t))
         == Count(s.workers, WorkerHolds(t)) - Bit(TaskOf(s.workers[w]) == Some(t))
            + Bit(TaskOf(WorkerNextPc(s, w)) == Some(t))
  {
    CountUpdate(s.workers, w, WorkerNextPc(s, w), WorkerHolds(t));
  }

  lemma {:induction false} WakeAllHolds(workers: seq<WorkerPc>, t: Task)
    ensures Count(WakeAll(workers), WorkerHolds(t)) == Count(workers, WorkerHolds(t))
  {
    if workers == [] {
    } else {
      var init := workers[..|workers| - 1];
      assert WakeAll(workers)[..|workers| - 1] == WakeAll(init);
      WakeAllHolds(init, t);
    }
  }

  /** A client step moves a task from the client to the queue, or to the ones run inside `Enqueue`. */
  lemma ClientMoves(s: State, c: nat, t: Task)
    requires Shape(s) && c < |s.clients| && ClientReady(s, c)
    ensures var s', pc, pc' := ClientNext(s, c), s.clients[c], ClientNextPc(s, c);
      Bit(Handing(pc') == Some(t)) + multiset(s'.queue)[t] + multiset(s'.inlined)[t]
      == Bit(Handing(pc) == Some(t)) + multiset(s.queue)[t] + multiset(s.inlined)[t]
  {
    var pc := s.clients[c];
    ClientKeepsTask(s, c);
    if pc.EnqueuePush? {
      PushOccurs(s.queue, pc.task, t);
    } else if pc.InlineRunning? {
      PushOccurs(s.inlined, pc.task, t);
    }
  }

  lemma ClientHeldCount(s: State, c: nat, t: Task)
    requires Shape(s) && c < |s.clients| && ClientReady(s, c)
    ensures var s' := ClientNext(s, c);
      && Count(s'.clients, ClientHolds(t))
         == Count(s.clients, ClientHolds(t)) - Bit(Handing(s.clients[c]) == Some(t))
            + Bit(Handing(ClientNextPc(s, c)) == Some(t))
      && Count(s'.workers, WorkerHolds(t)) == Count(s.workers, WorkerHolds(t))
  {
    CountUpdate(s.clients, c, ClientNextPc(s, c), ClientHolds(t));
    WakeAllHolds(s.workers, t);
  }

  /** A wake-up moves no task. */
  lemma WakeMoves(workers: seq<WorkerPc>, a: Action, t: Task)
    requires a.SpuriousWake? || a.NotifyOne? ==> a.w < |workers| && workers[a.w].Blocked?
    ensures Count(OtherWorkers(workers, a), WorkerHolds(t)) == Count(workers, WorkerHolds(t))
  {
    if a.SpuriousWake? || a.NotifyOne? {
      CountUpdate(workers, a.w, Woken, WorkerHolds(t));
    }
  }

  /** Only a new `Enqueue` puts a task into the hands of a client. */
  lemma CallMoves(clients: seq<ClientPc>, a: Action, t: Task)
    requires a.NotifyOne? || a.BeginEnqueue? || a.BeginShutdown? ==> a.c < |clients| && Handing(clients[a.c]).None?
    ensures Count(OtherClients(clients, a), ClientHolds(t))
         == Count(clients, ClientHolds(t)) + Bit(a.BeginEnqueue? && a.task == t)
  {
    if a.NotifyOne? || a.BeginEnqueue? || a.BeginShutdown? {
      CountUpdate(clients, a.c, OtherClients(clients, a)[a.c], ClientHolds(t));
    }
  }

  /** The remaining actions move nothing; a new `Enqueue` brings a new task in. */
  lemma OtherMoves(s: State, a: Action, t: Task)
    requires Shape(s) && Enabled(s, a) && !a.WorkerStep? && !a.ClientStep?
    ensures Count(OtherNext(s, a).workers, WorkerHolds(t)) == Count(s.workers, WorkerHolds(t))
    ensures Count(OtherNext(s, a).clients, ClientHolds(t))
         == Count(s.clients, ClientHolds(t)) + Bit(a.BeginEnqueue? && a.task == t)
  {
    assert a.NotifyOne? || a.BeginEnqueue? || a.BeginShutdown? ==> Handing(s.clients[a.c]).None?;
    WakeMoves(s.workers, a, t);
    CallMoves(s.clients, a, t);
  }

  lemma WorkerPlaces(s: State, w: nat, t: Task)
    requires Shape(s) && StopStable(s) && w < |s.workers| && WorkerReady(s, w)
    ensures Places(WorkerNext(s, w), t) == Places(s, t)
  {
    WorkerMoves(s, w, t);
    WorkerHeldCount(s, w, t);
  }

  lemma ClientPlaces(s: State, c: nat, t: Task)
    requires Shape(s) && c < |s.clients| && ClientReady(s, c)
    ensures Places(ClientNext(s, c), t) == Places(s, t)
  {
    ClientMoves(s, c, t);
    ClientHeldCount(s, c, t);
  }

  lemma OtherPlaces(s: State, a: Action, t: Task)
    requires Shape(s) && Enabled(s, a) && !a.WorkerStep? && !a.ClientStep?
    ensures Places(OtherNext(s, a), t) == Places(s, t) + Bit(a.BeginEnqueue? && a.task == t)
  {
    OtherMoves(s, a, t);
  }

  lemma WorkerOnePlace(s: State, w: nat)
    requires Shape(s) && StopStable(s) && OnePlace(s) && w < |s.workers| && WorkerReady(s, w)
    ensures OnePlace(WorkerNext(s, w))
  {
    forall t: Task ensures Places(WorkerNext(s, w), t) == if t in WorkerNext(s, w).used then 1 else 0 {
      assert Places(s, t) == if t in s.used then 1 else 0;
      WorkerPlaces(s, w, t);
    }
  }

  lemma ClientOnePlace(s: State, c: nat)
    requires Shape(s) && OnePlace(s) && c < |s.clients| && ClientReady(s, c)
    ensures OnePlace(ClientNext(s, c))
  {
    forall t: Task ensures Places(ClientNext(s, c), t) == if t in ClientNext(s, c).used then 1 else 0 {
      assert Places(s, t) == if t in s.used then 1 else 0;
      ClientPlaces(s, c, t);
    }
  }

  lemma OtherUsed(s: State, a: Action, t: Task)
    requires Shape(s) && Enabled(s, a) && !a.WorkerStep? && !a.ClientStep?
    ensures t in OtherNext(s, a).used <==> t in s.used || (a.BeginEnqueue? && a.task == t)
    ensures a.BeginEnqueue? && a.task == t ==> t !in s.used
  {
  }

  lemma OtherOnePlaceAt(s: State, a: Action, t: Task)
    requires Shape(s) && Enabled(s, a) && !a.WorkerStep? && !a.ClientStep?
    requires Places(s, t) == if t in s.used then 1 else 0
    ensures Places(OtherNext(s, a), t) == if t in OtherNext(s, a).used then 1 else 0
  {
    OtherUsed(s, a, t);
    OtherPlaces(s, a, t);
  }

  lemma OtherOnePlace(s: State, a: Action)
    requires Shape(s) && OnePlace(s) && Enabled(s, a) && !a.WorkerStep? && !a.ClientStep?
    ensures OnePlace(OtherNext(s, a))
  {
    forall t: Task ensures Places(OtherNext(s, a), t) == if t in OtherNext(s, a).used then 1 else 0 {
      OtherOnePlaceAt(s, a, t);
    }
  }

  lemma OnePlaceStep(s: State, a: Action)
    requires Shape(s) && StopStable(s) && OnePlace(s) && Enabled(s, a)
    ensures OnePlace(Apply(s, a))
  {
    match a
    case WorkerStep(w) => WorkerOnePlace(s, w);
    case ClientStep(c) => ClientOnePlace(s, c);
    case _ => OtherOnePlace(s, a);
  }

  lemma FifoStep(s: State, a: Action)
    requires Shape(s) && s.accepted == s.taken + s.queue && Enabled(s, a)
    ensures var s' := Apply(s, a); s'.accepted == s'.taken + s'.queue
  {
  }

  lemma InOrderStep(s: State, a: Action)
    requires Shape(s) && StopStable(s) && InOrder(s) && Enabled(s, a)
    ensures InOrder(Apply(s, a))
  {
    var s' := Apply(s, a);
    FifoStep(s, a);
    forall t: Task ensures multiset(s'.taken)[t] == Count(s'.workers, WorkerHolds(t)) + multiset(s'.finished)[t] {
      match a
      case WorkerStep(w) => WorkerMoves(s, w, t); WorkerHeldCount(s, w, t);
      case ClientStep(c) => ClientHeldCount(s, c, t);
      case _ => OtherMoves(s, a, t);
    }
  }
}
