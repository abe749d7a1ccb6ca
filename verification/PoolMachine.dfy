/**
 The thread pool as a step machine: `Work`, `Enqueue`, `Execute` and `InternalShutdown`, with the
 interruptible `wait`, `notify_one` and `notify_all` of the condition variable inlined.

 Every lock, unlock, block, wake-up, flag store and flag load is one step of one thread, and any
 thread that is ready may take the next step.  Two mutexes appear: the caller's `queue_mutex_`
 (here `outer`) and the private mutex of the condition variable (here `inner`).  A task that calls
 `Enqueue` or `Shutdown` is covered by a client that does so while the task runs.
 */
module PoolMachine {
  import opened Wrappers

  type Task = nat

  datatype Thread = Worker(w: nat) | Client(c: nat)

  /** Where a worker stands in `Work`; comments name the mutexes it holds there. */
  datatype WorkerPc =
    | Starting                // about to lock `queue_mutex_`
    | LoopStop                // outer; loop test, first half: load the stop flag
    | LoopQueue               // outer; loop test, second half: is the queue empty?
    | WaitStop                // outer; `wait` loads the stop flag on entry
    | WaitRegister            // outer; constructs the stop callback
    | InlineLock              // outer; callback runs at once: about to lock inner
    | InlineWake              // outer, inner
    | InlineUnlock            // outer, inner
    | WaitPredicate           // outer; evaluates the predicate
    | WaitLockInner           // outer
    | WaitStopInner           // outer, inner; loads the stop flag under inner
    | WaitUnlockOuter         // outer, inner
    | WaitBlock               // inner; gives inner up and blocks, atomically
    | Blocked
    | Woken                   // about to lock inner again
    | WokenInner              // inner
    | WaitRelock              // about to lock outer again
    | GiveUp                  // outer, inner; stop was seen, about to unlock inner
    | Deregister              // outer; destroys the stop callback
    | Take                    // outer; `wait` has returned
    | UnlockToRun(task: Task) // outer
    | ExecFlag(task: Task)    // `Execute` loads the shutdown flag
    | ExecStop(task: Task)
    | Running(task: Task)
    | Relock                  // about to lock outer after the task
    | ClearActive             // outer
    | Leave                   // outer; left the loop
    | Exited

  /** Where a client stands in `Enqueue` or `Shutdown`. */
  datatype ClientPc =
    | Idle
    | EnqueueLock(task: Task)
    | EnqueueFlag(task: Task)    // outer; loads the shutdown flag
    | EnqueueUnlock(task: Task)  // outer; will execute the task itself
    | InlineFlag(task: Task)
    | InlineStop(task: Task)
    | InlineRunning(task: Task)
    | EnqueuePush(task: Task)    // outer
    | NotifyLock                 // outer
    | NotifyWake                 // outer, inner
    | NotifyUnlock               // outer, inner
    | EnqueueDone                // outer
    | ShutdownStore
    | ShutdownLock
    | StopTask(i: nat)           // outer; first loop of `InternalShutdown`
    | StopWorker(i: nat)         // outer; second loop
    | CallbackLock(i: nat)       // outer; runs the stop callback of worker i
    | CallbackWake(i: nat)       // outer, inner
    | CallbackUnlock(i: nat)     // outer, inner
    | ShutdownUnlock             // outer

  /**
   Shared data and program counters.  The last five fields are history: which tasks were ever
   handed over, pushed, popped, completed by a worker, and completed inside `Enqueue`; `returned`
   says that some `Shutdown` has returned.
   */
  datatype State = State(
    shutdown: bool,
    outer: Option<Thread>,
    inner: Option<Thread>,
    queue: seq<Task>,
    active: seq<Option<Task>>,
    stopped: seq<bool>,
    registered: seq<bool>,
    stoppedTasks: set<Task>,
    workers: seq<WorkerPc>,
    clients: seq<ClientPc>,
    used: set<Task>,
    accepted: seq<Task>,
    taken: seq<Task>,
    finished: seq<Task>,
    inlined: seq<Task>,
    returned: bool)

  datatype Action =
    | WorkerStep(w: nat)
    | SpuriousWake(w: nat)
    | ClientStep(c: nat)
    | NotifyOne(c: nat, w: nat)        // `notify_one` picks blocked worker w
    | BeginEnqueue(c: nat, task: Task)
    | BeginShutdown(c: nat)

  predicate WorkerHoldsOuter(pc: WorkerPc) {
    match pc
    case Starting | WaitBlock | Blocked | Woken | WokenInner | WaitRelock => false
    case ExecFlag(_) | ExecStop(_) | Running(_) | Relock | Exited => false
    case _ => true
  }

  predicate WorkerHoldsInner(pc: WorkerPc) {
    pc.InlineWake? || pc.InlineUnlock? || pc.WaitStopInner? || pc.WaitUnlockOuter? || pc.WaitBlock? ||
    pc.WokenInner? || pc.GiveUp?
  }

  predicate ClientHoldsOuter(pc: ClientPc) {
    match pc
    case Idle | EnqueueLock(_) | InlineFlag(_) | InlineStop(_) | InlineRunning(_) => false
    case ShutdownStore | ShutdownLock => false
    case _ => true
  }

  predicate ClientHoldsInner(pc: ClientPc) {
    pc.NotifyWake? || pc.NotifyUnlock? || pc.CallbackWake? || pc.CallbackUnlock?
  }

  predicate WorkerWantsOuter(pc: WorkerPc) { pc.Starting? || pc.WaitRelock? || pc.Relock? }

  predicate WorkerWantsInner(pc: WorkerPc) { pc.InlineLock? || pc.WaitLockInner? || pc.Woken? }

  predicate ClientWantsOuter(pc: ClientPc) { pc.EnqueueLock? || pc.ShutdownLock? }

  predicate ClientWantsInner(pc: ClientPc) { pc.NotifyLock? || pc.CallbackLock? }

  /** The stop callback of worker w is being run by client pc. */
  predicate RunsCallbackOf(pc: ClientPc, w: nat) {
    (pc.CallbackLock? || pc.CallbackWake? || pc.CallbackUnlock?) && pc.i == w
  }

  function Idles(n: nat): (s: seq<ClientPc>) { seq(n, _ => Idle) }

  function Init(workers: nat, clients: nat): State {
    State(false, None, None, [], seq(workers, _ => None), seq(workers, _ => false), seq(workers, _ => false), {},
          seq(workers, _ => Starting), Idles(clients), {}, [], [], [], [], false)
  }

  /** Every index stored in a program counter names a worker. */
  ghost predicate Shape(s: State) {
    && |s.active| == |s.stopped| == |s.registered| == |s.workers|
    && forall c :: 0 <= c < |s.clients| ==> ClientShape(s.clients[c], |s.workers|)
  }

  predicate ClientShape(pc: ClientPc, n: nat) {
    match pc
    case StopTask(i) => i <= n
    case StopWorker(i) => i <= n
    case CallbackLock(i) => i < n
    case CallbackWake(i) => i < n
    case CallbackUnlock(i) => i < n
    case _ => true
  }

  /** Worker w can take its next step: only a lock, the blocking wait and the callback's end hold it up. */
  ghost predicate WorkerReady(s: State, w: nat)
    requires w < |s.workers|
  {
    var pc := s.workers[w];
    && (WorkerWantsOuter(pc) ==> s.outer.None?)
    && (WorkerWantsInner(pc) ==> s.inner.None?)
    && (pc.Deregister? ==> forall c :: 0 <= c < |s.clients| ==> !RunsCallbackOf(s.clients[c], w))
    && !pc.Blocked? && !pc.Exited?
  }

  ghost predicate SomeBlocked(s: State) {
    exists w :: 0 <= w < |s.workers| && s.workers[w].Blocked?
  }

  ghost predicate ClientReady(s: State, c: nat)
    requires c < |s.clients|
  {
    var pc := s.clients[c];
    && (ClientWantsOuter(pc) ==> s.outer.None?)
    && (ClientWantsInner(pc) ==> s.inner.None?)
    && (pc.NotifyWake? ==> !SomeBlocked(s))
    && !pc.Idle?
  }

  ghost predicate Enabled(s: State, a: Action) {
    match a
    case WorkerStep(w) => w < |s.workers| && WorkerReady(s, w)
    case SpuriousWake(w) => w < |s.workers| && s.workers[w].Blocked?
    case ClientStep(c) => c < |s.clients| && ClientReady(s, c)
    case NotifyOne(c, w) =>
      c < |s.clients| && s.clients[c].NotifyWake? && w < |s.workers| && s.workers[w].Blocked?
    case BeginEnqueue(c, t) => c < |s.clients| && s.clients[c].Idle? && t !in s.used
    case BeginShutdown(c) => c < |s.clients| && s.clients[c].Idle?
  }

  function WakeAll(workers: seq<WorkerPc>): (r: seq<WorkerPc>)
    ensures |r| == |workers|
    ensures forall w :: 0 <= w < |r| ==> r[w] == (if workers[w].Blocked? then Woken else workers[w])
  {
    seq(|workers|, i requires 0 <= i < |workers| => if workers[i].Blocked? then Woken else workers[i])
  }

  // A step is given field by field: where the thread goes next, then what each shared field becomes.

  function WorkerNextPc(s: State, w: nat): WorkerPc
    requires w < |s.workers| == |s.stopped|
  {
    match s.workers[w]
    case Starting => LoopStop
    case LoopStop => if s.stopped[w] then LoopQueue else WaitStop
    case LoopQueue => if s.queue == [] then Leave else WaitStop
    case WaitStop => if s.stopped[w] then Take else WaitRegister
    case WaitRegister => if s.stopped[w] then InlineLock else WaitPredicate
    case InlineLock => InlineWake
    case InlineWake => InlineUnlock
    case InlineUnlock => WaitPredicate
    case WaitPredicate => if s.queue != [] then Deregister else WaitLockInner
    case WaitLockInner => WaitStopInner
    case WaitStopInner => if s.stopped[w] then GiveUp else WaitUnlockOuter
    case WaitUnlockOuter => WaitBlock
    case WaitBlock => Blocked
    case Blocked => Blocked
    case Woken => WokenInner
    case WokenInner => WaitRelock
    case WaitRelock => WaitPredicate
    case GiveUp => Deregister
    case Deregister => Take
    case Take => if s.queue == [] then LoopStop else UnlockToRun(s.queue[0])
    case UnlockToRun(t) => ExecFlag(t)
    case ExecFlag(t) => if s.shutdown then ExecStop(t) else Running(t)
    case ExecStop(t) => Running(t)
    case Running(_) => Relock
    case Relock => ClearActive
    case ClearActive => LoopStop
    case Leave => Exited
    case Exited => Exited
  }

  predicate WorkerReleasesOuter(pc: WorkerPc) { pc.WaitUnlockOuter? || pc.UnlockToRun? || pc.Leave? }

  predicate WorkerReleasesInner(pc: WorkerPc) { pc.InlineUnlock? || pc.WaitBlock? || pc.WokenInner? || pc.GiveUp? }

  /** The owner of a mutex after `me` takes it, releases it, or leaves it alone. */
  function Owner(owner: Option<Thread>, me: Thread, acquires: bool, releases: bool): Option<Thread> {
    if acquires then Some(me) else if releases then None else owner
  }

  ghost function WorkerNext(s: State, w: nat): State
    requires Shape(s) && w < |s.workers| && WorkerReady(s, w)
  {
    var pc := s.workers[w];
    var pops := pc.Take? && s.queue != [];
    State(
      s.shutdown,
      Owner(s.outer, Worker(w), WorkerWantsOuter(pc), WorkerReleasesOuter(pc)),
      Owner(s.inner, Worker(w), WorkerWantsInner(pc), WorkerReleasesInner(pc)),
      if pops then s.queue[1..] else s.queue,
      if pops then s.active[w := Some(s.queue[0])] else if pc.ClearActive? then s.active[w := None] else s.active,
      s.stopped,
      if pc.WaitRegister? && !s.stopped[w] then s.registered[w := true]
      else if pc.Deregister? then s.registered[w := false] else s.registered,
      if pc.ExecStop? then s.stoppedTasks + {pc.task} else s.stoppedTasks,
      (if pc.InlineWake? then WakeAll(s.workers) else s.workers)[w := WorkerNextPc(s, w)],
      s.clients,
      s.used,
      s.accepted,
      if pops then s.taken + [s.queue[0]] else s.taken,
      if pc.Running? then s.finished + [pc.task] else s.finished,
      s.inlined,
      s.returned)
  }

  function ClientNextPc(s: State, c: nat): ClientPc
    requires c < |s.clients| && |s.registered| == |s.stopped| == |s.workers|
    requires ClientShape(s.clients[c], |s.workers|)
  {
    var n := |s.workers|;
    match s.clients[c]
    case Idle => Idle
    case EnqueueLock(t) => EnqueueFlag(t)
    case EnqueueFlag(t) => if s.shutdown then EnqueueUnlock(t) else EnqueuePush(t)
    case EnqueueUnlock(t) => InlineFlag(t)
    case InlineFlag(t) => if s.shutdown then InlineStop(t) else InlineRunning(t)
    case InlineStop(t) => InlineRunning(t)
    case InlineRunning(_) => Idle
    case EnqueuePush(_) => NotifyLock
    case NotifyLock => NotifyWake
    case NotifyWake => NotifyUnlock
    case NotifyUnlock => EnqueueDone
    case EnqueueDone => Idle
    case ShutdownStore => ShutdownLock
    case ShutdownLock => StopTask(0)
    case StopTask(i) => if i == n then StopWorker(0) else StopTask(i + 1)
    case StopWorker(i) =>
      if i == n then ShutdownUnlock
      else if !s.stopped[i] && s.registered[i] then CallbackLock(i)
      else StopWorker(i + 1)
    case CallbackLock(i) => CallbackWake(i)
    case CallbackWake(i) => CallbackUnlock(i)
    case CallbackUnlock(i) => StopWorker(i + 1)
    case ShutdownUnlock => Idle
  }

  predicate ClientReleasesOuter(pc: ClientPc) { pc.EnqueueUnlock? || pc.EnqueueDone? || pc.ShutdownUnlock? }

  predicate ClientReleasesInner(pc: ClientPc) { pc.NotifyUnlock? || pc.CallbackUnlock? }

  ghost function ClientNext(s: State, c: nat): State
    requires Shape(s) && c < |s.clients| && ClientReady(s, c)
  {
    var pc := s.clients[c];
    var n := |s.workers|;
    State(
      s.shutdown || pc.ShutdownStore?,
      Owner(s.outer, Client(c), ClientWantsOuter(pc), ClientReleasesOuter(pc)),
      Owner(s.inner, Client(c), ClientWantsInner(pc), ClientReleasesInner(pc)),
      if pc.EnqueuePush? then s.queue + [pc.task] else s.queue,
      s.active,
      if pc.StopWorker? && pc.i < n then s.stopped[pc.i := true] else s.stopped,
      s.registered,
      if pc.InlineStop? then s.stoppedTasks + {pc.task}
      else if pc.StopTask? && pc.i < n && s.active[pc.i].Some? then s.stoppedTasks + {s.active[pc.i].value}
      else s.stoppedTasks,
      if pc.CallbackWake? then WakeAll(s.workers) else s.workers,
      s.clients[c := ClientNextPc(s, c)],
      s.used,
      if pc.EnqueuePush? then s.accepted + [pc.task] else s.accepted,
      s.taken,
      s.finished,
      if pc.InlineRunning? then s.inlined + [pc.task] else s.inlined,
      s.returned || pc.ShutdownUnlock?)
  }

  /** Who is woken by `notify_one` or spuriously. */
  function OtherWorkers(workers: seq<WorkerPc>, a: Action): seq<WorkerPc>
    requires a.SpuriousWake? || a.NotifyOne? ==> a.w < |workers|
  {
    if a.SpuriousWake? || a.NotifyOne? then workers[a.w := Woken] else workers
  }

  /** Which client begins a call, or has notified. */
  function OtherClients(clients: seq<ClientPc>, a: Action): seq<ClientPc>
    requires a.NotifyOne? || a.BeginEnqueue? || a.BeginShutdown? ==> a.c < |clients|
  {
    match a
    case NotifyOne(c, _) => clients[c := NotifyUnlock]
    case BeginEnqueue(c, t) => clients[c := EnqueueLock(t)]
    case BeginShutdown(c) => clients[c := ShutdownStore]
    case _ => clients
  }

  /** The calls that begin, and the wake-ups that are not a step of the woken thread. */
  ghost function OtherNext(s: State, a: Action): State
    requires Shape(s) && Enabled(s, a) && !a.WorkerStep? && !a.ClientStep?
  {
    State(
      s.shutdown, s.outer, s.inner, s.queue, s.active, s.stopped, s.registered, s.stoppedTasks,
      OtherWorkers(s.workers, a),
      OtherClients(s.clients, a),
      if a.BeginEnqueue? then s.used + {a.task} else s.used,
      s.accepted, s.taken, s.finished, s.inlined, s.returned)
  }

  ghost function Apply(s: State, a: Action): State
    requires Shape(s) && Enabled(s, a)
  {
    match a
    case WorkerStep(w) => WorkerNext(s, w)
    case ClientStep(c) => ClientNext(s, c)
    case _ => OtherNext(s, a)
  }

  /** A run: each action is enabled where it is taken. */
  ghost predicate IsRun(states: seq<State>, actions: seq<Action>) {
    && |states| == |actions| + 1
    && (forall i :: 0 <= i < |states| ==> Shape(states[i]))
    && forall i :: 0 <= i < |actions| ==>
         Enabled(states[i], actions[i]) && states[i + 1] == Apply(states[i], actions[i])
  }
}
