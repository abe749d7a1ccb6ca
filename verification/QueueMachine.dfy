/**
 `SynchronizedQueue` as a step machine on top of the notification machine: one reader calling
 `Pop`, any number of senders calling `push`, and other threads that may request stop on any
 token.  Every `Pop` names the token it waits with.  A call of `waitForWithAbort`, `notify` or
 `reset` is begun here and carried on by the steps of the notification machine, interleaved with
 everything else.

 In the notification machine the reader is thread 0 and sender i is thread i + 1.
 */
module QueueMachine {
  import opened Wrappers
  import N = NotificationMachine

  type Item = int

  datatype ReaderPc =
    | ReaderIdle
    | PopLock          // about to lock `mutex_`
    | PopCheck         // mutex; is the queue empty?
    | PopUnlock        // mutex; about to wait
    | PopWaiting       // inside waitForWithAbort
    | PopRelock        // about to lock `mutex_` again
    | PopReset         // mutex
    | PopResetting     // mutex; inside reset
    | PopAssert        // mutex; asserts that the queue is not empty
    | PopTake          // mutex
    | PopDone          // mutex; about to return an item
    | Aborted          // the assertion fired

  datatype SenderPc =
    | SenderIdle
    | PushShared(x: Item)   // does the queue still exist?
    | PushLock(x: Item)
    | PushCheck(x: Item)    // mutex; is there room?
    | PushBack(x: Item)     // mutex
    | PushNotify            // mutex
    | PushNotifying         // mutex; inside notify
    | PushUnlock(ok: bool)  // mutex

  /**
   `signalled` counts the pushes whose notification flag has been stored, `completed` those that returned true;
   `before` is how many items had been popped when the last `Pop` was called, `item[i]` what sender i last called `push`
   with.
   */
  datatype State = State(
    n: N.State,
    alive: bool,
    mutex: Option<nat>,
    queue: seq<Item>,
    max: nat,
    reader: ReaderPc,
    until: Option<N.Time>,
    token: nat,
    senders: seq<SenderPc>,
    accepted: seq<Item>,
    popped: seq<Item>,
    signalled: nat,
    completed: nat,
    before: nat,
    item: seq<Item>)

  datatype Action =
    | ReaderStep
    | SenderStep(i: nat)
    | Inside(a: N.Action)
    | BeginPop(until: Option<N.Time>, j: nat)
    | BeginPush(i: nat, x: Item)
    | Destroy

  predicate ReaderHolds(pc: ReaderPc) {
    !pc.ReaderIdle? && !pc.PopLock? && !pc.PopWaiting? && !pc.PopRelock?
  }

  predicate SenderHolds(pc: SenderPc) { !pc.SenderIdle? && !pc.PushShared? && !pc.PushLock? }

  function Init(max: nat, senders: nat, others: nat, tokens: nat): State {
    State(N.Init(1 + senders + others, tokens), true, None, [], max, ReaderIdle, None, 0,
          seq(senders, _ => SenderIdle), [], [], 0, 0, 0, seq(senders, _ => 0))
  }

  ghost predicate Shape(s: State) {
    N.Shape(s.n) && |s.n.threads| >= 1 + |s.senders| == 1 + |s.item| && s.token < |s.n.stopped|
  }

  /** The call the reader made on the notification has returned. */
  predicate Returned(s: State, t: nat)
    requires t < |s.n.threads|
  {
    s.n.threads[t].Idle?
  }

  ghost predicate ReaderReady(s: State)
    requires Shape(s)
  {
    && (s.reader.PopLock? || s.reader.PopRelock? ==> s.mutex.None?)
    && (s.reader.PopWaiting? || s.reader.PopResetting? ==> Returned(s, 0))
    && !s.reader.ReaderIdle? && !s.reader.Aborted?
  }

  ghost predicate SenderReady(s: State, i: nat)
    requires Shape(s) && i < |s.senders|
  {
    var pc := s.senders[i];
    && (pc.PushLock? ==> s.mutex.None?)
    && (pc.PushNotifying? ==> Returned(s, i + 1))
    && !pc.SenderIdle?
  }

  /** Steps inside the notification; threads that are neither reader nor sender may begin a stop request. */
  ghost predicate InsideAllowed(s: State, a: N.Action) {
    match a
    case Step(_) => true
    case Wake(_) => true
    case Tick(_) => true
    case Pick(_, _) => true
    case BeginStop(t, _) => t >= 1 + |s.senders|
    case _ => false
  }

  ghost predicate Enabled(s: State, a: Action)
    requires Shape(s)
  {
    match a
    case ReaderStep => ReaderReady(s)
    case SenderStep(i) => i < |s.senders| && SenderReady(s, i)
    case Inside(b) => N.Enabled(s.n, b) && InsideAllowed(s, b)
    case BeginPop(_, j) => s.reader.ReaderIdle? && s.alive && j < |s.n.stopped|
    case BeginPush(i, _) => i < |s.senders| && s.senders[i].SenderIdle?
    case Destroy => s.reader.ReaderIdle?
  }

  function ReaderNextPc(s: State): ReaderPc
    requires |s.n.results| > 0
  {
    match s.reader
    case ReaderIdle => ReaderIdle
    case PopLock => PopCheck
    case PopCheck => if s.queue == [] then PopUnlock else PopReset
    case PopUnlock => PopWaiting
    case PopWaiting => if s.n.results[0] then PopRelock else ReaderIdle
    case PopRelock => PopReset
    case PopReset => PopResetting
    case PopResetting => PopAssert
    case PopAssert => if s.queue == [] then Aborted else PopTake
    case PopTake => PopDone
    case PopDone => ReaderIdle
    case Aborted => Aborted
  }

  function Owner(owner: Option<nat>, me: nat, acquires: bool, releases: bool): Option<nat> {
    if acquires then Some(me) else if releases then None else owner
  }

  ghost function ReaderNotification(s: State): N.State
    requires Shape(s)
  {
    if s.reader.PopUnlock? && s.n.threads[0].Idle? then N.Apply(s.n, N.BeginWait(0, s.until, s.token))
    else if s.reader.PopReset? && s.n.threads[0].Idle? then N.Apply(s.n, N.BeginReset(0))
    else s.n
  }

  ghost function ReaderNext(s: State): State
    requires Shape(s) && ReaderReady(s)
  {
    var pc := s.reader;
    var pops := pc.PopTake? && s.queue != [];
    State(
      ReaderNotification(s),
      s.alive,
      Owner(s.mutex, 0, pc.PopLock? || pc.PopRelock?, pc.PopUnlock? || pc.PopDone?),
      if pops then s.queue[1..] else s.queue,
      s.max,
      ReaderNextPc(s),
      s.until,
      s.token,
      s.senders,
      s.accepted,
      if pops then s.popped + [s.queue[0]] else s.popped,
      s.signalled,
      s.completed,
      s.before,
      s.item)
  }

  function SenderNextPc(s: State, i: nat): SenderPc
    requires i < |s.senders|
  {
    match s.senders[i]
    case SenderIdle => SenderIdle
    case PushShared(x) => if s.alive then PushLock(x) else SenderIdle
    case PushLock(x) => PushCheck(x)
    case PushCheck(x) => if |s.queue| < s.max then PushBack(x) else PushUnlock(false)
    case PushBack(_) => PushNotify
    case PushNotify => PushNotifying
    case PushNotifying => PushUnlock(true)
    case PushUnlock(_) => SenderIdle
  }

  ghost function SenderNext(s: State, i: nat): State
    requires Shape(s) && i < |s.senders| && SenderReady(s, i)
  {
    var pc := s.senders[i];
    State(
      if pc.PushNotify? && s.n.threads[i + 1].Idle? then N.Apply(s.n, N.BeginNotify(i + 1)) else s.n,
      s.alive,
      Owner(s.mutex, i + 1, pc.PushLock?, pc.PushUnlock?),
      if pc.PushBack? then s.queue + [pc.x] else s.queue,
      s.max,
      s.reader,
      s.until,
      s.token,
      s.senders[i := SenderNextPc(s, i)],
      if pc.PushBack? then s.accepted + [pc.x] else s.accepted,
      s.popped,
      s.signalled,
      if pc == PushUnlock(true) then s.completed + 1 else s.completed,
      s.before,
      s.item)
  }

  ghost predicate Signals(s: State, a: N.Action) {
    a.Step? && a.t < |s.n.threads| && s.n.threads[a.t].NotifySet?
  }

  ghost function Apply(s: State, a: Action): State
    requires Shape(s) && Enabled(s, a)
  {
    match a
    case ReaderStep => ReaderNext(s)
    case SenderStep(i) => SenderNext(s, i)
    case Inside(b) => s.(n := N.Apply(s.n, b), signalled := if Signals(s, b) then s.signalled + 1 else s.signalled)
    case BeginPop(until, j) => s.(reader := PopLock, until := until, token := j, before := |s.popped|)
    case BeginPush(i, x) => s.(senders := s.senders[i := PushShared(x)], item := s.item[i := x])
    case Destroy => s.(alive := false)
  }

  ghost predicate IsRun(states: seq<State>, actions: seq<Action>) {
    && |states| == |actions| + 1
    && (forall i :: 0 <= i < |states| ==> Shape(states[i]))
    && forall i :: 0 <= i < |actions| ==>
         Enabled(states[i], actions[i]) && states[i + 1] == Apply(states[i], actions[i])
  }
}
