/** The thread pool never gets stuck: no deadlock, and no run goes on for ever without new calls. */
module PoolProgress {
  import opened Wrappers
  import opened Counting
  import opened PoolMachine
  import opened PoolSafety
  import opened PoolTheorems

  // ---------------------------------------------------------------- no deadlock

  /** Steps the pool takes by itself: neither a new call nor a spurious wake-up. */
  predicate Internal(a: Action) { a.WorkerStep? || a.ClientStep? || a.NotifyOne? }

  predicate WorkerAtRest(pc: WorkerPc) { pc.Blocked? || pc.Exited? }

  /** Every worker sleeps or has exited, and no call is in progress. */
  ghost predicate AtRest(s: State) {
    && (forall w :: 0 <= w < |s.workers| ==> WorkerAtRest(s.workers[w]))
    && (forall c :: 0 <= c < |s.clients| ==> s.clients[c].Idle?)
  }

  /** A step that hands `queue_mutex_` to a thread hands it to one that does not hold the inner mutex. */
  lemma LockOrder(s: State, a: Action)
    requires Mutexes(s) && Enabled(s, a) && Apply(s, a).outer.Some? && Apply(s, a).outer != s.outer
    ensures s.inner != Apply(s, a).outer
  {
  }

  /** The action by which client c goes on. */
  lemma ClientGoesOn(s: State, c: nat) returns (a: Action)
    requires Mutexes(s) && c < |s.clients| && !s.clients[c].Idle?
    requires ClientWantsOuter(s.clients[c]) ==> s.outer.None?
    requires ClientWantsInner(s.clients[c]) ==> s.inner.None?
    ensures Internal(a) && Enabled(s, a)
  {
    if s.clients[c].NotifyWake? && SomeBlocked(s) {
      var w :| 0 <= w < |s.workers| && s.workers[w].Blocked?;
      a := NotifyOne(c, w);
    } else {
      a := ClientStep(c);
    }
  }

  lemma WorkerGoesOn(s: State, w: nat) returns (a: Action)
    requires Mutexes(s) && w < |s.workers| && !WorkerAtRest(s.workers[w])
    requires WorkerWantsOuter(s.workers[w]) ==> s.outer.None?
    requires WorkerWantsInner(s.workers[w]) ==> s.inner.None?
    ensures Internal(a) && Enabled(s, a)
  {
    a := WorkerStep(w);
    if s.workers[w].Deregister? {
      assert s.outer == Some(Worker(w));
      forall c | 0 <= c < |s.clients| ensures !RunsCallbackOf(s.clients[c], w) {
        assert !ClientHoldsOuter(s.clients[c]);
      }
    }
  }

  /** In every reachable state with unfinished business, some thread can go on. */
  lemma NoDeadlock(s: State) returns (a: Action)
    requires Inv(s) && !AtRest(s)
    ensures Internal(a) && Enabled(s, a)
  {
    if s.inner.Some? {
      a := OwnerGoesOn(s, s.inner.value);
    } else if s.outer.Some? {
      a := OwnerGoesOn(s, s.outer.value);
    } else if w :| 0 <= w < |s.workers| && !WorkerAtRest(s.workers[w]) {
      a := WorkerGoesOn(s, w);
    } else {
      var c :| 0 <= c < |s.clients| && !s.clients[c].Idle?;
      a := ClientGoesOn(s, c);
    }
  }

  lemma OwnerGoesOn(s: State, owner: Thread) returns (a: Action)
    requires Mutexes(s)
    requires s.inner == Some(owner) || (s.inner.None? && s.outer == Some(owner))
    ensures Internal(a) && Enabled(s, a)
  {
    match owner
    case Worker(w) => a := WorkerGoesOn(s, w);
    case Client(c) => a := ClientGoesOn(s, c);
  }

  lemma AtRestQueueEmpty(s: State)
    requires Inv(s) && AtRest(s) && |s.workers| > 0
    ensures s.queue == []
  {
    if s.workers[0].Blocked? {
      assert Committed(s.workers[0]);
      CountZero(s.workers, Rechecking);
    } else {
      assert HasLeft(s.workers[0]);
    }
  }

  lemma AtRestTaskDone(s: State, t: Task)
    requires OnePlace(s) && AtRest(s) && s.queue == [] && t in s.used
    ensures multiset(s.finished)[t] + multiset(s.inlined)[t] == 1
  {
    assert Places(s, t) == 1;
    CountZero(s.workers, WorkerHolds(t));
    CountZero(s.clients, ClientHolds(t));
  }

  /**
   At rest nothing is left over: every task handed to `Enqueue` ran exactly once, the queue is
   empty, and after a `Shutdown` every worker has exited.
   */
  lemma AtRestMeansDone(s: State)
    requires Inv(s) && AtRest(s) && |s.workers| > 0
    ensures s.queue == [] && multiset(s.accepted) == multiset(s.finished)
    ensures forall t :: t in s.used ==> multiset(s.finished)[t] + multiset(s.inlined)[t] == 1
    ensures s.returned ==> forall w :: 0 <= w < |s.workers| ==> s.workers[w].Exited?
  {
    AtRestQueueEmpty(s);
    AtRestTasksDone(s);
  }

  lemma AtRestTasksDone(s: State)
    requires OnePlace(s) && InOrder(s) && AtRest(s) && s.queue == []
    ensures multiset(s.accepted) == multiset(s.finished)
    ensures forall t :: t in s.used ==> multiset(s.finished)[t] + multiset(s.inlined)[t] == 1
  {
    AllTakenDone(s);
    forall t | t in s.used ensures multiset(s.finished)[t] + multiset(s.inlined)[t] == 1 {
      AtRestTaskDone(s, t);
    }
  }

  // ---------------------------------------------------------------- no endless run

  const WAKE := 12
  const TASK := 20

  /** An upper bound on the steps a worker takes before it sleeps or exits, not counting tasks still queued. */
  function WorkerRank(pc: WorkerPc, stopped: bool, empty: bool): nat {
    match pc
    case Blocked | Exited => 0
    case WaitBlock | Leave => 1
    case WaitUnlockOuter => 2
    case LoopQueue => if empty then 2 else 12
    case Take => 4
    case Deregister => 5
    case GiveUp => 6
    case WaitStopInner => 7
    case WaitLockInner => 8
    case WaitPredicate => 9
    case WaitRelock | WaitRegister => 10
    case WokenInner | WaitStop => 11
    case Woken => WAKE
    case LoopStop => if stopped && empty then 3 else 13
    case Starting | ClearActive => 14
    case Relock => 15
    case Running(_) => 16
    case ExecStop(_) => 17
    case ExecFlag(_) => 18
    case UnlockToRun(_) => 19
    case InlineLock | InlineWake | InlineUnlock => 0
  }

  /** What stopping one worker may cost: a few steps, and waking every worker. */
  function StopCost(n: nat): nat { WAKE * n + 4 }

  function StopRank(n: nat, i: nat): nat
    requires i <= n
    decreases n - i
  {
    if i == n then 2 else StopCost(n) + StopRank(n, i + 1)
  }

  function ClientRank(pc: ClientPc, n: nat): nat
    requires ClientShape(pc, n)
  {
    match pc
    case Idle => 0
    case EnqueueDone | InlineRunning(_) | ShutdownUnlock => 1
    case NotifyUnlock | InlineStop(_) => 2
    case InlineFlag(_) => 3
    case EnqueueUnlock(_) => 4
    case NotifyWake => WAKE + 3
    case NotifyLock => WAKE + 4
    case EnqueuePush(_) => WAKE + TASK + 5
    case EnqueueFlag(_) => WAKE + TASK + 6
    case EnqueueLock(_) => WAKE + TASK + 7
    case StopWorker(i) => StopRank(n, i)
    case CallbackUnlock(i) => StopRank(n, i + 1) + 1
    case CallbackWake(i) => StopRank(n, i + 1) + WAKE * n + 2
    case CallbackLock(i) => StopRank(n, i + 1) + WAKE * n + 3
    case StopTask(i) => StopRank(n, 0) + 1 + (n - i)
    case ShutdownLock => StopRank(n, 0) + n + 2
    case ShutdownStore => StopRank(n, 0) + n + 3
  }

  ghost function WorkerRanks(s: State): (r: seq<nat>)
    requires Shape(s)
    ensures |r| == |s.workers|
    ensures forall w :: 0 <= w < |r| ==> r[w] == WorkerRank(s.workers[w], s.stopped[w], s.queue == [])
  {
    seq(|s.workers|, w requires 0 <= w < |s.workers| && Shape(s) =>
      WorkerRank(s.workers[w], s.stopped[w], s.queue == []))
  }

  ghost function ClientRanks(s: State): (r: seq<nat>)
    requires Shape(s)
    ensures |r| == |s.clients|
    ensures forall c :: 0 <= c < |r| ==> r[c] == ClientRank(s.clients[c], |s.workers|)
  {
    seq(|s.clients|, c requires 0 <= c < |s.clients| && Shape(s) => ClientRank(s.clients[c], |s.workers|))
  }

  ghost function Measure(s: State): nat
    requires Shape(s)
  {
    Sum(WorkerRanks(s)) + Sum(ClientRanks(s)) + TASK * |s.queue|
  }

  lemma WorkerRankDrops(s: State, w: nat)
    requires Shape(s) && StopStable(s) && ReasonToReturn(s) && w < |s.workers| && WorkerReady(s, w)
    ensures var s' := WorkerNext(s, w);
      WorkerRank(s'.workers[w], s.stopped[w], s'.queue == []) + TASK * |s'.queue|
      < WorkerRank(s.workers[w], s.stopped[w], s.queue == []) + TASK * |s.queue|
  {
  }

  lemma WorkerMeasureStep(s: State, w: nat)
    requires Mutexes(s) && StopStable(s) && ReasonToReturn(s) && w < |s.workers| && WorkerReady(s, w)
    ensures Shape(WorkerNext(s, w)) && Measure(WorkerNext(s, w)) < Measure(s)
  {
    var s' := WorkerNext(s, w);
    ShapeStep(s, WorkerStep(w));
    assert ClientRanks(s') == ClientRanks(s);
    assert WorkerRanks(s') == WorkerRanks(s)[w := WorkerRanks(s')[w]];
    SumUpdate(WorkerRanks(s), w, WorkerRanks(s')[w]);
    WorkerRankDrops(s, w);
  }

  lemma ClientRankDrops(s: State, c: nat)
    requires Shape(s) && c < |s.clients| && ClientReady(s, c)
    requires ClientShape(ClientNextPc(s, c), |s.workers|)
    ensures var pc, pc', n := s.clients[c], ClientNextPc(s, c), |s.workers|;
      ClientRank(pc', n) + (if pc.EnqueuePush? then TASK else 0) + (if pc.CallbackWake? then WAKE * n else 0)
      < ClientRank(pc, n)
  {
  }

  lemma ClientMeasureStep(s: State, c: nat)
    requires Mutexes(s) && c < |s.clients| && ClientReady(s, c)
    ensures Shape(ClientNext(s, c)) && Measure(ClientNext(s, c)) < Measure(s)
  {
    var s' := ClientNext(s, c);
    ShapeStep(s, ClientStep(c));
    assert s'.clients[c] == ClientNextPc(s, c);
    assert ClientRanks(s') == ClientRanks(s)[c := ClientRanks(s')[c]];
    SumUpdate(ClientRanks(s), c, ClientRanks(s')[c]);
    ClientRankDrops(s, c);
    if s.clients[c].CallbackWake? {
      SumGrows(WorkerRanks(s), WorkerRanks(s'), WAKE);
    } else {
      assert WorkerRanks(s') == WorkerRanks(s);
    }
  }

  lemma WakeMeasure(s: State, s': State, w: nat)
    requires Shape(s) && Shape(s') && w < |s.workers| && s.workers[w].Blocked?
    requires s'.workers == s.workers[w := Woken] && s'.stopped == s.stopped && s'.queue == s.queue
    ensures Sum(WorkerRanks(s')) == Sum(WorkerRanks(s)) + WAKE
  {
    assert WorkerRanks(s') == WorkerRanks(s)[w := WAKE];
    SumUpdate(WorkerRanks(s), w, WAKE);
  }

  lemma ClientMeasure(s: State, s': State, c: nat)
    requires Shape(s) && Shape(s') && c < |s.clients| == |s'.clients| && |s'.workers| == |s.workers|
    requires s'.clients == s.clients[c := s'.clients[c]]
    ensures Sum(ClientRanks(s'))
         == Sum(ClientRanks(s)) - ClientRank(s.clients[c], |s.workers|) + ClientRank(s'.clients[c], |s.workers|)
  {
    assert ClientRanks(s') == ClientRanks(s)[c := ClientRanks(s')[c]];
    SumUpdate(ClientRanks(s), c, ClientRanks(s')[c]);
  }

  /** What one new call or spurious wake-up may add. */
  function CallCost(n: nat): nat { StopRank(n, 0) + n + WAKE + TASK + 7 }

  lemma NotifyOneRanks(s: State, c: nat, w: nat)
    requires Shape(s) && Enabled(s, NotifyOne(c, w))
    ensures var s' := Apply(s, NotifyOne(c, w));
      && s'.workers == s.workers[w := Woken] && s'.stopped == s.stopped && s'.queue == s.queue
      && s'.clients == s.clients[c := NotifyUnlock] && s.clients[c].NotifyWake?
  {
  }

  lemma NotifyOneMeasureStep(s: State, c: nat, w: nat)
    requires Shape(s) && Enabled(s, NotifyOne(c, w)) && Shape(Apply(s, NotifyOne(c, w)))
    ensures Measure(Apply(s, NotifyOne(c, w))) < Measure(s)
  {
    var s' := Apply(s, NotifyOne(c, w));
    NotifyOneRanks(s, c, w);
    WakeMeasure(s, s', w);
    ClientMeasure(s, s', c);
  }

  /** Every step the pool takes by itself brings it closer to rest. */
  lemma InternalMeasureStep(s: State, a: Action)
    requires Mutexes(s) && StopStable(s) && ReasonToReturn(s) && Enabled(s, a) && Internal(a)
    ensures Shape(Apply(s, a)) && Measure(Apply(s, a)) < Measure(s)
  {
    ShapeStep(s, a);
    match a
    case WorkerStep(w) => WorkerMeasureStep(s, w);
    case ClientStep(c) => ClientMeasureStep(s, c);
    case NotifyOne(c, w) => NotifyOneMeasureStep(s, c, w);
  }

  lemma SpuriousMeasure(s: State, w: nat)
    requires Shape(s) && Enabled(s, SpuriousWake(w)) && Shape(Apply(s, SpuriousWake(w)))
    ensures Measure(Apply(s, SpuriousWake(w))) == Measure(s) + WAKE
  {
    WakeMeasure(s, Apply(s, SpuriousWake(w)), w);
    assert ClientRanks(Apply(s, SpuriousWake(w))) == ClientRanks(s);
  }

  /** A new call costs what the client then has to do. */
  lemma CallMeasure(s: State, s': State, c: nat)
    requires Shape(s) && Shape(s') && c < |s.clients| && s.clients[c].Idle?
    requires s'.workers == s.workers && s'.stopped == s.stopped && s'.queue == s.queue
    requires |s'.clients| == |s.clients| && s'.clients == s.clients[c := s'.clients[c]]
    ensures Measure(s') == Measure(s) + ClientRank(s'.clients[c], |s.workers|)
  {
    ClientMeasure(s, s', c);
    assert WorkerRanks(s') == WorkerRanks(s);
  }

  /** A new call or a spurious wake-up adds a bounded amount of work. */
  lemma ExternalMeasureStep(s: State, a: Action)
    requires Mutexes(s) && Enabled(s, a) && External(a)
    ensures Shape(Apply(s, a)) && Measure(Apply(s, a)) <= Measure(s) + CallCost(|s.workers|)
  {
    ShapeStep(s, a);
    if a.SpuriousWake? {
      SpuriousMeasure(s, a.w);
    } else {
      CallMeasure(s, Apply(s, a), a.c);
    }
  }

  predicate External(a: Action) { !Internal(a) }

  lemma RunMeasureStep(states: seq<State>, actions: seq<Action>, workers: nat, clients: nat, i: nat)
    requires PoolRun(states, actions, workers, clients) && i < |actions|
    ensures if Internal(actions[i]) then Measure(states[i + 1]) < Measure(states[i])
            else Measure(states[i + 1]) <= Measure(states[i]) + CallCost(workers)
  {
    RunInv(states, actions, workers, clients, i);
    RunLater(states, actions, 0, i);
    if Internal(actions[i]) {
      InternalMeasureStep(states[i], actions[i]);
    } else {
      ExternalMeasureStep(states[i], actions[i]);
    }
  }

  lemma BoundedSteps(states: seq<State>, actions: seq<Action>, workers: nat, clients: nat, i: nat)
    requires PoolRun(states, actions, workers, clients) && i < |states|
    ensures Count(actions[..i], Internal) + Measure(states[i])
         <= Measure(states[0]) + Budget(CallCost(workers), Count(actions[..i], External))
  {
    var measures: seq<nat> := seq(|states|, k requires 0 <= k < |states| => Measure(states[k]));
    forall k | 0 <= k < |actions|
      ensures Charged(measures[k], actions[k], measures[k + 1], Internal, CallCost(workers))
    {
      RunMeasureStep(states, actions, workers, clients, k);
    }
    BoundedCharges(measures, actions, Internal, External, CallCost(workers), i);
  }

  /**
   No endless run: however the threads are scheduled, the pool takes at most a bounded number of
   steps by itself for each call and each spurious wake-up.
   */
  lemma BoundedRun(states: seq<State>, actions: seq<Action>, workers: nat, clients: nat, i: nat)
    requires PoolRun(states, actions, workers, clients) && i < |states|
    ensures Count(actions[..i], Internal) + Measure(states[i])
         <= Measure(states[0]) + CallCost(workers) * Count(actions[..i], External)
  {
    BoundedSteps(states, actions, workers, clients, i);
    BudgetIsProduct(CallCost(workers), Count(actions[..i], External));
  }

  /**
   When the pool can take no step by itself, every task handed over has run exactly once, and after
   a `Shutdown` every worker has exited.  With `BoundedRun`: once calls stop coming, however the
   threads are scheduled, this is where every run ends up.
   */
  lemma StuckMeansDone(states: seq<State>, actions: seq<Action>, workers: nat, clients: nat, i: nat)
    requires PoolRun(states, actions, workers, clients) && i < |states| && workers > 0
    requires forall a :: Internal(a) ==> !Enabled(states[i], a)
    ensures states[i].queue == []
    ensures forall t :: t in states[i].used ==> multiset(states[i].finished)[t] + multiset(states[i].inlined)[t] == 1
    ensures states[i].returned ==> forall w :: 0 <= w < |states[i].workers| ==> states[i].workers[w].Exited?
  {
    RunInv(states, actions, workers, clients, i);
    RunLater(states, actions, 0, i);
    if !AtRest(states[i]) {
      var a := NoDeadlock(states[i]);
      assert false;
    }
    AtRestMeansDone(states[i]);
  }
}
