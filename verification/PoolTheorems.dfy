/** What the thread pool promises, over every run of any number of workers and clients. */
module PoolTheorems {
  import opened Counting
  import opened PoolMachine
  import opened PoolSafety

  ghost predicate Inv(s: State) {
    && Mutexes(s) && StopStable(s) && CallbacksListed(s) && ReasonToReturn(s) && FlagFirst(s) && StopsInOrder(s)
    && NoLateCallback(s) && StopHandshake(s) && StopReaches(s) && LeftEmpty(s) && NoLostWakeup(s)
    && OnePlace(s) && InOrder(s)
  }

  lemma InitInv(workers: nat, clients: nat)
    ensures Inv(Init(workers, clients))
  {
    InitTasks(workers, clients);
  }

  lemma InitHoldsNone(workers: nat, clients: nat, t: Task)
    ensures Count(Init(workers, clients).workers, WorkerHolds(t)) == 0
    ensures Count(Init(workers, clients).clients, ClientHolds(t)) == 0
  {
    CountZero(Init(workers, clients).workers, WorkerHolds(t));
    CountZero(Init(workers, clients).clients, ClientHolds(t));
  }

  lemma InitTasks(workers: nat, clients: nat)
    ensures OnePlace(Init(workers, clients)) && InOrder(Init(workers, clients))
  {
    var s := Init(workers, clients);
    forall t: Task ensures Count(s.workers, WorkerHolds(t)) == 0 && Count(s.clients, ClientHolds(t)) == 0 {
      InitHoldsNone(workers, clients, t);
    }
  }

  lemma InvStep(s: State, a: Action)
    requires Inv(s) && Enabled(s, a)
    ensures Inv(Apply(s, a))
  {
    MutexesStep(s, a);
    StopStableStep(s, a);
    CallbacksListedStep(s, a);
    ReasonToReturnStep(s, a);
    FlagFirstStep(s, a);
    StopsInOrderStep(s, a);
    NoLateCallbackStep(s, a);
    StopHandshakeStep(s, a);
    StopReachesStep(s, a);
    LeftEmptyStep(s, a);
    NoLostWakeupStep(s, a);
    OnePlaceStep(s, a);
    InOrderStep(s, a);
  }

  /** A run of a pool with the given numbers of threads, from its construction. */
  ghost predicate PoolRun(states: seq<State>, actions: seq<Action>, workers: nat, clients: nat) {
    IsRun(states, actions) && states[0] == Init(workers, clients)
  }

  lemma {:induction false} RunInv(states: seq<State>, actions: seq<Action>, workers: nat, clients: nat, i: nat)
    requires PoolRun(states, actions, workers, clients) && i < |states|
    ensures Inv(states[i])
    decreases i
  {
    if i == 0 {
      InitInv(workers, clients);
    } else {
      RunInv(states, actions, workers, clients, i - 1);
      InvStep(states[i - 1], actions[i - 1]);
    }
  }

  // ---------------------------------------------------------------- what only grows

  /** `s'` is later than `s`: nothing that was recorded is taken back. */
  ghost predicate Later(s: State, s': State) {
    && |s'.workers| == |s.workers|
    && (s.returned ==> s'.returned) && (s.shutdown ==> s'.shutdown)
    && s.accepted <= s'.accepted && s.taken <= s'.taken && s.finished <= s'.finished
    && forall w :: 0 <= w < |s.workers| && HasLeft(s.workers[w]) ==> HasLeft(s'.workers[w])
  }

  lemma LaterStep(s: State, a: Action)
    requires Shape(s) && Enabled(s, a)
    ensures Later(s, Apply(s, a))
  {
  }

  lemma LaterTransitive(s: State, t: State, u: State)
    requires Later(s, t) && Later(t, u)
    ensures Later(s, u)
  {
  }

  lemma RunLaterStep(states: seq<State>, actions: seq<Action>, k: nat)
    requires IsRun(states, actions) && k < |actions|
    ensures Later(states[k], states[k + 1])
  {
    LaterStep(states[k], actions[k]);
  }

  lemma {:induction false} ChainLater(states: seq<State>, i: nat, j: nat)
    requires i <= j < |states| && forall k :: 0 <= k < |states| - 1 ==> Later(states[k], states[k + 1])
    ensures Later(states[i], states[j])
    decreases j
  {
    if i == j {
    } else {
      ChainLater(states, i, j - 1);
      assert Later(states[j - 1], states[j - 1 + 1]);
      LaterTransitive(states[i], states[j - 1], states[j]);
    }
  }

  lemma RunLater(states: seq<State>, actions: seq<Action>, i: nat, j: nat)
    requires IsRun(states, actions) && i <= j < |states|
    ensures Later(states[i], states[j])
  {
    forall k | 0 <= k < |states| - 1 ensures Later(states[k], states[k + 1]) {
      RunLaterStep(states, actions, k);
    }
    ChainLater(states, i, j);
  }

  // ---------------------------------------------------------------- no lost wake-up

  /** The worker has been woken and is on its way back to `queue_mutex_`. */
  predicate OnTheWay(pc: WorkerPc) { pc.Woken? || pc.WokenInner? || pc.WaitRelock? }

  /**
   While a worker sleeps or is committed to sleep, there are at most as many queued tasks as
   wake-ups under way; with `queue_mutex_` free, the workers on their way back to it cover them all.
   */
  lemma NoTaskBesideASleeper(states: seq<State>, actions: seq<Action>, workers: nat, clients: nat, i: nat)
    requires PoolRun(states, actions, workers, clients) && i < |states|
    requires exists w :: 0 <= w < |states[i].workers| && Committed(states[i].workers[w])
    ensures |states[i].queue| <= Count(states[i].workers, Rechecking) + if SomeNotifying(states[i]) then 1 else 0
    ensures states[i].outer.None? ==> |states[i].queue| <= Count(states[i].workers, OnTheWay)
  {
    RunInv(states, actions, workers, clients, i);
    var s := states[i];
    if s.outer.None? {
      CountSame(s.workers, Rechecking, OnTheWay);
    }
  }

  // ---------------------------------------------------------------- exactly once, in order, never stranded

  /**
   Every task handed to `Enqueue` is in exactly one place, a task not yet handed over in none;
   tasks leave the queue in the order they entered it.
   */
  lemma ExactlyOnce(states: seq<State>, actions: seq<Action>, workers: nat, clients: nat, i: nat, t: Task)
    requires PoolRun(states, actions, workers, clients) && i < |states|
    ensures Places(states[i], t) == if t in states[i].used then 1 else 0
    ensures states[i].taken <= states[i].accepted
    ensures states[i].queue == states[i].accepted[|states[i].taken|..]
    ensures multiset(states[i].finished)[t] <= multiset(states[i].accepted)[t]
  {
    RunInv(states, actions, workers, clients, i);
    var s := states[i];
    assert s.accepted == s.taken + s.queue;
    assert multiset(s.accepted)[t] == multiset(s.taken)[t] + multiset(s.queue)[t];
    assert multiset(s.taken)[t] == Count(s.workers, WorkerHolds(t)) + multiset(s.finished)[t];
  }

  /** Once any worker has left its loop, the queue is empty for good and accepts nothing more. */
  lemma NeverStranded(states: seq<State>, actions: seq<Action>, workers: nat, clients: nat, i: nat, j: nat, w: nat)
    requires PoolRun(states, actions, workers, clients) && i <= j < |states|
    requires w < |states[i].workers| && HasLeft(states[i].workers[w])
    ensures states[j].queue == []
    ensures states[j].accepted == states[i].accepted
  {
    RunLater(states, actions, i, j);
    RunInv(states, actions, workers, clients, i);
    RunInv(states, actions, workers, clients, j);
    AcceptsNoMore(states, actions, workers, clients, i, j, w);
  }

  lemma {:induction false} AcceptsNoMore(
    states: seq<State>, actions: seq<Action>, workers: nat, clients: nat, i: nat, j: nat, w: nat)
    requires PoolRun(states, actions, workers, clients) && i <= j < |states|
    requires w < |states[i].workers| && HasLeft(states[i].workers[w])
    ensures states[j].accepted == states[i].accepted
    decreases j
  {
    if i == j {
    } else {
      AcceptsNoMore(states, actions, workers, clients, i, j - 1, w);
      RunLater(states, actions, i, j - 1);
      RunInv(states, actions, workers, clients, j - 1);
      PushNeedsWorkers(states[j - 1], actions[j - 1], w);
    }
  }

  lemma PushNeedsWorkers(s: State, a: Action, w: nat)
    requires Shape(s) && StopStable(s) && FlagFirst(s) && Enabled(s, a) && w < |s.workers| && HasLeft(s.workers[w])
    ensures Apply(s, a).accepted == s.accepted
  {
    assert s.stopped[w];
  }

  /** With every worker joined, the tasks the queue accepted are exactly the ones workers completed. */
  lemma JoinedMeansDone(states: seq<State>, actions: seq<Action>, workers: nat, clients: nat, i: nat)
    requires PoolRun(states, actions, workers, clients) && i < |states| && workers > 0
    requires forall w :: 0 <= w < |states[i].workers| ==> states[i].workers[w].Exited?
    ensures multiset(states[i].accepted) == multiset(states[i].finished)
  {
    RunInv(states, actions, workers, clients, i);
    RunLater(states, actions, 0, i);
    Joined(states[i]);
  }

  lemma Joined(s: State)
    requires LeftEmpty(s) && InOrder(s) && |s.workers| > 0 && forall w :: 0 <= w < |s.workers| ==> s.workers[w].Exited?
    ensures multiset(s.accepted) == multiset(s.finished)
  {
    assert HasLeft(s.workers[0]);
    AllTakenDone(s);
  }

  lemma AllTakenDone(s: State)
    requires InOrder(s) && s.queue == []
    requires forall w :: 0 <= w < |s.workers| ==> TaskOf(s.workers[w]).None?
    ensures multiset(s.accepted) == multiset(s.finished)
  {
    forall t: Task ensures multiset(s.accepted)[t] == multiset(s.finished)[t] {
      TakenDone(s, t);
    }
  }

  lemma TakenDone(s: State, t: Task)
    requires InOrder(s) && s.queue == []
    requires forall w :: 0 <= w < |s.workers| ==> TaskOf(s.workers[w]).None?
    ensures multiset(s.accepted)[t] == multiset(s.finished)[t]
  {
    assert s.accepted == s.taken;
    CountZero(s.workers, WorkerHolds(t));
  }

  // ---------------------------------------------------------------- shutdown

  /** A stopped worker that sleeps is about to be woken by the thread that stops it. */
  lemma StoppedSleeperIsWoken(states: seq<State>, actions: seq<Action>, workers: nat, clients: nat, i: nat, w: nat)
    requires PoolRun(states, actions, workers, clients) && i < |states|
    requires w < |states[i].workers| == |states[i].stopped| && states[i].stopped[w] && states[i].workers[w].Blocked?
    ensures exists c :: 0 <= c < |states[i].clients| && AboutToNotify(states[i].clients[c], w)
  {
    RunInv(states, actions, workers, clients, i);
    assert NotifyOutstanding(states[i], w);
  }

  /** Once some `Shutdown` has returned no worker sleeps on the condition variable, then or ever after. */
  lemma NoSleepAfterShutdown(states: seq<State>, actions: seq<Action>, workers: nat, clients: nat,
                             i: nat, j: nat, w: nat)
    requires PoolRun(states, actions, workers, clients) && i <= j < |states|
    requires states[i].returned && w < |states[j].workers|
    ensures !states[j].workers[w].WaitBlock? && !states[j].workers[w].Blocked?
  {
    RunLater(states, actions, i, j);
    RunInv(states, actions, workers, clients, j);
  }

  /** Once some `Shutdown` has returned, a task that runs, on a worker or inside `Enqueue`, was asked to stop. */
  lemma StopReachesEveryTask(states: seq<State>, actions: seq<Action>, workers: nat, clients: nat, i: nat, j: nat)
    requires PoolRun(states, actions, workers, clients) && i <= j < |states| && states[i].returned
    ensures forall w :: 0 <= w < |states[j].workers| && states[j].workers[w].Running? ==>
                          states[j].workers[w].task in states[j].stoppedTasks
    ensures forall c :: 0 <= c < |states[j].clients| && states[j].clients[c].InlineRunning? ==>
                          states[j].clients[c].task in states[j].stoppedTasks
  {
    RunLater(states, actions, i, j);
    RunInv(states, actions, workers, clients, j);
  }
}
