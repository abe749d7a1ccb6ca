/** When the pool asks a task to stop: never before a shutdown, and only tasks that were handed over. */
module PoolStops {
  import opened Wrappers
  import opened Counting
  import opened PoolMachine
  import opened PoolSafety
  import opened PoolTheorems

  /** The tasks asked to stop, and those in `active_`, were handed over; a stop follows the flag. */
  ghost predicate StopsJustified(s: State) {
    && Shape(s)
    && (forall t :: t in s.stoppedTasks ==> s.shutdown && t in s.used)
    && (forall w :: 0 <= w < |s.workers| && s.workers[w].ExecStop? ==> s.shutdown)
    && (forall w :: 0 <= w < |s.active| && s.active[w].Some? ==> s.active[w].value in s.used)
  }

  // ---------------------------------------------------------------- whoever is somewhere was handed over

  lemma QueuedIsUsed(s: State)
    requires OnePlace(s) && s.queue != []
    ensures s.queue[0] in s.used
  {
    assert s.queue[0] in multiset(s.queue);
    assert Places(s, s.queue[0]) > 0;
  }

  lemma {:induction false} CountPositive<T(!new)>(xs: seq<T>, i: nat, p: T -> bool)
    requires i < |xs| && p(xs[i])
    ensures Count(xs, p) > 0
  {
    if i == |xs| - 1 {
    } else {
      CountPositive(xs[..|xs| - 1], i, p);
    }
  }

  lemma WorkersTaskIsUsed(s: State, w: nat)
    requires OnePlace(s) && w < |s.workers| && TaskOf(s.workers[w]).Some?
    ensures TaskOf(s.workers[w]).value in s.used
  {
    var t := TaskOf(s.workers[w]).value;
    CountPositive(s.workers, w, WorkerHolds(t));
    assert Places(s, t) > 0;
  }

  lemma ClientsTaskIsUsed(s: State, c: nat)
    requires OnePlace(s) && c < |s.clients| && Handing(s.clients[c]).Some?
    ensures Handing(s.clients[c]).value in s.used
  {
    var t := Handing(s.clients[c]).value;
    CountPositive(s.clients, c, ClientHolds(t));
    assert Places(s, t) > 0;
  }

  // ---------------------------------------------------------------- every step keeps it

  lemma WorkerTouchesUsed(s: State, w: nat)
    requires StopsJustified(s) && w < |s.workers| && WorkerReady(s, w) && Shape(WorkerNext(s, w))
    requires s.workers[w].ExecStop? ==> s.workers[w].task in s.used
    requires s.workers[w].Take? && s.queue != [] ==> s.queue[0] in s.used
    ensures StopsJustified(WorkerNext(s, w))
  {
    var s' := WorkerNext(s, w);
    assert s'.workers[w].ExecStop? ==> s.shutdown;
    forall v | 0 <= v < |s.active| && s'.active[v].Some? ensures s'.active[v].value in s.used {
      assert v != w ==> s'.active[v] == s.active[v];
    }
  }

  lemma WorkerStopsJustified(s: State, w: nat)
    requires OnePlace(s) && StopsJustified(s) && w < |s.workers| && WorkerReady(s, w) && Shape(WorkerNext(s, w))
    ensures StopsJustified(WorkerNext(s, w))
  {
    if TaskOf(s.workers[w]).Some? {
      WorkersTaskIsUsed(s, w);
    }
    if s.queue != [] {
      QueuedIsUsed(s);
    }
    WorkerTouchesUsed(s, w);
  }

  lemma ClientStopsJustified(s: State, c: nat)
    requires OnePlace(s) && FlagFirst(s) && StopsJustified(s) && c < |s.clients| && ClientReady(s, c)
    requires Shape(ClientNext(s, c))
    ensures StopsJustified(ClientNext(s, c))
  {
    assert AfterFlag(s.clients[c]) ==> s.shutdown;
    if s.clients[c].InlineStop? {
      ClientsTaskIsUsed(s, c);
    }
  }

  lemma StopsJustifiedStep(s: State, a: Action)
    requires OnePlace(s) && FlagFirst(s) && StopsJustified(s) && Enabled(s, a)
    ensures StopsJustified(Apply(s, a))
  {
    ShapeStep(s, a);
    match a
    case WorkerStep(w) => WorkerStopsJustified(s, w);
    case ClientStep(c) => ClientStopsJustified(s, c);
    case _ =>
  }

  // ---------------------------------------------------------------- what a shutdown finds in `active_`

  /** The worker is at the task, or has just completed it and not yet cleared its entry. */
  predicate AtTask(pc: WorkerPc, t: Task) { TaskOf(pc) == Some(t) || pc.Relock? || pc.ClearActive? }

  /** An entry of `active_` is never left behind. */
  ghost predicate ActiveFollows(s: State) {
    && Shape(s)
    && forall w :: 0 <= w < |s.workers| && s.active[w].Some? ==> AtTask(s.workers[w], s.active[w].value)
  }

  lemma WorkerActiveFollows(s: State, w: nat)
    requires ActiveFollows(s) && StopStable(s) && w < |s.workers| && WorkerReady(s, w) && Shape(WorkerNext(s, w))
    ensures ActiveFollows(WorkerNext(s, w))
  {
    assert StopStableAt(s.workers[w], s.stopped[w]);
    assert s.active[w].Some? ==> AtTask(s.workers[w], s.active[w].value);
  }

  lemma ActiveFollowsStep(s: State, a: Action)
    requires ActiveFollows(s) && StopStable(s) && Enabled(s, a)
    ensures ActiveFollows(Apply(s, a))
  {
    ShapeStep(s, a);
    if a.WorkerStep? {
      WorkerActiveFollows(s, a.w);
    }
  }

  lemma RunStepActive(states: seq<State>, actions: seq<Action>, workers: nat, clients: nat, i: nat)
    requires PoolRun(states, actions, workers, clients) && i < |actions| && ActiveFollows(states[i])
    ensures ActiveFollows(states[i + 1])
  {
    RunInv(states, actions, workers, clients, i);
    ActiveFollowsStep(states[i], actions[i]);
  }

  lemma InitActiveFollows(workers: nat, clients: nat)
    ensures ActiveFollows(Init(workers, clients))
  {
  }

  /** In every run a worker's entry in `active_` is the task it is at. */
  lemma {:induction false} ActiveIsCurrent(states: seq<State>, actions: seq<Action>, workers: nat, clients: nat, i: nat)
    requires PoolRun(states, actions, workers, clients) && i < |states|
    ensures ActiveFollows(states[i])
    decreases i
  {
    if i == 0 {
      InitActiveFollows(workers, clients);
    } else {
      ActiveIsCurrent(states, actions, workers, clients, i - 1);
      RunStepActive(states, actions, workers, clients, i - 1);
    }
  }

  // ---------------------------------------------------------------- theorems

  lemma InitStopsJustified(workers: nat, clients: nat)
    ensures StopsJustified(Init(workers, clients))
  {
  }

  lemma RunStepJustified(states: seq<State>, actions: seq<Action>, workers: nat, clients: nat, i: nat)
    requires PoolRun(states, actions, workers, clients) && i < |actions| && StopsJustified(states[i])
    ensures StopsJustified(states[i + 1])
  {
    RunInv(states, actions, workers, clients, i);
    StopsJustifiedStep(states[i], actions[i]);
  }

  lemma {:induction false} RunStopsJustified(
    states: seq<State>, actions: seq<Action>, workers: nat, clients: nat, i: nat)
    requires PoolRun(states, actions, workers, clients) && i < |states|
    ensures StopsJustified(states[i])
    decreases i
  {
    if i == 0 {
      InitStopsJustified(workers, clients);
    } else {
      RunStopsJustified(states, actions, workers, clients, i - 1);
      RunStepJustified(states, actions, workers, clients, i - 1);
    }
  }

  /** A shutdown is under way, in this very call. */
  predicate Storing(pc: ClientPc) { pc.ShutdownStore? }

  /** The flag is stored, or about to be, only where a `Shutdown` was called before. */
  lemma {:induction false} ShutdownWasCalled(
    states: seq<State>, actions: seq<Action>, workers: nat, clients: nat, i: nat)
    requires PoolRun(states, actions, workers, clients) && i < |states|
    requires states[i].shutdown || exists c :: 0 <= c < |states[i].clients| && Storing(states[i].clients[c])
    ensures exists k :: 0 <= k < i && actions[k].BeginShutdown?
    decreases i
  {
    if i == 0 {
      assert false;
    } else if !actions[i - 1].BeginShutdown? {
      FlagHasStore(states[i - 1], actions[i - 1]);
      ShutdownWasCalled(states, actions, workers, clients, i - 1);
    }
  }

  lemma FlagHasStore(s: State, a: Action)
    requires Shape(s) && Enabled(s, a) && !a.BeginShutdown?
    requires Apply(s, a).shutdown || exists c :: 0 <= c < |s.clients| && Storing(Apply(s, a).clients[c])
    ensures s.shutdown || exists c :: 0 <= c < |s.clients| && Storing(s.clients[c])
  {
    if Apply(s, a).shutdown && !s.shutdown {
      assert Storing(s.clients[a.c]);
    } else if !s.shutdown {
      var c :| 0 <= c < |s.clients| && Storing(Apply(s, a).clients[c]);
      assert Storing(s.clients[c]);
    }
  }

  /**
   Only a task that was handed over is ever asked to stop, and none before a `Shutdown` was called and has stored its
   flag; before that no task runs inside `Enqueue` and no worker leaves.
   */
  lemma NoStopWithoutShutdown(states: seq<State>, actions: seq<Action>, workers: nat, clients: nat, i: nat)
    requires PoolRun(states, actions, workers, clients) && i < |states|
    ensures forall t :: t in states[i].stoppedTasks ==> states[i].shutdown && t in states[i].used
    ensures forall c :: 0 <= c < |states[i].clients| && states[i].clients[c].InlineRunning? ==> states[i].shutdown
    ensures forall w :: 0 <= w < |states[i].workers| && HasLeft(states[i].workers[w]) ==> states[i].shutdown
    ensures states[i].shutdown ==> exists k :: 0 <= k < i && actions[k].BeginShutdown?
  {
    RunInv(states, actions, workers, clients, i);
    RunStopsJustified(states, actions, workers, clients, i);
    if states[i].shutdown {
      ShutdownWasCalled(states, actions, workers, clients, i);
    }
    var s := states[i];
    forall w | 0 <= w < |s.workers| && HasLeft(s.workers[w]) ensures s.shutdown {
      assert StopStableAt(s.workers[w], s.stopped[w]);
    }
  }
}
