/** What the synchronized queue promises to its one reader and its senders, over every run. */
module QueueSafety {
  import opened Wrappers
  import opened QueueMachine
  import N = NotificationMachine
  import S = NotificationSafety
  import T = NotificationTheorems

  // ---------------------------------------------------------------- who does what

  predicate IsWait(pc: N.Pc) {
    !IsNotify(pc) && !IsReset(pc) && !IsStop(pc)
  }

  predicate IsNotify(pc: N.Pc) {
    || pc.NotifyLock? || pc.NotifySet? || pc.NotifyUnlock?
    || pc.NotifyLockInner? || pc.NotifyWake? || pc.NotifyUnlockInner?
  }

  predicate IsReset(pc: N.Pc) { pc.ResetLock? || pc.ResetSet? || pc.ResetUnlock? }

  predicate IsStop(pc: N.Pc) {
    pc.StopSet? || pc.CallNext? || pc.CallbackLock? || pc.CallbackWake? || pc.CallbackUnlock?
  }

  /** A thread is inside the notification only for the call it made. */
  ghost predicate Roles(s: State) {
    && Shape(s)
    && ReaderRole(s.reader, s.n.threads[0])
    && (forall i :: 0 <= i < |s.senders| ==> SenderRole(s.senders[i], s.n.threads[i + 1]))
    && (forall t :: 1 + |s.senders| <= t < |s.n.threads| ==> s.n.threads[t].Idle? || IsStop(s.n.threads[t]))
  }

  predicate ReaderRole(reader: ReaderPc, pc: N.Pc) {
    if reader.PopWaiting? then IsWait(pc) else if reader.PopResetting? then pc.Idle? || IsReset(pc) else pc.Idle?
  }

  predicate SenderRole(sender: SenderPc, pc: N.Pc) {
    if sender.PushNotifying? then pc.Idle? || IsNotify(pc) else pc.Idle?
  }

  lemma ReaderShape(s: State)
    requires Shape(s) && ReaderReady(s)
    ensures Shape(ReaderNext(s))
  {
  }

  lemma SenderShape(s: State, i: nat)
    requires Shape(s) && i < |s.senders| && SenderReady(s, i)
    ensures Shape(SenderNext(s, i))
  {
  }

  lemma ShapeStep(s: State, a: Action)
    requires Shape(s) && Enabled(s, a)
    ensures Shape(Apply(s, a))
  {
    match a
    case ReaderStep => ReaderShape(s);
    case SenderStep(i) => SenderShape(s, i);
    case Inside(b) => S.ShapeStep(s.n, b);
    case _ =>
  }

  predicate KeepsKind(pc: N.Pc, pc': N.Pc) {
    && (pc.Idle? ==> pc'.Idle?)
    && (IsWait(pc) ==> IsWait(pc'))
    && (IsNotify(pc) ==> IsNotify(pc') || pc'.Idle?)
    && (IsReset(pc) ==> IsReset(pc') || pc'.Idle?)
    && (IsStop(pc) ==> IsStop(pc') || pc'.Idle?)
  }

  lemma NextKeepsKind(n: N.State, t: nat)
    requires N.Shape(n) && t < |n.threads| && N.Ready(n, t)
    ensures KeepsKind(n.threads[t], N.NextPc(n, t))
  {
  }

  /** A step inside the notification keeps a thread in the kind of call it is in. */
  lemma InsideKeepsKind(n: N.State, a: N.Action, t: nat)
    requires N.Shape(n) && N.Enabled(n, a) && (a.Step? || a.Wake? || a.Tick? || a.Pick?) && t < |n.threads|
    ensures |N.Apply(n, a).threads| == |n.threads| && KeepsKind(n.threads[t], N.Apply(n, a).threads[t])
  {
    if a == N.Step(t) {
      NextKeepsKind(n, t);
    } else {
      assert N.Apply(n, a).threads[t] == n.threads[t] || n.threads[t].Blocked? || n.threads[t].CallNext?;
    }
  }

  lemma InsideRoles(s: State, b: N.Action)
    requires Roles(s) && Enabled(s, Inside(b)) && Shape(Apply(s, Inside(b))) && !b.BeginStop?
    ensures Roles(Apply(s, Inside(b)))
  {
    forall t | 0 <= t < |s.n.threads| ensures KeepsKind(s.n.threads[t], N.Apply(s.n, b).threads[t]) {
      InsideKeepsKind(s.n, b, t);
    }
  }

  lemma ReaderRoles(s: State)
    requires Roles(s) && ReaderReady(s) && Shape(ReaderNext(s))
    ensures Roles(ReaderNext(s))
  {
    var s' := ReaderNext(s);
    assert ReaderRole(s'.reader, s'.n.threads[0]);
    forall t | 0 < t < |s.n.threads| ensures s'.n.threads[t] == s.n.threads[t] {
    }
  }

  lemma SenderRoles(s: State, i: nat)
    requires Roles(s) && i < |s.senders| && SenderReady(s, i) && Shape(SenderNext(s, i))
    ensures Roles(SenderNext(s, i))
  {
    var s' := SenderNext(s, i);
    assert SenderRole(s.senders[i], s.n.threads[i + 1]);
    assert SenderRole(s'.senders[i], s'.n.threads[i + 1]);
  }

  lemma BeginStopRoles(s: State, b: N.Action)
    requires Roles(s) && Enabled(s, Inside(b)) && Shape(Apply(s, Inside(b))) && b.BeginStop?
    ensures Roles(Apply(s, Inside(b)))
  {
  }

  lemma RolesStep(s: State, a: Action)
    requires Roles(s) && Enabled(s, a)
    ensures Roles(Apply(s, a))
  {
    ShapeStep(s, a);
    match a
    case ReaderStep => ReaderRoles(s);
    case SenderStep(i) => SenderRoles(s, i);
    case Inside(b) =>
      if b.BeginStop? {
        BeginStopRoles(s, b);
      } else {
        InsideRoles(s, b);
      }
    case _ =>
  }

  /** Every step of the queue is one step of the notification machine, or none. */
  lemma StepInside(s: State, a: Action) returns (b: Option<N.Action>)
    requires Shape(s) && Enabled(s, a)
    ensures b.None? ==> Apply(s, a).n == s.n
    ensures b.Some? ==> N.Enabled(s.n, b.value) && Apply(s, a).n == N.Apply(s.n, b.value)
  {
    match a
    case Inside(c) => b := Some(c);
    case ReaderStep =>
      b := if s.reader.PopUnlock? && s.n.threads[0].Idle? then Some(N.BeginWait(0, s.until, s.token))
           else if s.reader.PopReset? && s.n.threads[0].Idle? then Some(N.BeginReset(0))
           else None;
    case SenderStep(i) =>
      b := if s.senders[i].PushNotify? && s.n.threads[i + 1].Idle? then Some(N.BeginNotify(i + 1)) else None;
    case _ => b := None;
  }

  lemma NotificationStep(s: State, a: Action)
    requires Shape(s) && T.Inv(s.n) && Enabled(s, a)
    ensures T.Inv(Apply(s, a).n)
  {
    var b := StepInside(s, a);
    if b.Some? {
      T.InvStep(s.n, b.value);
    }
  }

  /** `mutex_` is held by exactly the thread whose program counter says so. */
  ghost predicate MutexHeld(s: State) {
    && (s.mutex.Some? ==> s.mutex.value <= |s.senders|)
    && (s.mutex == Some(0) <==> ReaderHolds(s.reader))
    && (forall i :: 0 <= i < |s.senders| ==> (s.mutex == Some(i + 1) <==> SenderHolds(s.senders[i])))
  }

  lemma MutexHeldStep(s: State, a: Action)
    requires Shape(s) && MutexHeld(s) && Enabled(s, a)
    ensures MutexHeld(Apply(s, a))
  {
  }

  // ---------------------------------------------------------------- contents

  ghost predicate Contents(s: State) {
    && s.accepted == s.popped + s.queue
    && |s.queue| <= s.max
    && (forall i :: 0 <= i < |s.senders| && s.senders[i].PushBack? ==> |s.queue| < s.max)
  }

  lemma ContentsStep(s: State, a: Action)
    requires Shape(s) && MutexHeld(s) && Contents(s) && Enabled(s, a)
    ensures Contents(Apply(s, a))
  {
  }

  // ---------------------------------------------------------------- the flag and the queue

  /** The sender has pushed and has yet to store the flag. */
  predicate PreSignal(sender: SenderPc, pc: N.Pc) {
    sender.PushNotify? || (sender.PushNotifying? && (pc.NotifyLock? || pc.NotifySet?))
  }

  /** The sender has stored the flag and has yet to return. */
  predicate PostSignal(sender: SenderPc, pc: N.Pc) {
    sender == PushUnlock(true) || (sender.PushNotifying? && !pc.NotifyLock? && !pc.NotifySet?)
  }

  ghost predicate SomePreSignal(s: State)
    requires Shape(s)
  {
    exists i :: 0 <= i < |s.senders| && PreSignal(s.senders[i], s.n.threads[i + 1])
  }

  ghost predicate SomePostSignal(s: State)
    requires Shape(s)
  {
    exists i :: 0 <= i < |s.senders| && PostSignal(s.senders[i], s.n.threads[i + 1])
  }

  /** Every accepted push has stored its flag but one that is about to, and returned but one that is about to. */
  ghost predicate Counts(s: State) {
    && Shape(s)
    && |s.accepted| == s.signalled + (if SomePreSignal(s) then 1 else 0)
    && s.signalled == s.completed + (if SomePostSignal(s) then 1 else 0)
  }

  /** Only a sender inside `notify` sets the flag, and only the reader inside `reset` clears it. */
  lemma WhoTouchesTheFlag(s: State, a: N.Action)
    requires Roles(s) && N.Enabled(s.n, a) && InsideAllowed(s, a)
    ensures N.Apply(s.n, a).notified != s.n.notified || Signals(s, a) ==>
      && a.Step?
      && (s.n.threads[a.t].NotifySet? ==> 0 < a.t <= |s.senders| && s.senders[a.t - 1].PushNotifying?)
      && (s.n.threads[a.t].ResetSet? ==> a.t == 0 && s.reader.PopResetting?)
      && (s.n.threads[a.t].NotifySet? || s.n.threads[a.t].ResetSet?)
  {
    if a.Step? && (s.n.threads[a.t].NotifySet? || s.n.threads[a.t].ResetSet?) {
      if a.t == 0 {
        assert ReaderRole(s.reader, s.n.threads[0]);
      } else if a.t <= |s.senders| {
        assert SenderRole(s.senders[a.t - 1], s.n.threads[a.t]);
      }
    }
  }

  /** The flag is never set while the queue is empty, and is clear when the reader takes an item. */
  ghost predicate FlagMeansItem(s: State) {
    && Shape(s)
    && (s.n.notified ==> s.queue != [])
    && (forall i :: 0 <= i < |s.senders| && (s.senders[i].PushNotify? || s.senders[i].PushNotifying?) ==> s.queue != [])
    && (s.reader.PopAssert? || s.reader.PopTake? || s.reader.PopDone? ==> !s.n.notified)
    && (s.reader.PopResetting? && !s.n.threads[0].ResetLock? && !s.n.threads[0].ResetSet? ==> !s.n.notified)
  }

  lemma InsideFlagMeansItem(s: State, a: N.Action)
    requires Roles(s) && MutexHeld(s) && FlagMeansItem(s) && N.Enabled(s.n, a) && InsideAllowed(s, a)
    ensures FlagMeansItem(Apply(s, Inside(a)))
  {
    ShapeStep(s, Inside(a));
    WhoTouchesTheFlag(s, a);
  }

  lemma FlagMeansItemStep(s: State, a: Action)
    requires Roles(s) && MutexHeld(s) && FlagMeansItem(s) && Enabled(s, a)
    ensures FlagMeansItem(Apply(s, a))
  {
    ShapeStep(s, a);
    match a
    case Inside(b) => InsideFlagMeansItem(s, b);
    case _ =>
  }

  // ---------------------------------------------------------------- counting signals

  lemma SignalAt(s: State, i: nat)
    requires Shape(s) && MutexHeld(s) && i < |s.senders| && SenderHolds(s.senders[i])
    ensures SomePreSignal(s) == PreSignal(s.senders[i], s.n.threads[i + 1])
    ensures SomePostSignal(s) == PostSignal(s.senders[i], s.n.threads[i + 1])
  {
  }

  lemma NoSignal(s: State)
    requires Shape(s) && (forall i :: 0 <= i < |s.senders| ==> !SenderHolds(s.senders[i]))
    ensures !SomePreSignal(s) && !SomePostSignal(s)
  {
  }

  lemma SenderCounts(s: State, i: nat)
    requires Roles(s) && MutexHeld(s) && Counts(s) && i < |s.senders| && SenderReady(s, i)
    ensures Counts(SenderNext(s, i))
  {
    var s' := SenderNext(s, i);
    ShapeStep(s, SenderStep(i));
    MutexHeldStep(s, SenderStep(i));
    assert SenderRole(s.senders[i], s.n.threads[i + 1]);
    if SenderHolds(s.senders[i]) {
      SignalAt(s, i);
      if SenderHolds(s'.senders[i]) {
        SignalAt(s', i);
      } else {
        NoSignal(s');
      }
    } else {
      SameSignals(s, s', i);
    }
  }

  /** A step of a sender that does not come to hold `mutex_` in a signalling place changes no signal. */
  lemma SameSignals(s: State, s': State, i: nat)
    requires Shape(s) && Shape(s') && i < |s.senders| == |s'.senders| && s'.n == s.n
    requires s'.senders == s.senders[i := s'.senders[i]]
    requires !PreSignal(s.senders[i], s.n.threads[i + 1]) && !PostSignal(s.senders[i], s.n.threads[i + 1])
    requires !PreSignal(s'.senders[i], s.n.threads[i + 1]) && !PostSignal(s'.senders[i], s.n.threads[i + 1])
    ensures SomePreSignal(s') == SomePreSignal(s) && SomePostSignal(s') == SomePostSignal(s)
  {
    if SomePreSignal(s) {
      var j :| 0 <= j < |s.senders| && PreSignal(s.senders[j], s.n.threads[j + 1]);
      assert PreSignal(s'.senders[j], s'.n.threads[j + 1]);
    }
    if SomePostSignal(s) {
      var j :| 0 <= j < |s.senders| && PostSignal(s.senders[j], s.n.threads[j + 1]);
      assert PostSignal(s'.senders[j], s'.n.threads[j + 1]);
    }
  }

  /** Which senders are before or after their signal is the same in s and s'. */
  ghost predicate SignalsAgree(s: State, s': State) {
    && Shape(s) && Shape(s') && |s'.senders| == |s.senders|
    && forall i :: 0 <= i < |s.senders| ==>
         && PreSignal(s'.senders[i], s'.n.threads[i + 1]) == PreSignal(s.senders[i], s.n.threads[i + 1])
         && PostSignal(s'.senders[i], s'.n.threads[i + 1]) == PostSignal(s.senders[i], s.n.threads[i + 1])
  }

  lemma AgreeingCounts(s: State, s': State)
    requires SignalsAgree(s, s') && Counts(s)
    requires |s'.accepted| == |s.accepted| && s'.signalled == s.signalled && s'.completed == s.completed
    ensures Counts(s')
  {
  }

  lemma InsideAgreesAt(s: State, a: N.Action, i: nat)
    requires Roles(s) && N.Enabled(s.n, a) && InsideAllowed(s, a) && !Signals(s, a) && i < |s.senders|
    ensures |N.Apply(s.n, a).threads| == |s.n.threads|
    ensures PreSignal(s.senders[i], N.Apply(s.n, a).threads[i + 1]) == PreSignal(s.senders[i], s.n.threads[i + 1])
    ensures PostSignal(s.senders[i], N.Apply(s.n, a).threads[i + 1]) == PostSignal(s.senders[i], s.n.threads[i + 1])
  {
    var pc, pc' := s.n.threads[i + 1], N.Apply(s.n, a).threads[i + 1];
    assert SenderRole(s.senders[i], pc);
    assert pc' == pc || a == N.Step(i + 1);
  }

  lemma InsideAgrees(s: State, a: N.Action)
    requires Roles(s) && N.Enabled(s.n, a) && InsideAllowed(s, a) && !Signals(s, a)
    ensures SignalsAgree(s, Apply(s, Inside(a)))
  {
    var s' := Apply(s, Inside(a));
    ShapeStep(s, Inside(a));
    forall i | 0 <= i < |s.senders|
      ensures PreSignal(s'.senders[i], s'.n.threads[i + 1]) == PreSignal(s.senders[i], s.n.threads[i + 1])
      ensures PostSignal(s'.senders[i], s'.n.threads[i + 1]) == PostSignal(s.senders[i], s.n.threads[i + 1])
    {
      InsideAgreesAt(s, a, i);
    }
  }

  lemma SignalCounts(s: State, a: N.Action)
    requires Roles(s) && MutexHeld(s) && Counts(s) && N.Enabled(s.n, a) && InsideAllowed(s, a) && Signals(s, a)
    requires Shape(Apply(s, Inside(a)))
    ensures Counts(Apply(s, Inside(a)))
  {
    WhoTouchesTheFlag(s, a);
    MutexHeldStep(s, Inside(a));
    SignalAt(s, a.t - 1);
    SignalAt(Apply(s, Inside(a)), a.t - 1);
  }

  lemma InsideCounts(s: State, a: N.Action)
    requires Roles(s) && MutexHeld(s) && Counts(s) && N.Enabled(s.n, a) && InsideAllowed(s, a)
    ensures Counts(Apply(s, Inside(a)))
  {
    var s' := Apply(s, Inside(a));
    ShapeStep(s, Inside(a));
    if Signals(s, a) {
      SignalCounts(s, a);
    } else {
      InsideAgrees(s, a);
      AgreeingCounts(s, s');
    }
  }

  lemma CountsStep(s: State, a: Action)
    requires Roles(s) && MutexHeld(s) && Counts(s) && Enabled(s, a)
    ensures Counts(Apply(s, a))
  {
    ShapeStep(s, a);
    match a
    case SenderStep(i) => SenderCounts(s, i);
    case Inside(b) => InsideCounts(s, b);
    case BeginPush(i, _) => SameSignals(s, Apply(s, a), i);
    case _ => AgreeingCounts(s, Apply(s, a));
  }

  // ---------------------------------------------------------------- the reader

  /** What the reader may rely on: an item where it will take one, and no signalled push missed while it waits. */
  ghost predicate ReaderView(s: State) {
    && Shape(s)
    && (s.reader.PopRelock? || s.reader.PopReset? || s.reader.PopResetting? || s.reader.PopAssert? || s.reader.PopTake?
        ==> s.queue != [])
    && (s.reader.PopWaiting? && s.n.threads[0].Idle? && s.n.results[0] ==> s.queue != [])
    && (s.reader.PopUnlock? ==> s.queue == [])
    && (s.reader.PopWaiting? && !s.n.notified ==> |s.popped| == s.signalled)
    && !s.reader.Aborted?
  }

  lemma InsideReaderView(s: State, a: N.Action)
    requires Roles(s) && MutexHeld(s) && FlagMeansItem(s) && T.Inv(s.n) && ReaderView(s)
    requires N.Enabled(s.n, a) && InsideAllowed(s, a)
    ensures ReaderView(Apply(s, Inside(a)))
  {
    var s' := Apply(s, Inside(a));
    ShapeStep(s, Inside(a));
    WhoTouchesTheFlag(s, a);
    if s.reader.PopWaiting? && s'.n.threads[0].Idle? && !s.n.threads[0].Idle? && s'.n.results[0] {
      ReturnsWhatItSaw(s.n, a);
    }
  }

  /** A wait that ends with true ends while the flag is set. */
  lemma ReturnsWhatItSaw(n: N.State, a: N.Action)
    requires T.Inv(n) && N.Enabled(n, a) && |n.threads| > 0
    requires IsWait(n.threads[0]) && !n.threads[0].Idle? && N.Apply(n, a).threads[0].Idle? && N.Apply(n, a).results[0]
    ensures n.notified
  {
    assert S.Knows(n.threads[0], n.notified, N.StopSeen(n, 0), N.Past(n, 0));
  }

  lemma ReaderReaderView(s: State)
    requires Roles(s) && MutexHeld(s) && Contents(s) && Counts(s) && FlagMeansItem(s) && ReaderView(s) && ReaderReady(s)
    ensures ReaderView(ReaderNext(s))
  {
    ShapeStep(s, ReaderStep);
    if s.reader.PopUnlock? {
      NoSignal(s);
    }
  }

  lemma ReaderViewStep(s: State, a: Action)
    requires Roles(s) && MutexHeld(s) && Contents(s) && Counts(s) && FlagMeansItem(s) && T.Inv(s.n) && ReaderView(s)
    requires Enabled(s, a)
    ensures ReaderView(Apply(s, a))
  {
    ShapeStep(s, a);
    match a
    case ReaderStep => ReaderReaderView(s);
    case Inside(b) => InsideReaderView(s, b);
    case _ =>
  }

  // ---------------------------------------------------------------- theorems

  ghost predicate Inv(s: State) {
    Roles(s) && T.Inv(s.n) && MutexHeld(s) && Contents(s) && Counts(s) && FlagMeansItem(s) && ReaderView(s)
  }

  lemma InvStep(s: State, a: Action)
    requires Inv(s) && Enabled(s, a)
    ensures Inv(Apply(s, a))
  {
    RolesStep(s, a);
    NotificationStep(s, a);
    MutexHeldStep(s, a);
    ContentsStep(s, a);
    CountsStep(s, a);
    FlagMeansItemStep(s, a);
    ReaderViewStep(s, a);
  }

  ghost predicate QueueRun(states: seq<State>, actions: seq<Action>, max: nat, senders: nat, others: nat,
                           tokens: nat)
  {
    IsRun(states, actions) && states[0] == Init(max, senders, others, tokens)
  }

  lemma {:induction false} RunInv(states: seq<State>, actions: seq<Action>, max: nat, senders: nat, others: nat,
                          tokens: nat, i: nat)
    requires QueueRun(states, actions, max, senders, others, tokens) && i < |states|
    ensures Inv(states[i]) && states[i].max == max
    decreases i
  {
    if i == 0 {
      T.InitInv(1 + senders + others, tokens);
      NoSignal(states[0]);
    } else {
      RunInv(states, actions, max, senders, others, tokens, i - 1);
      InvStep(states[i - 1], actions[i - 1]);
    }
  }

  /**
   In every run with one reader: the assertion in `Pop` does not fire, the items popped followed by
   the queue are the accepted pushes in order, and the queue never exceeds its maximum.
   */
  lemma QueueIsFaithful(states: seq<State>, actions: seq<Action>, max: nat, senders: nat, others: nat,
                          tokens: nat, i: nat)
    requires QueueRun(states, actions, max, senders, others, tokens) && i < |states|
    ensures !states[i].reader.Aborted?
    ensures states[i].reader.PopAssert? || states[i].reader.PopTake? ==> states[i].queue != []
    ensures states[i].popped + states[i].queue == states[i].accepted
    ensures |states[i].queue| <= max
  {
    RunInv(states, actions, max, senders, others, tokens, i);
  }

  /**
   When the wait inside `Pop` decides on false, so that `Pop` will return nothing, every push that
   had stored its flag, and so every push that had returned true, has been popped already.
   */
  lemma NothingOverlooked(states: seq<State>, actions: seq<Action>, max: nat, senders: nat, others: nat,
                          tokens: nat, i: nat)
    requires QueueRun(states, actions, max, senders, others, tokens) && i < |states|
    requires states[i].reader.PopWaiting? && |states[i].n.threads| > 0 && states[i].n.threads[0] == N.Return(false)
    ensures states[i].completed <= states[i].signalled == |states[i].popped|
    ensures |states[i].queue| <= 1
    ensures N.StopSeen(states[i].n, 0) || N.Past(states[i].n, 0)
  {
    RunInv(states, actions, max, senders, others, tokens, i);
    var n := states[i].n;
    assert S.Knows(n.threads[0], n.notified, N.StopSeen(n, 0), N.Past(n, 0));
  }
}
