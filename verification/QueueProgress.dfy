/** The queue does not get stuck, and an item does not lie beside a sleeping reader, over every run. */
module QueueProgress {
  import opened QueueMachine
  import opened QueueSafety
  import N = NotificationMachine
  import S = NotificationSafety
  import T = NotificationTheorems

  predicate ReaderAtRest(s: State)
    requires |s.n.threads| > 0
  {
    s.reader.ReaderIdle? || (s.reader.PopWaiting? && s.n.threads[0].Blocked?)
  }

  /** No sender is in `push`, no thread requests a stop, and the reader is idle or asleep in `Pop`. */
  ghost predicate AtRest(s: State)
    requires Shape(s)
  {
    && ReaderAtRest(s)
    && (forall i :: 0 <= i < |s.senders| ==> s.senders[i].SenderIdle?)
    && forall t :: 1 + |s.senders| <= t < |s.n.threads| ==> s.n.threads[t].Idle?
  }

  predicate GoesOn(a: Action) { a.ReaderStep? || a.SenderStep? || (a.Inside? && (a.a.Step? || a.a.Pick?)) }

  /** With everyone at rest inside the notification, the owner of `mutex_` can take its next step. */
  lemma OwnerGoesOn(s: State) returns (a: Action)
    requires Inv(s) && T.AtRest(s.n) && s.mutex.Some?
    ensures Enabled(s, a) && GoesOn(a)
  {
    if s.mutex.value == 0 {
      assert T.Resting(s.n.threads[0]) && ReaderRole(s.reader, s.n.threads[0]);
      a := ReaderStep;
    } else {
      var i := s.mutex.value - 1;
      assert T.Resting(s.n.threads[i + 1]) && SenderRole(s.senders[i], s.n.threads[i + 1]);
      a := SenderStep(i);
    }
  }

  lemma OthersIdle(s: State)
    requires Roles(s) && T.AtRest(s.n)
    ensures forall t :: 1 + |s.senders| <= t < |s.n.threads| ==> s.n.threads[t].Idle?
  {
    forall t | 1 + |s.senders| <= t < |s.n.threads| ensures s.n.threads[t].Idle? {
      assert T.Resting(s.n.threads[t]);
    }
  }

  lemma FreeGoesOn(s: State) returns (a: Action)
    requires Inv(s) && T.AtRest(s.n) && s.mutex.None? && !AtRest(s)
    ensures Enabled(s, a) && GoesOn(a)
  {
    if !ReaderAtRest(s) {
      assert T.Resting(s.n.threads[0]) && ReaderRole(s.reader, s.n.threads[0]);
      a := ReaderStep;
    } else {
      OthersIdle(s);
      var i :| 0 <= i < |s.senders| && !s.senders[i].SenderIdle?;
      assert T.Resting(s.n.threads[i + 1]) && SenderRole(s.senders[i], s.n.threads[i + 1]);
      a := SenderStep(i);
    }
  }

  /**
   The queue's mutex, the notification's mutex and the inner mutex of its condition variable cannot
   block each other: unless all is at rest, some thread can go on.
   */
  lemma NoDeadlock(states: seq<State>, actions: seq<Action>, max: nat, senders: nat, others: nat, tokens: nat, i: nat)
    returns (a: Action)
    requires QueueRun(states, actions, max, senders, others, tokens) && i < |states|
    requires Shape(states[i]) && !AtRest(states[i])
    ensures Enabled(states[i], a) && GoesOn(a)
  {
    var s := states[i];
    RunInv(states, actions, max, senders, others, tokens, i);
    if !T.AtRest(s.n) {
      var b := T.NoDeadlock(s.n);
      a := Inside(b);
    } else if s.mutex.Some? {
      a := OwnerGoesOn(s);
    } else {
      a := FreeGoesOn(s);
    }
  }

  /** The sender has pushed an item and has yet to wake the reader. */
  predicate OwesWake(sender: SenderPc, pc: N.Pc) {
    PreSignal(sender, pc) || (sender.PushNotifying? && S.Notifying(pc))
  }

  ghost predicate SomeoneOwesWake(s: State)
    requires Shape(s)
  {
    exists i :: 0 <= i < |s.senders| && OwesWake(s.senders[i], s.n.threads[i + 1])
  }

  /** Only a sender in its `notify` call notifies. */
  lemma NotifierIsSender(s: State, u: nat)
    requires Roles(s) && u < |s.n.threads| && S.Notifying(s.n.threads[u])
    ensures 0 < u <= |s.senders| && s.senders[u - 1].PushNotifying?
  {
    assert ReaderRole(s.reader, s.n.threads[0]);
    assert forall i :: 0 <= i < |s.senders| ==> SenderRole(s.senders[i], s.n.threads[i + 1]);
    assert u <= |s.senders|;
    assert SenderRole(s.senders[u - 1], s.n.threads[(u - 1) + 1]);
  }

  lemma NotifierOwesWake(s: State, u: nat)
    requires Roles(s) && u < |s.n.threads| && S.Notifying(s.n.threads[u])
    ensures SomeoneOwesWake(s)
  {
    NotifierIsSender(s, u);
    assert OwesWake(s.senders[u - 1], s.n.threads[(u - 1) + 1]);
  }

  lemma PreSignalOwesWake(s: State)
    requires Shape(s) && SomePreSignal(s)
    ensures SomeoneOwesWake(s)
  {
    var i :| 0 <= i < |s.senders| && PreSignal(s.senders[i], s.n.threads[i + 1]);
    assert OwesWake(s.senders[i], s.n.threads[i + 1]);
  }

  lemma WakeIsOwed(s: State)
    requires Roles(s) && S.NotifyHandshake(s.n) && Contents(s) && Counts(s) && ReaderView(s)
    requires s.reader.PopWaiting? && s.n.threads[0].Blocked?
    ensures s.queue != [] ==> SomeoneOwesWake(s)
  {
    if s.n.notified {
      assert S.Sleeping(s.n.threads[0]);
      var u :| 0 <= u < |s.n.threads| && S.Notifying(s.n.threads[u]);
      NotifierOwesWake(s, u);
    } else {
      assert |s.accepted| == |s.popped| + |s.queue|;
      if SomePreSignal(s) {
        PreSignalOwesWake(s);
      }
    }
  }

  /** A reader asleep in `Pop` beside a queued item has a sender on its way from the push to the wake-up. */
  lemma SleepBesideAnItem(states: seq<State>, actions: seq<Action>, max: nat, senders: nat, others: nat,
                          tokens: nat, i: nat)
    requires QueueRun(states, actions, max, senders, others, tokens) && i < |states| && Shape(states[i])
    requires states[i].reader.PopWaiting? && states[i].n.threads[0].Blocked? && states[i].queue != []
    ensures SomeoneOwesWake(states[i])
  {
    RunInv(states, actions, max, senders, others, tokens, i);
    WakeIsOwed(states[i]);
  }

  lemma RestsInside(s: State)
    requires Roles(s) && AtRest(s)
    ensures T.AtRest(s.n)
  {
    forall t | 0 <= t < |s.n.threads| ensures T.Resting(s.n.threads[t]) {
      if 0 < t <= |s.senders| {
        assert SenderRole(s.senders[t - 1], s.n.threads[(t - 1) + 1]);
      }
    }
  }

  /** When nothing can go on, a reader asleep in `Pop` has an empty queue and its token was not stopped. */
  lemma RestIsJustified(states: seq<State>, actions: seq<Action>, max: nat, senders: nat, others: nat,
                        tokens: nat, i: nat)
    requires QueueRun(states, actions, max, senders, others, tokens) && i < |states| && Shape(states[i])
    requires AtRest(states[i]) && states[i].reader.PopWaiting?
    ensures states[i].queue == [] && !N.StopSeen(states[i].n, 0)
  {
    var s := states[i];
    RunInv(states, actions, max, senders, others, tokens, i);
    WakeIsOwed(s);
    RestsInside(s);
    T.SleepIsJustified(s.n, 0);
  }
}
