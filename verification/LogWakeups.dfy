/** No lost wake-up, in every run of the logging contexts and the consumer task. */
module LogWakeups {
  import opened Words
  import opened LogMachine
  import opened LogProofs

  /** The context has published, or may have, and has not taken the waker yet. */
  predicate Owes(pc: Pc) {
    pc.Starting? || pc.Logging? || pc.Writing? || pc.Ending? || pc.Ended? || pc.Waking?
  }

  /** Some context published the newest bytes and still owes its wake-up. */
  predicate WakeIsDue(s: State) {
    exists i :: 0 <= i < |s.stack| && Owes(s.stack[i].pc) && s.stack[i].published == s.published
  }

  /** Some context has taken the waker and is about to call it. */
  predicate WakeIsComing(s: State) {
    exists i :: 0 <= i < |s.stack| && s.stack[i].pc == Calling(true)
  }

  predicate CountersInv(s: State) {
    && s.released <= s.seen <= s.published
    && s.synced <= s.published
    && forall i | 0 <= i < |s.stack| :: s.stack[i].published <= s.published
  }

  predicate TaskInv(s: State) {
    && (s.task.Registered? || s.task.Parked? ==> s.waker || s.woken || WakeIsComing(s))
    && ((s.task.Registered? || s.task.Parked?) && s.waker ==> s.synced <= s.seen)
    && (s.task.Parked? ==> s.seen == s.released)
  }

  predicate WakeInv(s: State) {
    && CountersInv(s)
    && DueOrSynced(s)
    && TaskInv(s)
  }

  lemma LogStepKeepsCounters(s: State, a: Action)
    requires Enabled(s, a) && CountersInv(s) && OfLogCall(a)
    ensures CountersInv(Next(s, a))
  {
    CallChangesTopOnly(s, a);
    TopKnowsItsBytes(s, a);
  }

  predicate TopKnows(s: State, s': State) {
    && s'.stack != []
    && Top(s').published <= s'.published
    && s.published <= s'.published && s'.synced <= s'.published
    && s'.seen == s.seen && s'.released == s.released
  }

  lemma TopKnowsItsBytes(s: State, a: Action)
    requires Enabled(s, a) && CountersInv(s) && OfLogCall(a)
    ensures TopKnows(s, Next(s, a))
  {
    if a.Emit? {
      EmitterKnowsItsBytes(s, a);
    } else if OfOwner(a) {
      OwnerKnowsItsBytes(s, a);
    }
  }

  lemma EmitterKnowsItsBytes(s: State, a: Action)
    requires Enabled(s, a) && CountersInv(s) && a.Emit?
    ensures TopKnows(s, Next(s, a))
  {
    assert Top(s).published <= s.published;
  }

  lemma OwnerKnowsItsBytes(s: State, a: Action)
    requires Enabled(s, a) && CountersInv(s) && OfOwner(a) && !a.Emit?
    ensures TopKnows(s, Next(s, a))
  {
    assert Top(s).published <= s.published;
    match a
    case EnterCs =>
    case SaveCs =>
    case EncoderDone =>
    case LeaveCs =>
  }

  /** A wake-up that is due stays due until it is taken. */
  lemma DueUntilTaken(s: State, s': State, i: nat)
    requires SameBelowTop(s, s') && s'.published == s.published
    requires i < |s.stack| && Owes(s.stack[i].pc) && s.stack[i].published == s.published
    requires i == |s.stack| - 1 ==> Owes(Top(s').pc) && Top(s').published == Top(s).published
    ensures WakeIsDue(s')
  {
    assert Owes(s'.stack[i].pc) && s'.stack[i].published == s'.published;
  }

  predicate DueOrSynced(s: State) {
    s.published == s.synced || WakeIsDue(s)
  }

  lemma EmitKeepsDue(s: State, bytes: seq<u8>, accepted: nat)
    requires Enabled(s, Emit(bytes, accepted)) && DueOrSynced(s)
    ensures DueOrSynced(Next(s, Emit(bytes, accepted)))
  {
    var s', n := Next(s, Emit(bytes, accepted)), |s.stack| - 1;
    if accepted > 0 {
      assert Owes(s'.stack[n].pc) && s'.stack[n].published == s'.published;
    }
  }

  lemma TakeKeepsDue(s: State)
    requires Enabled(s, TakeWaker) && DueOrSynced(s) && CountersInv(s)
    ensures DueOrSynced(Next(s, TakeWaker))
  {
    if s.published != s.synced {
      CallerChangesTopOnly(s, TakeWaker);
      var i :| 0 <= i < |s.stack| && Owes(s.stack[i].pc) && s.stack[i].published == s.published;
      if i < |s.stack| - 1 {
        DueUntilTaken(s, Next(s, TakeWaker), i);
      }
    }
  }

  predicate OwesAsBefore(s: State, s': State)
    requires s.stack != []
  {
    && s'.stack != []
    && (Owes(Top(s).pc) ==> Owes(Top(s').pc))
    && Top(s').published == Top(s).published
    && s'.published == s.published && s'.synced == s.synced
  }

  lemma OwnerStillOwes(s: State, a: Action)
    requires Enabled(s, a) && OfOwner(a) && !a.Emit?
    requires Top(s).pc.Writing? ==> Top(s).pc.from.Logging?
    ensures OwesAsBefore(s, Next(s, a))
  {
  }

  lemma TopStillOwes(s: State, a: Action)
    requires Inv(s) && Enabled(s, a) && OfLogCall(a) && !a.Emit? && !a.TakeWaker?
    ensures OwesAsBefore(s, Next(s, a))
  {
    DepthTells(s);
    if OfOwner(a) {
      OwnerStillOwes(s, a);
    }
  }

  lemma LogStepKeepsDue(s: State, a: Action)
    requires Inv(s) && Enabled(s, a) && CountersInv(s) && OfLogCall(a)
    requires DueOrSynced(s)
    ensures DueOrSynced(Next(s, a))
  {
    if a.Emit? {
      EmitKeepsDue(s, a.bytes, a.accepted);
    } else if a.TakeWaker? {
      TakeKeepsDue(s);
    } else {
      TopStillOwes(s, a);
      CallChangesTopOnly(s, a);
      if s.published != s.synced {
        var i :| 0 <= i < |s.stack| && Owes(s.stack[i].pc) && s.stack[i].published == s.published;
        DueUntilTaken(s, Next(s, a), i);
      }
    }
  }

  /** A wake-up that is coming stays so until the waker is called. */
  lemma ComingUntilCalled(s: State, s': State)
    requires SameBelowTop(s, s') && WakeIsComing(s)
    ensures WakeIsComing(s') || Top(s).pc == Calling(true)
  {
    var i :| 0 <= i < |s.stack| && s.stack[i].pc == Calling(true);
    if i < |s.stack| - 1 {
      assert s'.stack[i].pc == Calling(true);
    }
  }

  lemma OwnerStepKeepsTask(s: State, a: Action)
    requires Enabled(s, a) && TaskInv(s) && OfOwner(a)
    ensures TaskInv(Next(s, a))
  {
    OwnerChangesTopOnly(s, a);
    OwnerLeavesTask(s, a, Next(s, a));
    if WakeIsComing(s) {
      ComingUntilCalled(s, Next(s, a));
    }
  }

  predicate SameTask(s: State, s': State) {
    && s'.task == s.task && s'.waker == s.waker && s'.woken == s.woken
    && s'.synced == s.synced && s'.seen == s.seen && s'.released == s.released
  }

  lemma OwnerLeavesTask(s: State, a: Action, s': State)
    requires Enabled(s, a) && OfOwner(a) && s' == Next(s, a)
    ensures SameTask(s, s') && !Top(s).pc.Calling?
  {
    match a
    case EnterCs =>
    case SaveCs =>
    case Emit(_, _) =>
    case EncoderDone =>
    case LeaveCs =>
  }

  lemma CallerStepKeepsTask(s: State, a: Action)
    requires Enabled(s, a) && CountersInv(s) && TaskInv(s) && OfCaller(a)
    ensures TaskInv(Next(s, a))
  {
    CallerChangesTopOnly(s, a);
    if WakeIsComing(s) {
      ComingUntilCalled(s, Next(s, a));
    }
    if a.TakeWaker? && s.waker {
      assert Next(s, a).stack[|s.stack| - 1].pc == Calling(true);
    }
  }

  lemma OtherStepKeepsDue(s: State, a: Action, s': State)
    requires Enabled(s, a) && !OfLogCall(a) && s' == Next(s, a)
    ensures WakeIsDue(s) ==> WakeIsDue(s')
    ensures WakeIsComing(s) ==> WakeIsComing(s')
  {
    if i :| 0 <= i < |s.stack| && Owes(s.stack[i].pc) && s.stack[i].published == s.published {
      assert Owes(s'.stack[i].pc) && s'.stack[i].published == s'.published;
    }
    if i :| 0 <= i < |s.stack| && s.stack[i].pc == Calling(true) {
      assert s'.stack[i].pc == Calling(true);
    }
  }

  lemma OtherStepKeepsCounters(s: State, a: Action, s': State)
    requires Enabled(s, a) && CountersInv(s) && TaskInv(s) && !OfLogCall(a) && s' == Next(s, a)
    ensures CountersInv(s')
  {
  }

  lemma OtherStepKeepsWake(s: State, a: Action, s': State)
    requires Enabled(s, a) && WakeInv(s) && !OfLogCall(a) && s' == Next(s, a)
    ensures WakeInv(s')
  {
    OtherStepKeepsDue(s, a, s');
    OtherStepKeepsCounters(s, a, s');
  }

  lemma {:induction false} RunKeepsWake(run: seq<Action>)
    requires Legal(run)
    ensures WakeInv(Exec(run))
    decreases |run|
  {
    if run != [] {
      var n := |run| - 1;
      RunKeepsWake(run[..n]);
      RunKeepsInv(run[..n]);
      if OfLogCall(run[n]) {
        LogStepKeepsCounters(Exec(run[..n]), run[n]);
        LogStepKeepsDue(Exec(run[..n]), run[n]);
        if OfOwner(run[n]) {
          OwnerStepKeepsTask(Exec(run[..n]), run[n]);
        } else {
          CallerStepKeepsTask(Exec(run[..n]), run[n]);
        }
      } else {
        OtherStepKeepsWake(Exec(run[..n]), run[n], Exec(run));
      }
    }
  }

  /** No lost wake-up: whenever the consumer is parked although something is
      published and not released, it has been woken, or a context is about to
      call its waker, or the context that published last still owes a wake-up.
      The consumer's check may return an old count, as long as it is no older
      than what the last taker of the waker knew when the consumer registered.
      After a check it may read and release whatever is published by then, as
      often as it likes, before it registers again. */
  lemma NoLostWakeup(run: seq<Action>)
    requires Legal(run)
    requires Exec(run).task.Parked? && Exec(run).released < Exec(run).published
    ensures Exec(run).woken || WakeIsComing(Exec(run)) || WakeIsDue(Exec(run))
  {
    RunKeepsWake(run);
  }
}
