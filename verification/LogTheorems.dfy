/** Who uses the encoder and the saved interrupt state, over whole runs of the
    logging contexts. */
module LogTheorems {
  import opened LogMachine
  import opened LogProofs

  // ---------- every run ----------

  /** The depth counter is the number of contexts between raising and lowering
      it, and encoder calls run with interrupts masked, whoever logs when. */
  lemma DepthAndMask(run: seq<Action>)
    requires Legal(run)
    ensures var s := Exec(run);
            && s.depth == CountedIn(s.stack)
            && (forall i | 0 <= i < |s.stack| :: InEncoder(s.stack[i].pc) ==> MaskSeenBy(s, i))
  {
    RunKeepsInv(run);
  }

  /** A context that logs while another one does contributes nothing: its writes
      change nothing at all and its release only lowers the depth. */
  lemma NestedCallsAreDropped(run: seq<Action>)
    requires Legal(run) && Exec(run).stack != [] && Top(Exec(run)).pc.Nested?
    ensures var s := Exec(run);
            && Next(s, CallWrite) == s
            && Next(s, Release) == WithTop(s, Top(s).(pc := Outside)).(depth := s.depth - 1)
            && forall bytes, accepted :: !Enabled(s, Emit(bytes, accepted))
  {
    RunKeepsInv(run);
    DepthTells(Exec(run));
  }

  // ---------- exclusive use ----------

  /** Above a context in the window nobody logs. */
  predicate QuietInv(stack: seq<Context>) {
    forall i, j | 0 <= i < j < |stack| :: InWindow(stack[i].pc) ==> stack[j].pc.Outside?
  }

  lemma QuietIsExclusive(s: State)
    requires Inv(s) && QuietInv(s.stack)
    ensures Exclusive(s)
  {
    forall i, j | 0 <= i < j < |s.stack| && Owning(s.stack[j].pc)
      ensures !Owning(s.stack[i].pc)
    {
      OwnersBelow(s.stack, i, j);
    }
  }

  /** Starting to log inside the window makes a second owner at once. */
  lemma LoudMakesTwoOwners(s: State)
    requires Inv(s) && QuietInv(s.stack) && Enabled(s, Acquire) && WindowOpen(s)
    ensures !Exclusive(Next(s, Acquire))
  {
    var n := |s.stack| - 1;
    var i :| 0 <= i <= n && InWindow(s.stack[i].pc);
    forall j | 0 <= j <= n
      ensures !Counted(s.stack[j].pc)
    {
      if j < i {
        OwnersBelow(s.stack, j, i);
      }
    }
    CountZero(s.stack);
    var s' := Next(s, Acquire);
    assert Owning(s'.stack[i].pc) && Owning(s'.stack[n].pc);
  }

  lemma StepKeepsQuiet(s: State, a: Action)
    requires Inv(s) && QuietInv(s.stack) && Enabled(s, a) && (a.Acquire? ==> !WindowOpen(s))
    ensures QuietInv(Next(s, a).stack)
  {
    if OfLogCall(a) {
      CallChangesTopOnly(s, a);
    }
  }

  lemma {:induction false} RunKeepsQuiet(run: seq<Action>)
    requires Legal(run) && QuietWindow(run)
    ensures QuietInv(Exec(run).stack)
    decreases |run|
  {
    if run != [] {
      RunKeepsQuiet(run[..|run| - 1]);
      RunKeepsInv(run[..|run| - 1]);
      StepKeepsQuiet(Exec(run[..|run| - 1]), run[|run| - 1]);
    }
  }

  /** The encoder and the saved interrupt state have one owner at a time in
      exactly those runs in which no context starts to log while another one is
      between lowering the depth and leaving the critical section. */
  lemma {:induction false} ExclusiveIffQuiet(run: seq<Action>)
    requires Legal(run)
    ensures AlwaysExclusive(run) <==> QuietWindow(run)
    decreases |run|
  {
    RunKeepsInv(run);
    if run == [] {
      QuietIsExclusive(Exec(run));
    } else {
      var n := |run| - 1;
      ExclusiveIffQuiet(run[..n]);
      if QuietWindow(run) {
        RunKeepsQuiet(run);
        QuietIsExclusive(Exec(run));
      } else if QuietWindow(run[..n]) {
        RunKeepsInv(run[..n]);
        RunKeepsQuiet(run[..n]);
        LoudMakesTwoOwners(Exec(run[..n]));
      }
    }
  }

  /** The condition for exclusive use is enough for whole frames and for the
      restored interrupt state, whose own conditions are weaker. */
  lemma {:induction false} QuietIsEnough(run: seq<Action>)
    requires Legal(run) && QuietWindow(run)
    ensures BeginsApart(run) && SavesAgree(run)
    decreases |run|
  {
    if run != [] {
      var n := |run| - 1;
      QuietIsEnough(run[..n]);
      RunKeepsQuiet(run[..n]);
    }
  }

  // ---------- the interrupt state ----------

  lemma SavingKeepsStates(s: State)
    requires Inv(s) && StatesKept(s) && Enabled(s, SaveCs)
    ensures StatesKept(Next(s, SaveCs)) <==> SameStateInWindow(s)
  {
    var s', n := Next(s, SaveCs), |s.stack| - 1;
    forall i | 0 <= i < n && Saved(s.stack[i].pc)
      ensures InWindow(s.stack[i].pc)
    {
      OwnersBelow(s.stack, i, n);
    }
    forall i | 0 <= i < n
      ensures s'.stack[i] == s.stack[i]
    {
    }
  }

  /** The running context does not touch the saved state, and needs none that it
      did not need before. */
  predicate KeepsSaved(s: State, s': State) {
    && s.stack != [] && s'.stack != []
    && s'.csState == s.csState
    && (Saved(Top(s').pc) ==> Saved(Top(s).pc) && Top(s').restore == Top(s).restore)
  }

  lemma OwnerKeepsSaved(s: State, a: Action)
    requires Enabled(s, a) && OfOwner(a) && !a.SaveCs?
    ensures KeepsSaved(s, Next(s, a))
  {
  }

  lemma CallerKeepsSaved(s: State, a: Action)
    requires Inv(s) && Enabled(s, a) && OfCaller(a)
    ensures KeepsSaved(s, Next(s, a))
  {
    DepthTells(s);
    match a
    case Acquire =>
    case CallWrite =>
    case Release =>
    case TakeWaker =>
    case CallWaker =>
  }

  lemma CallKeepsStates(s: State, a: Action)
    requires Inv(s) && StatesKept(s) && Enabled(s, a) && OfLogCall(a) && !a.SaveCs?
    ensures StatesKept(Next(s, a))
  {
    if OfOwner(a) {
      OwnerKeepsSaved(s, a);
    } else {
      CallerKeepsSaved(s, a);
    }
    CallChangesTopOnly(s, a);
    SavedStatesKept(s, Next(s, a));
  }

  lemma SavedStatesKept(s: State, s': State)
    requires StatesKept(s) && SameBelowTop(s, s') && KeepsSaved(s, s')
    ensures StatesKept(s')
  {
  }

  lemma StepKeepsStates(s: State, a: Action)
    requires Inv(s) && StatesKept(s) && Enabled(s, a)
    ensures StatesKept(Next(s, a)) <==> (a.SaveCs? ==> SameStateInWindow(s))
  {
    if a.SaveCs? {
      SavingKeepsStates(s);
    } else if OfLogCall(a) {
      CallKeepsStates(s, a);
    }
  }

  /** Every context that still needs its interrupt state finds it saved, at every
      moment of a run, exactly when no context saves another state than one in
      the window has found. */
  lemma {:induction false} StatesKeptIffSavesAgree(run: seq<Action>)
    requires Legal(run)
    ensures AlwaysKept(run) <==> SavesAgree(run)
    decreases |run|
  {
    if run != [] {
      var n := |run| - 1;
      StatesKeptIffSavesAgree(run[..n]);
      RunKeepsInv(run[..n]);
      if SavesAgree(run[..n]) {
        StepKeepsStates(Exec(run[..n]), run[n]);
      }
    }
  }

  /** In those runs every owner puts back the interrupt state that it found. */
  lemma LeavingRestores(run: seq<Action>)
    requires Legal(run) && SavesAgree(run)
    requires Enabled(Exec(run), LeaveCs)
    ensures Next(Exec(run), LeaveCs).masked == Top(Exec(run)).restore
  {
    StatesKeptIffSavesAgree(run);
  }

  // ---------- what goes wrong in the window ----------

  lemma OneMore(run: seq<Action>, s: State, a: Action) returns (run': seq<Action>, s': State)
    requires Legal(run) && Exec(run) == s && Enabled(s, a)
    ensures run' == run + [a] && Legal(run') && s' == Next(s, a) == Exec(run')
    ensures QuietWindow(run') <==> QuietWindow(run) && (a.Acquire? ==> !WindowOpen(s))
    ensures BeginsApart(run') <==> BeginsApart(run) && (a.SaveCs? ==> !FrameClosing(s))
    ensures SavesAgree(run') <==> SavesAgree(run) && (a.SaveCs? ==> SameStateInWindow(s))
  {
    run', s' := run + [a], Next(s, a);
    assert run'[..|run|] == run;
  }

  /** A log call that has just lowered the depth, or that has also closed its
      frame. */
  lemma ReachesWindow(closed: bool) returns (run: seq<Action>, s: State)
    ensures Legal(run) && BeginsApart(run) && Exec(run) == s
    ensures s == Boot().(masked := true, events := if closed then [Begin(0), Finish(0)] else [Begin(0)],
                         stack := [Context(0, if closed then Ended else Ending, false, false, 0)])
  {
    run, s := [], Boot();
    run, s := OneMore(run, s, Acquire);
    run, s := OneMore(run, s, EnterCs);
    run, s := OneMore(run, s, SaveCs);
    run, s := OneMore(run, s, EncoderDone);
    run, s := OneMore(run, s, Release);
    if closed {
      run, s := OneMore(run, s, EncoderDone);
    }
  }

  /** An NMI arrives there and starts to log. */
  lemma NmiEntersWindow(closed: bool) returns (run: seq<Action>, s: State)
    ensures Legal(run) && Exec(run) == s
    ensures !QuietWindow(run) && !SavesAgree(run) && (BeginsApart(run) <==> closed)
    ensures s == Boot().(depth := 1, masked := true, csState := true, arrived := 2,
                         events := (if closed then [Begin(0), Finish(0)] else [Begin(0)]) + [Begin(1)],
                         stack := [Context(0, if closed then Ended else Ending, false, false, 0),
                                   Context(1, Starting, true, true, 0)])
  {
    run, s := ReachesWindow(closed);
    run, s := OneMore(run, s, NonMaskable);
    assert InWindow(s.stack[0].pc);
    run, s := OneMore(run, s, Acquire);
    run, s := OneMore(run, s, EnterCs);
    assert InWindow(s.stack[0].pc) && s.stack[0].restore != Top(s).restore;
    assert !closed ==> s.stack[0].pc.Ending?;
    run, s := OneMore(run, s, SaveCs);
  }

  /** It ends its frame. */
  lemma NmiFinishes(closed: bool) returns (run: seq<Action>, s: State)
    ensures Legal(run) && Exec(run) == s
    ensures !QuietWindow(run) && !SavesAgree(run) && (BeginsApart(run) <==> closed)
    ensures s == Boot().(masked := true, csState := true, arrived := 2,
                         events := (if closed then [Begin(0), Finish(0)] else [Begin(0)]) + [Begin(1), Finish(1)],
                         stack := [Context(0, if closed then Ended else Ending, false, false, 0),
                                   Context(1, Ended, true, true, 0)])
  {
    run, s := NmiEntersWindow(closed);
    run, s := OneMore(run, s, EncoderDone);
    run, s := OneMore(run, s, Release);
    run, s := OneMore(run, s, EncoderDone);
  }

  /** It completes its call and returns. */
  lemma NmiReturns(closed: bool) returns (run: seq<Action>, s: State)
    ensures Legal(run) && Exec(run) == s
    ensures !QuietWindow(run) && !SavesAgree(run) && (BeginsApart(run) <==> closed)
    ensures s == Boot().(masked := true, csState := true, arrived := 2,
                         events := (if closed then [Begin(0), Finish(0)] else [Begin(0)]) + [Begin(1), Finish(1)],
                         stack := [Context(0, if closed then Ended else Ending, false, false, 0)])
  {
    run, s := NmiFinishes(closed);
    run, s := OneMore(run, s, LeaveCs);
    run, s := OneMore(run, s, TakeWaker);
    run, s := OneMore(run, s, CallWaker);
    run, s := OneMore(run, s, Return);
  }

  /** The conditions are needed: an NMI that logs after the depth was lowered and
      before the frame was closed is not recognised as nested. It opens a frame
      inside the open one, and overwrites the saved interrupt state, so that the
      interrupted context leaves the critical section with interrupts still
      masked although it had found them unmasked. */
  lemma LoggingInWindowBreaksFrames() returns (run: seq<Action>)
    ensures Legal(run) && !QuietWindow(run) && !BeginsApart(run) && !SavesAgree(run)
    ensures Exec(run).events == [Begin(0), Begin(1), Finish(1), Finish(0)]
    ensures Exec(run).stack != [] && Top(Exec(run)).pc.Waking?
    ensures Top(Exec(run)).restore == false && Exec(run).masked == true
  {
    var s;
    run, s := NmiReturns(false);
    run, s := OneMore(run, s, EncoderDone);
    run, s := OneMore(run, s, LeaveCs);
  }

  /** The conditions differ: once the frame is closed, such an NMI does the frames
      no harm, but the interrupt state is lost all the same. */
  lemma LoggingBeforeLeavingLosesState() returns (run: seq<Action>)
    ensures Legal(run) && !QuietWindow(run) && BeginsApart(run) && !SavesAgree(run)
    ensures Exec(run).events == [Begin(0), Finish(0), Begin(1), Finish(1)]
    ensures Exec(run).stack != [] && Top(Exec(run)).pc.Waking?
    ensures Top(Exec(run)).restore == false && Exec(run).masked == true
  {
    var s;
    run, s := NmiReturns(true);
    run, s := OneMore(run, s, LeaveCs);
  }
}
