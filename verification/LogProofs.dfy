/** What holds in every run of the logging contexts, whoever logs when: what the
    depth counts, which contexts can be at work below another one, and that the
    encoder is used with interrupts masked. */
module LogProofs {
  import opened LogMachine

  // ---------- the invariant ----------

  /** Between the increment and the decrement of the depth counter. */
  predicate Counted(pc: Pc) {
    pc.Entered? || pc.Masked? || pc.Starting? || pc.Logging? || pc.Nested? || pc.Writing?
  }

  function CountedIn(stack: seq<Context>): nat {
    if stack == [] then 0
    else
      var n := |stack| - 1;
      CountedIn(stack[..n]) + if Counted(stack[n].pc) then 1 else 0
  }

  /** What a context's place says about the number of counted contexts below. */
  predicate LevelOk(below: nat, pc: Pc) {
    && (pc.Nested? ==> below > 0)
    && (Owning(pc) ==> below == 0)
    && (pc.Writing? ==> pc.from.Logging?)
  }

  predicate Levels(stack: seq<Context>) {
    stack == [] ||
    var n := |stack| - 1;
    Levels(stack[..n]) && LevelOk(CountedIn(stack[..n]), stack[n].pc)
  }

  /** The interrupt mask that context `i` finds when it runs (again). */
  function MaskSeenBy(s: State, i: nat): bool
    requires i < |s.stack|
  {
    if i + 1 < |s.stack| then s.stack[i + 1].maskedBefore else s.masked
  }

  predicate InCriticalSection(pc: Pc) {
    Owning(pc) && !pc.Entered?
  }

  predicate MaskInv(s: State) {
    forall i | 0 <= i < |s.stack| :: InCriticalSection(s.stack[i].pc) ==> MaskSeenBy(s, i)
  }

  predicate IdsInv(s: State) {
    && (forall i | 0 <= i < |s.stack| :: s.stack[i].id < s.arrived)
    && (forall i, j | 0 <= i < j < |s.stack| :: s.stack[i].id < s.stack[j].id)
  }

  predicate Inv(s: State) {
    && s.stack != []
    && Levels(s.stack)
    && s.depth == CountedIn(s.stack)
    && MaskInv(s)
    && IdsInv(s)
  }

  // ---------- counting ----------

  lemma {:induction false} CountZero(stack: seq<Context>)
    requires forall i | 0 <= i < |stack| :: !Counted(stack[i].pc)
    ensures CountedIn(stack) == 0
    decreases |stack|
  {
    if stack != [] {
      CountZero(stack[..|stack| - 1]);
    }
  }

  lemma {:induction false} CountSome(stack: seq<Context>, i: nat)
    requires i < |stack| && Counted(stack[i].pc)
    ensures CountedIn(stack) > 0
    decreases |stack|
  {
    if i < |stack| - 1 {
      CountSome(stack[..|stack| - 1], i);
    }
  }

  lemma {:induction false} LevelAt(stack: seq<Context>, i: nat)
    requires Levels(stack) && i < |stack|
    ensures LevelOk(CountedIn(stack[..i]), stack[i].pc)
    decreases |stack|
  {
    var n := |stack| - 1;
    if i < n {
      LevelAt(stack[..n], i);
      assert stack[..n][..i] == stack[..i];
    }
  }

  /** Below an owner nobody is counted, so another owner there is in the window. */
  lemma OwnersBelow(stack: seq<Context>, i: nat, j: nat)
    requires Levels(stack) && i < j < |stack| && Owning(stack[j].pc)
    ensures !Counted(stack[i].pc)
    ensures Owning(stack[i].pc) ==> InWindow(stack[i].pc)
  {
    LevelAt(stack, j);
    if Counted(stack[i].pc) {
      CountSome(stack[..j], i);
    }
  }

  /** What the depth tells the running context. */
  lemma DepthTells(s: State)
    requires Inv(s)
    ensures Top(s).pc.Logging? ==> s.depth == 1
    ensures Top(s).pc.Nested? ==> s.depth >= 2
    ensures Top(s).pc.Writing? ==> Top(s).pc.from.Logging?
  {
  }

  // ---------- steps ----------

  /** Steps inside the critical section. */
  predicate OfOwner(a: Action) {
    a.EnterCs? || a.SaveCs? || a.Emit? || a.EncoderDone? || a.LeaveCs?
  }

  /** The steps of a log call outside of it. */
  predicate OfCaller(a: Action) {
    a.Acquire? || a.CallWrite? || a.Release? || a.TakeWaker? || a.CallWaker?
  }

  predicate OfLogCall(a: Action) {
    OfOwner(a) || OfCaller(a)
  }

  /** `s'` differs from `s` in the running context, not in its identity. */
  predicate SameBelowTop(s: State, s': State) {
    && s.stack != [] && s'.stack != []
    && s'.stack == s.stack[|s.stack| - 1 := Top(s')]
    && Top(s').id == Top(s).id && Top(s').maskedBefore == Top(s).maskedBefore
    && s'.arrived == s.arrived
  }

  lemma WithSameTop(s: State)
    requires s.stack != []
    ensures WithTop(s, Top(s)) == s
  {
  }

  lemma EncoderDoneChangesTopOnly(s: State)
    requires Enabled(s, EncoderDone)
    ensures SameBelowTop(s, Next(s, EncoderDone))
  {
    match Top(s).pc
    case Starting =>
    case Writing(_) =>
    case Ending =>
  }

  lemma OwnerChangesTopOnly(s: State, a: Action)
    requires Enabled(s, a) && OfOwner(a)
    ensures SameBelowTop(s, Next(s, a))
  {
    if a.EncoderDone? {
      EncoderDoneChangesTopOnly(s);
    } else if a.Emit? {
      WithSameTop(s);
    }
  }

  lemma CallerChangesTopOnly(s: State, a: Action)
    requires Enabled(s, a) && OfCaller(a)
    ensures SameBelowTop(s, Next(s, a))
  {
    WithSameTop(s);
  }

  lemma CallChangesTopOnly(s: State, a: Action)
    requires Enabled(s, a) && OfLogCall(a)
    ensures SameBelowTop(s, Next(s, a))
  {
    if OfOwner(a) {
      OwnerChangesTopOnly(s, a);
    } else {
      CallerChangesTopOnly(s, a);
    }
  }

  /** The running context before and after a step, with the depth and the mask. */
  predicate PlaceOk(below: nat, pc: Pc, depth: int, masked: bool) {
    && LevelOk(below, pc)
    && depth == below + (if Counted(pc) then 1 else 0)
    && (InCriticalSection(pc) ==> masked)
  }

  lemma EncoderKeepsPlace(s: State, a: Action, below: nat)
    requires Enabled(s, a) && (a.Emit? || a.EncoderDone?) && PlaceOk(below, Top(s).pc, s.depth, s.masked)
    ensures var s' := Next(s, a);
            s'.stack != [] && PlaceOk(below, Top(s').pc, s'.depth, s'.masked)
  {
    if a.EncoderDone? {
      match Top(s).pc
      case Starting =>
      case Writing(_) =>
      case Ending =>
    }
  }

  lemma OwnerStepKeepsPlace(s: State, a: Action, below: nat)
    requires Enabled(s, a) && OfOwner(a) && PlaceOk(below, Top(s).pc, s.depth, s.masked)
    ensures var s' := Next(s, a);
            s'.stack != [] && PlaceOk(below, Top(s').pc, s'.depth, s'.masked)
  {
    if a.Emit? || a.EncoderDone? {
      EncoderKeepsPlace(s, a, below);
    }
  }

  lemma AcquireKeepsPlace(s: State, below: nat)
    requires Enabled(s, Acquire) && PlaceOk(below, Top(s).pc, s.depth, s.masked)
    ensures var s' := Next(s, Acquire);
            s'.stack != [] && PlaceOk(below, Top(s').pc, s'.depth, s'.masked)
  {
  }

  lemma ReleaseKeepsPlace(s: State, below: nat)
    requires Enabled(s, Release) && PlaceOk(below, Top(s).pc, s.depth, s.masked)
    ensures var s' := Next(s, Release);
            s'.stack != [] && PlaceOk(below, Top(s').pc, s'.depth, s'.masked)
  {
  }

  lemma CallerStepKeepsPlace(s: State, a: Action, below: nat)
    requires Enabled(s, a) && OfCaller(a) && PlaceOk(below, Top(s).pc, s.depth, s.masked)
    ensures var s' := Next(s, a);
            s'.stack != [] && PlaceOk(below, Top(s').pc, s'.depth, s'.masked)
  {
    if a.Acquire? {
      AcquireKeepsPlace(s, below);
    } else if a.Release? {
      ReleaseKeepsPlace(s, below);
    }
  }

  /** The invariant, as far as only the running context changed. */
  lemma TopKeepsInv(s: State, s': State)
    requires Inv(s) && SameBelowTop(s, s')
    requires PlaceOk(CountedIn(s.stack[..|s.stack| - 1]), Top(s').pc, s'.depth, s'.masked)
    ensures Inv(s')
  {
    assert s'.stack[..|s.stack| - 1] == s.stack[..|s.stack| - 1];
  }

  lemma CallKeepsInv(s: State, a: Action)
    requires Inv(s) && Enabled(s, a) && OfLogCall(a)
    ensures Inv(Next(s, a))
  {
    var below := CountedIn(s.stack[..|s.stack| - 1]);
    CallChangesTopOnly(s, a);
    if OfOwner(a) {
      OwnerStepKeepsPlace(s, a, below);
    } else {
      CallerStepKeepsPlace(s, a, below);
    }
    TopKeepsInv(s, Next(s, a));
  }

  lemma ArrivalKeepsInv(s: State)
    requires Inv(s)
    ensures Inv(Arrive(s))
  {
    assert Arrive(s).stack[..|s.stack|] == s.stack;
  }

  lemma ReturnKeepsInv(s: State)
    requires Inv(s) && Enabled(s, Return)
    ensures Inv(Next(s, Return))
  {
  }

  lemma StepKeepsInv(s: State, a: Action)
    requires Inv(s) && Enabled(s, a)
    ensures Inv(Next(s, a))
  {
    if OfLogCall(a) {
      CallKeepsInv(s, a);
    } else if a.Return? {
      ReturnKeepsInv(s);
    } else if a.Interrupt? || a.NonMaskable? {
      ArrivalKeepsInv(s);
    }
  }

  lemma {:induction false} RunKeepsInv(run: seq<Action>)
    requires Legal(run)
    ensures Inv(Exec(run))
    decreases |run|
  {
    if run == [] {
      assert Boot().stack[..0] == [];
    } else {
      RunKeepsInv(run[..|run| - 1]);
      StepKeepsInv(Exec(run[..|run| - 1]), run[|run| - 1]);
    }
  }
}
