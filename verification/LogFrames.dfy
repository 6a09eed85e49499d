/** Whole frames: over which runs what the encoder passes on is a sequence of
    complete frames. */
module LogFrames {
  import opened Words
  import opened LogMachine
  import opened LogProofs

  // ---------- what a frame is ----------

  function Rank(phase: Phase): nat {
    match phase
    case StartPhase => 0
    case BodyPhase => 1
    case EndPhase => 2
  }

  /** The beginning of a frame: one context begins it, and only that context
      contributes, first start chunks, then body chunks, then end chunks. */
  predicate FrameUpTo(events: seq<Event>, owner: nat, phase: Phase) {
    && events != []
    && events[0] == Begin(owner)
    && (forall i | 0 < i < |events| ::
          events[i].Chunk? && events[i].owner == owner && Rank(events[i].phase) <= Rank(phase))
    && (forall i, j | 0 < i < j < |events| && events[i].Chunk? && events[j].Chunk? ::
          Rank(events[i].phase) <= Rank(events[j].phase))
  }

  predicate WholeFrame(events: seq<Event>) {
    && events != []
    && events[|events| - 1].Finish?
    && FrameUpTo(events[..|events| - 1], events[|events| - 1].owner, EndPhase)
  }

  predicate WholeFrames(frames: seq<seq<Event>>) {
    forall f | f in frames :: WholeFrame(f)
  }

  /** `events` are whole frames and the beginning of at most one more. */
  predicate Splits(events: seq<Event>, frames: seq<seq<Event>>, partial: seq<Event>) {
    && events == Flatten(frames) + partial
    && WholeFrames(frames)
    && (partial != [] ==> FrameUpTo(partial, partial[0].owner, EndPhase))
  }

  ghost predicate InWholeFrames(events: seq<Event>) {
    exists frames, partial :: Splits(events, frames, partial)
  }

  // ---------- the same, event by event ----------

  /** The frame of `owner` is open after `e` and has not got past `phase`. */
  predicate InFrame(e: Event, owner: nat, phase: Phase) {
    !e.Finish? && e.owner == owner && (e.Chunk? ==> Rank(e.phase) <= Rank(phase))
  }

  /** Whether `e` may come after `before`. */
  predicate Fits(before: seq<Event>, e: Event) {
    match e
    case Begin(_) => before == [] || before[|before| - 1].Finish?
    case Chunk(owner, phase, _) => before != [] && InFrame(before[|before| - 1], owner, phase)
    case Finish(owner) => before != [] && InFrame(before[|before| - 1], owner, EndPhase)
  }

  predicate Framed(events: seq<Event>) {
    events == [] ||
    var n := |events| - 1;
    Framed(events[..n]) && Fits(events[..n], events[n])
  }

  lemma FramedSnoc(events: seq<Event>, e: Event)
    ensures Framed(events + [e]) <==> Framed(events) && Fits(events, e)
  {
    assert (events + [e])[..|events|] == events;
  }

  lemma {:induction false} FlattenSnoc<T>(chunks: seq<seq<T>>, last: seq<T>)
    ensures Flatten(chunks + [last]) == Flatten(chunks) + last
    decreases |chunks|
  {
    if chunks == [] {
      assert chunks + [last] == [last];
      AppendNothing(last);
    } else {
      assert (chunks + [last])[1..] == chunks[1..] + [last];
      FlattenSnoc(chunks[1..], last);
      AppendAssociates(chunks[0], Flatten(chunks[1..]), last);
    }
  }

  /** Whole frames end with a `Finish`. */
  lemma LastFrame(frames: seq<seq<Event>>) returns (earlier: seq<seq<Event>>, last: seq<Event>)
    requires frames != [] && WholeFrames(frames)
    ensures frames == earlier + [last] && Flatten(frames) == Flatten(earlier) + last
    ensures WholeFrames(earlier) && WholeFrame(last)
    ensures Flatten(frames) != [] && Flatten(frames)[|Flatten(frames)| - 1] == last[|last| - 1]
  {
    earlier, last := frames[..|frames| - 1], frames[|frames| - 1];
    assert frames == earlier + [last];
    FlattenSnoc(earlier, last);
  }

  lemma SplitTail(before: seq<Event>, tail: seq<Event>)
    requires tail != []
    ensures (before + tail)[|before + tail| - 1] == tail[|tail| - 1]
    ensures (before + tail)[..|before + tail| - 1] == before + tail[..|tail| - 1]
  {
  }

  /** The event at which a beginning of a frame ends fits. */
  lemma PartialFits(frames: seq<seq<Event>>, partial: seq<Event>)
    requires WholeFrames(frames)
    requires partial != [] && FrameUpTo(partial, partial[0].owner, EndPhase)
    ensures Fits(Flatten(frames) + partial[..|partial| - 1], partial[|partial| - 1])
  {
    var before := partial[..|partial| - 1];
    if before != [] {
      SplitTail(Flatten(frames), before);
    } else {
      AppendNothing(Flatten(frames));
      if frames != [] {
        var _, _ := LastFrame(frames);
      }
    }
  }

  lemma WithoutLastOfPartial(events: seq<Event>, frames: seq<seq<Event>>, partial: seq<Event>)
    requires Splits(events, frames, partial) && partial != []
    ensures var n := |events| - 1;
            Splits(events[..n], frames, partial[..|partial| - 1]) && Fits(events[..n], events[n])
  {
    SplitTail(Flatten(frames), partial);
    PartialFits(frames, partial);
  }

  lemma WithoutFinish(earlier: seq<seq<Event>>, last: seq<Event>)
    requires WholeFrames(earlier) && WholeFrame(last)
    ensures var events := Flatten(earlier) + last;
            var n := |events| - 1;
            Splits(events[..n], earlier, last[..|last| - 1]) && Fits(events[..n], events[n])
  {
    SplitTail(Flatten(earlier), last);
    SplitTail(Flatten(earlier), last[..|last| - 1]);
  }

  lemma {:induction false} SplitsFramed(events: seq<Event>, frames: seq<seq<Event>>, partial: seq<Event>)
    requires Splits(events, frames, partial)
    ensures Framed(events)
    decreases |events|
  {
    if partial != [] {
      WithoutLastOfPartial(events, frames, partial);
      SplitsFramed(events[..|events| - 1], frames, partial[..|partial| - 1]);
    } else if frames != [] {
      AppendNothing(Flatten(frames));
      var earlier, last := LastFrame(frames);
      WithoutFinish(earlier, last);
      SplitsFramed(events[..|events| - 1], earlier, last[..|last| - 1]);
    }
  }

  /** Where the last event says that a frame is open, it is the one in progress. */
  lemma OpenFrame(events: seq<Event>, frames: seq<seq<Event>>, partial: seq<Event>, owner: nat, phase: Phase)
    requires Splits(events, frames, partial)
    requires events != [] && InFrame(events[|events| - 1], owner, phase)
    ensures partial != [] && FrameUpTo(partial, owner, phase)
  {
    if partial == [] {
      AppendNothing(Flatten(frames));
      var _, _ := LastFrame(frames);
    } else {
      SplitTail(Flatten(frames), partial);
    }
  }

  lemma ClosedFrame(events: seq<Event>, frames: seq<seq<Event>>, partial: seq<Event>)
    requires Splits(events, frames, partial)
    requires events == [] || events[|events| - 1].Finish?
    ensures partial == []
  {
    if partial != [] {
      SplitTail(Flatten(frames), partial);
    }
  }

  lemma AddEvent(before: seq<Event>, e: Event, frames0: seq<seq<Event>>, partial0: seq<Event>)
    returns (frames: seq<seq<Event>>, partial: seq<Event>)
    requires Splits(before, frames0, partial0) && Fits(before, e)
    ensures Splits(before + [e], frames, partial)
  {
    AppendAssociates(Flatten(frames0), partial0, [e]);
    if e.Begin? {
      ClosedFrame(before, frames0, partial0);
      frames, partial := frames0, [e];
    } else if e.Chunk? {
      OpenFrame(before, frames0, partial0, e.owner, e.phase);
      frames, partial := frames0, partial0 + [e];
    } else {
      OpenFrame(before, frames0, partial0, e.owner, EndPhase);
      FlattenSnoc(frames0, partial0 + [e]);
      assert (partial0 + [e])[..|partial0|] == partial0;
      frames, partial := frames0 + [partial0 + [e]], [];
      AppendNothing(Flatten(frames));
    }
  }

  lemma {:induction false} FramedSplits(events: seq<Event>)
    returns (frames: seq<seq<Event>>, partial: seq<Event>)
    requires Framed(events)
    ensures Splits(events, frames, partial)
    decreases |events|
  {
    if events == [] {
      frames, partial := [], [];
    } else {
      var n := |events| - 1;
      frames, partial := FramedSplits(events[..n]);
      assert events == events[..n] + [events[n]];
      frames, partial := AddEvent(events[..n], events[n], frames, partial);
    }
  }

  // ---------- runs ----------

  /** The context has begun a frame and not finished it. */
  predicate HasOpenFrame(pc: Pc) {
    pc.Starting? || pc.Logging? || pc.Writing? || pc.Ending?
  }

  /** What the last event says of each context. */
  predicate LastInv(s: State) {
    && (forall i | 0 <= i < |s.stack| && HasOpenFrame(s.stack[i].pc) ::
          s.events != [] && InFrame(s.events[|s.events| - 1], s.stack[i].id, PhaseOf(s.stack[i].pc)))
    && ((forall i | 0 <= i < |s.stack| :: !HasOpenFrame(s.stack[i].pc)) ==>
          s.events == [] || s.events[|s.events| - 1].Finish?)
  }

  /** Only one frame is open. */
  lemma OneOpenFrame(s: State, i: nat)
    requires IdsInv(s) && LastInv(s) && i < |s.stack| && HasOpenFrame(s.stack[i].pc)
    ensures forall j | 0 <= j < |s.stack| && j != i :: !HasOpenFrame(s.stack[j].pc)
  {
    forall j | 0 <= j < |s.stack| && j != i
      ensures !HasOpenFrame(s.stack[j].pc)
    {
      assert s.stack[i].id != s.stack[j].id;
    }
  }

  /** A context that begins a frame has none open, and the others that have are
      closing theirs. */
  lemma OpenBelow(s: State, i: nat)
    requires Inv(s) && Enabled(s, SaveCs) && i < |s.stack| && HasOpenFrame(s.stack[i].pc)
    ensures s.stack[i].pc.Ending?
  {
    OwnersBelow(s.stack, i, |s.stack| - 1);
  }

  /** Beginning a frame fits exactly if nobody is closing one. */
  lemma BeginStep(s: State)
    requires Inv(s) && LastInv(s) && Framed(s.events) && Enabled(s, SaveCs)
    ensures Framed(Next(s, SaveCs).events) <==> !FrameClosing(s)
    ensures !FrameClosing(s) ==> LastInv(Next(s, SaveCs))
  {
    var s', n := Next(s, SaveCs), |s.stack| - 1;
    FramedSnoc(s.events, Begin(Top(s).id));
    if !FrameClosing(s) {
      forall i | 0 <= i <= n
        ensures !HasOpenFrame(s.stack[i].pc)
      {
        if HasOpenFrame(s.stack[i].pc) {
          OpenBelow(s, i);
        }
      }
      assert HasOpenFrame(s'.stack[n].pc);
    }
  }

  lemma EmitStep(s: State, a: Action)
    requires Inv(s) && LastInv(s) && Framed(s.events) && Enabled(s, a) && a.Emit?
    ensures Framed(Next(s, a).events) && LastInv(Next(s, a))
  {
    EmitChangesLittle(s, a);
    FramedSnoc(s.events, Chunk(Top(s).id, PhaseOf(Top(s).pc), a.bytes));
    OneOpenFrame(s, |s.stack| - 1);
    ChunkKeepsLast(s, Next(s, a), a.bytes);
  }

  lemma EmitChangesLittle(s: State, a: Action)
    requires Enabled(s, a) && a.Emit?
    ensures var s' := Next(s, a);
            && s'.events == s.events + [Chunk(Top(s).id, PhaseOf(Top(s).pc), a.bytes)]
            && SameBelowTop(s, s') && Top(s').pc == Top(s).pc
  {
    OwnerChangesTopOnly(s, a);
  }

  lemma ChunkKeepsLast(s: State, s': State, bytes: seq<u8>)
    requires SameBelowTop(s, s') && Top(s').pc == Top(s).pc && HasOpenFrame(Top(s).pc)
    requires forall i | 0 <= i < |s.stack| - 1 :: !HasOpenFrame(s.stack[i].pc)
    requires s'.events == s.events + [Chunk(Top(s).id, PhaseOf(Top(s).pc), bytes)]
    ensures LastInv(s')
  {
    assert HasOpenFrame(s'.stack[|s.stack| - 1].pc);
  }

  lemma FinishStep(s: State)
    requires Inv(s) && LastInv(s) && Framed(s.events) && Enabled(s, EncoderDone) && Top(s).pc.Ending?
    ensures Framed(Next(s, EncoderDone).events) && LastInv(Next(s, EncoderDone))
  {
    FramedSnoc(s.events, Finish(Top(s).id));
    OneOpenFrame(s, |s.stack| - 1);
  }

  /** The running context moves on within its frame, or outside of one. */
  predicate SameFrame(pc: Pc, pc': Pc) {
    && (HasOpenFrame(pc) <==> HasOpenFrame(pc'))
    && Rank(PhaseOf(pc)) <= Rank(PhaseOf(pc'))
  }

  lemma OwnerStaysInFrame(s: State, a: Action)
    requires Inv(s) && Enabled(s, a) && OfOwner(a) && !a.SaveCs? && !a.Emit?
    requires !(a.EncoderDone? && Top(s).pc.Ending?)
    ensures Next(s, a).events == s.events && Next(s, a).stack != []
    ensures HasOpenFrame(Top(s).pc) || HasOpenFrame(Top(Next(s, a)).pc) ==>
              SameFrame(Top(s).pc, Top(Next(s, a)).pc)
  {
    DepthTells(s);
  }

  lemma ReleaseStaysInFrame(s: State)
    requires Inv(s) && Enabled(s, Release)
    ensures Next(s, Release).events == s.events && Next(s, Release).stack != []
    ensures HasOpenFrame(Top(s).pc) || HasOpenFrame(Top(Next(s, Release)).pc) ==>
              SameFrame(Top(s).pc, Top(Next(s, Release)).pc)
  {
    DepthTells(s);
  }

  lemma CallerStaysInFrame(s: State, a: Action)
    requires Inv(s) && Enabled(s, a) && OfCaller(a)
    ensures Next(s, a).events == s.events && Next(s, a).stack != []
    ensures HasOpenFrame(Top(s).pc) || HasOpenFrame(Top(Next(s, a)).pc) ==>
              SameFrame(Top(s).pc, Top(Next(s, a)).pc)
  {
    if a.Release? {
      ReleaseStaysInFrame(s);
    } else {
      DepthTells(s);
    }
  }

  lemma SameFrameKeepsLast(s: State, s': State)
    requires LastInv(s) && SameBelowTop(s, s') && s'.events == s.events
    requires HasOpenFrame(Top(s).pc) || HasOpenFrame(Top(s').pc) ==> SameFrame(Top(s).pc, Top(s').pc)
    ensures LastInv(s')
  {
    var n := |s.stack| - 1;
    if i :| 0 <= i <= n && HasOpenFrame(s.stack[i].pc) {
      assert HasOpenFrame(s'.stack[i].pc);
    }
  }

  lemma OtherKeepsLast(s: State, a: Action)
    requires LastInv(s) && Enabled(s, a) && !OfLogCall(a)
    ensures Next(s, a).events == s.events && LastInv(Next(s, a))
  {
    var s' := Next(s, a);
    if i :| 0 <= i < |s.stack| && HasOpenFrame(s.stack[i].pc) {
      assert HasOpenFrame(s'.stack[i].pc);
    }
  }

  /** A step breaks the frames exactly if it begins one while another is closed. */
  lemma StepKeepsFrames(s: State, a: Action)
    requires Inv(s) && LastInv(s) && Framed(s.events) && Enabled(s, a)
    ensures Framed(Next(s, a).events) <==> (a.SaveCs? ==> !FrameClosing(s))
    ensures Framed(Next(s, a).events) ==> LastInv(Next(s, a))
  {
    if a.SaveCs? {
      BeginStep(s);
    } else if a.Emit? {
      EmitStep(s, a);
    } else if a.EncoderDone? && Top(s).pc.Ending? {
      FinishStep(s);
    } else if OfLogCall(a) {
      if OfOwner(a) { OwnerStaysInFrame(s, a); } else { CallerStaysInFrame(s, a); }
      CallChangesTopOnly(s, a);
      SameFrameKeepsLast(s, Next(s, a));
    } else {
      OtherKeepsLast(s, a);
    }
  }

  /** Events are never taken back. */
  lemma EventsGrow(s: State, a: Action)
    requires Enabled(s, a) && !Framed(s.events)
    ensures !Framed(Next(s, a).events)
  {
    if a.SaveCs? {
      FramedSnoc(s.events, Begin(Top(s).id));
    } else if a.Emit? {
      FramedSnoc(s.events, Chunk(Top(s).id, PhaseOf(Top(s).pc), a.bytes));
    } else if a.EncoderDone? && Top(s).pc.Ending? {
      FramedSnoc(s.events, Finish(Top(s).id));
    }
  }

  lemma {:induction false} RunFramed(run: seq<Action>)
    requires Legal(run)
    ensures Framed(Exec(run).events) <==> BeginsApart(run)
    ensures BeginsApart(run) ==> LastInv(Exec(run))
    decreases |run|
  {
    if run != [] {
      var n := |run| - 1;
      RunFramed(run[..n]);
      RunKeepsInv(run[..n]);
      if BeginsApart(run[..n]) {
        StepKeepsFrames(Exec(run[..n]), run[n]);
      } else {
        EventsGrow(Exec(run[..n]), run[n]);
      }
    }
  }

  /** What the encoder emitted over a run is a sequence of complete frames, each
      from one context in start, body, end order, and the beginning of at most
      one more, exactly if no context begins a frame while another one is closing
      its own. */
  lemma WholeFramesIff(run: seq<Action>)
    requires Legal(run)
    ensures InWholeFrames(Exec(run).events) <==> BeginsApart(run)
  {
    var events := Exec(run).events;
    RunFramed(run);
    if InWholeFrames(events) {
      var frames, partial :| Splits(events, frames, partial);
      SplitsFramed(events, frames, partial);
    }
    if BeginsApart(run) {
      var frames, partial := FramedSplits(events);
    }
  }

  /** In those runs the frame in progress belongs to the one context that has
      begun a frame and not finished it, and there is none without one. */
  lemma FramesStayWhole(run: seq<Action>) returns (frames: seq<seq<Event>>, partial: seq<Event>)
    requires Legal(run) && BeginsApart(run)
    ensures var s := Exec(run);
            && Splits(s.events, frames, partial)
            && (forall i | 0 <= i < |s.stack| && HasOpenFrame(s.stack[i].pc) ::
                  partial != [] && FrameUpTo(partial, s.stack[i].id, PhaseOf(s.stack[i].pc)))
            && ((forall i | 0 <= i < |s.stack| :: !HasOpenFrame(s.stack[i].pc)) ==> partial == [])
  {
    var s := Exec(run);
    RunFramed(run);
    frames, partial := FramedSplits(s.events);
    forall i | 0 <= i < |s.stack| && HasOpenFrame(s.stack[i].pc)
      ensures partial != [] && FrameUpTo(partial, s.stack[i].id, PhaseOf(s.stack[i].pc))
    {
      OpenFrame(s.events, frames, partial, s.stack[i].id, PhaseOf(s.stack[i].pc));
    }
    if forall i | 0 <= i < |s.stack| :: !HasOpenFrame(s.stack[i].pc) {
      ClosedFrame(s.events, frames, partial);
    }
  }
}
