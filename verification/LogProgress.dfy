/** Log calls and polls as a whole, step by step: what a call that nobody
    disturbs does, that every call in progress can be completed, and that the
    consumer's wake-up then arrives. */
module LogProgress {
  import opened Words
  import opened LogMachine
  import opened LogProofs
  import opened LogWakeups

  lemma OneMore(run: seq<Action>, s: State, a: Action) returns (run': seq<Action>, s': State)
    requires Legal(run) && Exec(run) == s && Enabled(s, a)
    ensures run' == run + [a] && Legal(run') && s' == Next(s, a) == Exec(run')
  {
    run', s' := run + [a], Next(s, a);
    assert run'[..|run|] == run;
  }

  // ---------- a whole call ----------

  /** A chunk that the encoder passes on, and how much of it the ring accepts. */
  datatype Piece = Piece(bytes: seq<u8>, accepted: nat)

  predicate Fit(pieces: seq<Piece>) {
    forall p | p in pieces :: p.accepted <= |p.bytes|
  }

  function Chunks(id: nat, phase: Phase, pieces: seq<Piece>): seq<Event> {
    if pieces == [] then []
    else [Chunk(id, phase, pieces[0].bytes)] + Chunks(id, phase, pieces[1..])
  }

  function AllAccepted(pieces: seq<Piece>): nat {
    if pieces == [] then 0 else pieces[0].accepted + AllAccepted(pieces[1..])
  }

  /** The running context is at `pc` and the depth is `depth`; it has published
      `accepted` bytes more, and `events` came about. */
  function Advanced(s: State, depth: int, pc: Pc, accepted: nat, events: seq<Event>): State
    requires s.stack != []
  {
    var published := s.published + accepted;
    WithTop(s, Top(s).(pc := pc, published := if accepted > 0 then published else Top(s).published))
    .(depth := depth, published := published, events := s.events + events)
  }

  lemma AdvancedTwice(
    s: State, s1: State, s2: State, d1: int, pc1: Pc, n1: nat, events1: seq<Event>,
    d2: int, pc2: Pc, n2: nat, events2: seq<Event>)
    requires s.stack != [] && s1 == Advanced(s, d1, pc1, n1, events1)
    requires s1.stack != [] && s2 == Advanced(s1, d2, pc2, n2, events2)
    ensures s2.stack != [] && s2 == Advanced(s, d2, pc2, n1 + n2, events1 + events2)
  {
    AppendAssociates(s.events, events1, events2);
  }

  lemma AdvancedNowhere(s: State)
    requires s.stack != []
    ensures Advanced(s, s.depth, Top(s).pc, 0, []) == s
  {
    AppendNothing(s.events);
    assert s.stack[|s.stack| - 1 := Top(s)] == s.stack;
  }

  // What single steps advance.

  lemma EmitAdvances(s: State, piece: Piece, s': State)
    requires s.stack != [] && InEncoder(Top(s).pc) && piece.accepted <= |piece.bytes|
    requires s' == Next(s, Emit(piece.bytes, piece.accepted))
    ensures s' == Advanced(s, s.depth, Top(s).pc, piece.accepted, [Chunk(Top(s).id, PhaseOf(Top(s).pc), piece.bytes)])
  {
    assert s.stack[|s.stack| - 1 := Top(s)] == s.stack;
  }

  lemma DoneAdvances(s: State, s': State)
    requires s.stack != [] && InEncoder(Top(s).pc) && s' == Next(s, EncoderDone)
    ensures match Top(s).pc
            case Starting => s' == Advanced(s, s.depth, Logging, 0, [])
            case Writing(from) => s' == Advanced(s, s.depth, from, 0, [])
            case _ => s' == Advanced(s, s.depth, Ended, 0, [Finish(Top(s).id)])
  {
    AppendNothing(s.events);
  }

  lemma CallAdvances(s: State, a: Action, s': State)
    requires s.stack != [] && Top(s).pc.Logging? && s.depth == 1 && (a.CallWrite? || a.Release?)
    requires s' == Next(s, a)
    ensures a.CallWrite? ==> s' == Advanced(s, 1, Writing(Logging), 0, [])
    ensures a.Release? ==> s' == Advanced(s, 0, Ending, 0, [])
  {
    AppendNothing(s.events);
  }

  /** The events of a whole frame. */
  function Frame(id: nat, starts: seq<Piece>, bodies: seq<Piece>, ends: seq<Piece>): seq<Event> {
    [Begin(id)] + Chunks(id, StartPhase, starts) + Chunks(id, BodyPhase, bodies)
    + Chunks(id, EndPhase, ends) + [Finish(id)]
  }

  /** The state at which the encoder is called to start a frame. */
  function Opened(s: State): State
    requires s.stack != []
  {
    WithTop(s, Top(s).(pc := Starting, restore := s.masked))
    .(depth := 1, masked := true, csState := s.masked, events := s.events + [Begin(Top(s).id)])
  }

  lemma OpenFrame(run: seq<Action>, s: State) returns (run': seq<Action>, s': State)
    requires Legal(run) && Exec(run) == s && s.stack != [] && Top(s).pc.Outside? && s.depth == 0
    ensures Legal(run') && Exec(run') == s' == Opened(s)
  {
    var run1, s1 := OneMore(run, s, Acquire);
    var run2, s2 := OneMore(run1, s1, EnterCs);
    run', s' := OneMore(run2, s2, SaveCs);
  }

  lemma {:induction false} EmitAll(run: seq<Action>, s: State, id: nat, pieces: seq<Piece>)
    returns (run': seq<Action>, s': State)
    requires Legal(run) && Exec(run) == s && s.stack != [] && InEncoder(Top(s).pc) && Top(s).id == id && Fit(pieces)
    ensures Legal(run') && Exec(run') == s'
    ensures s' == Advanced(s, s.depth, Top(s).pc, AllAccepted(pieces), Chunks(id, PhaseOf(Top(s).pc), pieces))
    decreases |pieces|
  {
    if pieces == [] {
      run', s' := run, s;
      AdvancedNowhere(s);
    } else {
      var run1, s1 := OneMore(run, s, Emit(pieces[0].bytes, pieces[0].accepted));
      var first := [Chunk(id, PhaseOf(Top(s).pc), pieces[0].bytes)];
      EmitAdvances(s, pieces[0], s1);
      KeepsPlace(s, s1, s.depth, Top(s).pc, pieces[0].accepted, first);
      run', s' := EmitAll(run1, s1, id, pieces[1..]);
      EmitMore(s, s1, s', id, Top(s).pc, pieces);
    }
  }

  lemma EmitMore(s: State, s1: State, s': State, id: nat, pc: Pc, pieces: seq<Piece>)
    requires s.stack != [] && s1.stack != [] && pieces != []
    requires s1 == Advanced(s, s.depth, pc, pieces[0].accepted, [Chunk(id, PhaseOf(pc), pieces[0].bytes)])
    requires s' == Advanced(s1, s.depth, pc, AllAccepted(pieces[1..]), Chunks(id, PhaseOf(pc), pieces[1..]))
    ensures s' == Advanced(s, s.depth, pc, AllAccepted(pieces), Chunks(id, PhaseOf(pc), pieces))
  {
    AdvancedTwice(s, s1, s', s.depth, pc, pieces[0].accepted, [Chunk(id, PhaseOf(pc), pieces[0].bytes)],
                  s.depth, pc, AllAccepted(pieces[1..]), Chunks(id, PhaseOf(pc), pieces[1..]));
  }

  lemma KeepsPlace(s: State, s1: State, depth: int, pc: Pc, n: nat, events: seq<Event>)
    requires s.stack != [] && s1 == Advanced(s, depth, pc, n, events)
    ensures s1.stack != [] && Top(s1).pc == pc && Top(s1).id == Top(s).id && s1.depth == depth
  {
  }

  lemma AdvancedFrom(
    s: State, s1: State, s': State, depth: int, pc1: Pc, pc': Pc, n: nat, events: seq<Event>)
    requires s.stack != [] && s1 == Advanced(s, depth, pc1, 0, [])
    requires s1.stack != [] && s' == Advanced(s1, depth, pc', n, events)
    ensures s' == Advanced(s, depth, pc', n, events)
  {
    AdvancedTwice(s, s1, s', depth, pc1, 0, [], depth, pc', n, events);
    AppendNothing(events);
  }

  /** Where an encoder call returns to. */
  function ReturnsTo(pc: Pc): Pc {
    match pc
    case Starting => Logging
    case Writing(from) => from
    case _ => Ended
  }

  function Closing(pc: Pc, id: nat): seq<Event> {
    if pc.Ending? then [Finish(id)] else []
  }

  /** One call of the encoder. */
  lemma EncoderCall(run: seq<Action>, s: State, id: nat, pc: Pc, pieces: seq<Piece>)
    returns (run': seq<Action>, s': State)
    requires Legal(run) && Exec(run) == s && s.stack != [] && InEncoder(pc) && Fit(pieces)
    requires Top(s).id == id && Top(s).pc == pc
    ensures Legal(run') && Exec(run') == s'
    ensures s' == Advanced(s, s.depth, ReturnsTo(pc), AllAccepted(pieces),
                           Chunks(id, PhaseOf(pc), pieces) + Closing(pc, id))
  {
    var n, chunks := AllAccepted(pieces), Chunks(id, PhaseOf(pc), pieces);
    var run1, s1 := EmitAll(run, s, id, pieces);
    KeepsPlace(s, s1, s.depth, pc, n, chunks);
    run', s' := OneMore(run1, s1, EncoderDone);
    DoneAdvances(s1, s');
    AdvancedTwice(s, s1, s', s.depth, pc, n, chunks, s.depth, ReturnsTo(pc), 0, Closing(pc, id));
  }

  lemma StartPart(run: seq<Action>, s: State, id: nat, pieces: seq<Piece>) returns (run': seq<Action>, s': State)
    requires Legal(run) && Exec(run) == s && s.stack != [] && Top(s).id == id && Top(s).pc.Starting? && s.depth == 1
    requires Fit(pieces)
    ensures Legal(run') && Exec(run') == s'
    ensures s' == Advanced(s, 1, Logging, AllAccepted(pieces), Chunks(id, StartPhase, pieces))
  {
    run', s' := EncoderCall(run, s, id, Starting, pieces);
    AppendNothing(Chunks(id, StartPhase, pieces));
  }

  lemma BodyPart(run: seq<Action>, s: State, id: nat, pieces: seq<Piece>) returns (run': seq<Action>, s': State)
    requires Legal(run) && Exec(run) == s && s.stack != [] && Top(s).id == id && Top(s).pc.Logging? && s.depth == 1
    requires Fit(pieces)
    ensures Legal(run') && Exec(run') == s'
    ensures s' == Advanced(s, 1, Logging, AllAccepted(pieces), Chunks(id, BodyPhase, pieces))
  {
    var run1, s1 := OneMore(run, s, CallWrite);
    CallAdvances(s, CallWrite, s1);
    KeepsPlace(s, s1, 1, Writing(Logging), 0, []);
    run', s' := EncoderCall(run1, s1, id, Writing(Logging), pieces);
    AppendNothing(Chunks(id, BodyPhase, pieces));
    AdvancedFrom(s, s1, s', 1, Writing(Logging), Logging, AllAccepted(pieces), Chunks(id, BodyPhase, pieces));
  }

  lemma EndPart(run: seq<Action>, s: State, id: nat, pieces: seq<Piece>) returns (run': seq<Action>, s': State)
    requires Legal(run) && Exec(run) == s && s.stack != [] && Top(s).id == id && Top(s).pc.Logging? && s.depth == 1
    requires Fit(pieces)
    ensures Legal(run') && Exec(run') == s'
    ensures s' == Advanced(s, 0, Ended, AllAccepted(pieces), Chunks(id, EndPhase, pieces) + [Finish(id)])
  {
    var run1, s1 := OneMore(run, s, Release);
    CallAdvances(s, Release, s1);
    KeepsPlace(s, s1, 0, Ending, 0, []);
    run', s' := EncoderCall(run1, s1, id, Ending, pieces);
    AdvancedFrom(s, s1, s', 0, Ending, Ended, AllAccepted(pieces), Chunks(id, EndPhase, pieces) + [Finish(id)]);
  }

  function Total(starts: seq<Piece>, bodies: seq<Piece>, ends: seq<Piece>): nat {
    AllAccepted(starts) + AllAccepted(bodies) + AllAccepted(ends)
  }

  /** The three parts of a frame, from `s` over `s1` and `s2` to `s'`. */
  predicate InParts(s: State, s1: State, s2: State, s': State, id: nat,
                    starts: seq<Piece>, bodies: seq<Piece>, ends: seq<Piece>)
  {
    && s.stack != [] && s1.stack != [] && s2.stack != []
    && s1 == Advanced(s, 1, Logging, AllAccepted(starts), Chunks(id, StartPhase, starts))
    && s2 == Advanced(s1, 1, Logging, AllAccepted(bodies), Chunks(id, BodyPhase, bodies))
    && s' == Advanced(s2, 0, Ended, AllAccepted(ends), Chunks(id, EndPhase, ends) + [Finish(id)])
  }

  lemma WriteFrame(run: seq<Action>, s: State, id: nat, starts: seq<Piece>, bodies: seq<Piece>, ends: seq<Piece>)
    returns (run': seq<Action>, s1: State, s2: State, s': State)
    requires Legal(run) && Exec(run) == s && s.stack != [] && Top(s).id == id && Top(s).pc.Starting? && s.depth == 1
    requires Fit(starts) && Fit(bodies) && Fit(ends)
    ensures Legal(run') && Exec(run') == s' && InParts(s, s1, s2, s', id, starts, bodies, ends)
  {
    var run1, run2;
    run1, s1 := StartPart(run, s, id, starts);
    KeepsPlace(s, s1, 1, Logging, AllAccepted(starts), Chunks(id, StartPhase, starts));
    run2, s2 := BodyPart(run1, s1, id, bodies);
    KeepsPlace(s1, s2, 1, Logging, AllAccepted(bodies), Chunks(id, BodyPhase, bodies));
    run', s' := EndPart(run2, s2, id, ends);
  }

  lemma FrameWritten(
    s: State, s1: State, s2: State, s': State,
    na: nat, a: seq<Event>, nb: nat, b: seq<Event>, ne: nat, e: seq<Event>)
    requires s.stack != [] && s1 == Advanced(s, 1, Logging, na, a)
    requires s1.stack != [] && s2 == Advanced(s1, 1, Logging, nb, b)
    requires s2.stack != [] && s' == Advanced(s2, 0, Ended, ne, e)
    ensures s' == Advanced(s, 0, Ended, na + nb + ne, a + b + e)
  {
    AdvancedTwice(s, s1, s2, 1, Logging, na, a, 1, Logging, nb, b);
    AdvancedTwice(s, s2, s', 1, Logging, na + nb, a + b, 0, Ended, ne, e);
  }

  /** Out of the critical section, and the consumer woken if it waits. */
  function Left(s: State): State
    requires s.stack != []
  {
    WithTop(s, Top(s).(pc := Outside))
    .(masked := s.csState, synced := Max(s.synced, Top(s).published),
      waker := false, woken := s.woken || s.waker)
  }

  lemma LeaveAndWake(run: seq<Action>, s: State) returns (run': seq<Action>, s': State)
    requires Legal(run) && Exec(run) == s && s.stack != [] && Top(s).pc.Ended?
    ensures Legal(run') && Exec(run') == s' == Left(s)
  {
    var run1, s1 := OneMore(run, s, LeaveCs);
    var run2, s2 := OneMore(run1, s1, TakeWaker);
    run', s' := OneMore(run2, s2, CallWaker);
  }

  /** The state after a whole log call. */
  function AfterCall(s: State, starts: seq<Piece>, bodies: seq<Piece>, ends: seq<Piece>): State
    requires s.stack != []
  {
    var top, published := Top(s), s.published + Total(starts, bodies, ends);
    var newest := if published > s.published then published else top.published;
    WithTop(s, top.(restore := s.masked, published := newest))
    .(csState := s.masked, published := published, synced := Max(s.synced, newest),
      events := s.events + Frame(top.id, starts, bodies, ends),
      waker := false, woken := s.woken || s.waker)
  }

  /** A whole log call that nobody disturbs, of any context that finds the depth
      at 0: it can be made in every such state, adds one complete frame, publishes
      what the ring accepts, leaves depth and interrupt mask as they were, and
      wakes the consumer if its waker is registered. */
  lemma WholeCall(run: seq<Action>, s: State, starts: seq<Piece>, bodies: seq<Piece>, ends: seq<Piece>)
    returns (run': seq<Action>)
    requires Legal(run) && s == Exec(run) && s.stack != [] && Top(s).pc.Outside? && s.depth == 0
    requires Fit(starts) && Fit(bodies) && Fit(ends)
    ensures Legal(run') && Exec(run') == AfterCall(s, starts, bodies, ends)
  {
    var run1, s1 := OpenFrame(run, s);
    var run2, s2, s3, s4 := WriteFrame(run1, s1, Top(s).id, starts, bodies, ends);
    var s5;
    run', s5 := LeaveAndWake(run2, s4);
    CallAsAWhole(s, s1, s2, s3, s4, s5, starts, bodies, ends);
  }

  lemma CallAsAWhole(
    s: State, s1: State, s2: State, s3: State, s4: State, s5: State,
    starts: seq<Piece>, bodies: seq<Piece>, ends: seq<Piece>)
    requires s.stack != [] && Top(s).pc.Outside? && s.depth == 0
    requires s1 == Opened(s) && InParts(s1, s2, s3, s4, Top(s).id, starts, bodies, ends) && s4.stack != []
    requires s5 == Left(s4)
    ensures s5 == AfterCall(s, starts, bodies, ends)
  {
    var id := Top(s).id;
    var a, b := Chunks(id, StartPhase, starts), Chunks(id, BodyPhase, bodies);
    var e := Chunks(id, EndPhase, ends) + [Finish(id)];
    var n := Total(starts, bodies, ends);
    FrameWritten(s1, s2, s3, s4, AllAccepted(starts), a, AllAccepted(bodies), b, AllAccepted(ends), e);
    FrameEvents(s.events, id, starts, bodies, ends);
    FromOpenToLeft(s, s4, n, a + b + e, s.events + Frame(id, starts, bodies, ends));
  }

  lemma FromOpenToLeft(s: State, s4: State, n: nat, frame: seq<Event>, events: seq<Event>)
    requires s.stack != [] && Top(s).pc.Outside? && s.depth == 0
    requires s4 == Advanced(Opened(s), 0, Ended, n, frame) && s4.stack != []
    requires s.events + [Begin(Top(s).id)] + frame == events
    ensures var published := s.published + n;
            var newest := if published > s.published then published else Top(s).published;
            Left(s4) == WithTop(s, Top(s).(restore := s.masked, published := newest))
                        .(csState := s.masked, published := published, synced := Max(s.synced, newest),
                          events := events, waker := false, woken := s.woken || s.waker)
  {
  }

  lemma FrameEvents(events: seq<Event>, id: nat, starts: seq<Piece>, bodies: seq<Piece>, ends: seq<Piece>)
    ensures events + [Begin(id)] +
            (Chunks(id, StartPhase, starts) + Chunks(id, BodyPhase, bodies)
             + (Chunks(id, EndPhase, ends) + [Finish(id)]))
         == events + Frame(id, starts, bodies, ends)
  {
  }

  lemma NestedSteps(s: State, s1: State)
    requires s.stack != [] && Top(s).pc.Outside? && s.depth > 0
    requires s1 == Next(s, Acquire)
    ensures s1 == WithTop(s, Top(s).(pc := Nested)).(depth := s.depth + 1)
    ensures s1.stack != [] && Enabled(s1, CallWrite) && Next(s1, CallWrite) == s1
    ensures Enabled(s1, Release) && Next(s1, Release) == s
  {
    assert WithTop(s1, Top(s1).(pc := Outside)).stack == s.stack;
  }

  /** A whole log call of a context that finds another one logging leaves no
      trace. */
  lemma WholeNestedCall(run: seq<Action>, s: State) returns (run': seq<Action>)
    requires Legal(run) && s == Exec(run) && s.stack != [] && Top(s).pc.Outside? && s.depth > 0
    ensures run' == run + [Acquire, CallWrite, Release] && Legal(run') && Exec(run') == s
  {
    var run1, s1 := OneMore(run, s, Acquire);
    NestedSteps(s, s1);
    var run2, s2 := OneMore(run1, s1, CallWrite);
    var s3;
    run', s3 := OneMore(run2, s2, Release);
  }

  /** A context that arrives and returns without doing anything changes nothing.
      One that can be masked arrives exactly while interrupts are not masked, so
      never while the encoder is in use. */
  lemma ArriveAndReturn(run: seq<Action>, s: State, a: Action)
    requires Legal(run) && s == Exec(run) && (a.Interrupt? || a.NonMaskable?)
    ensures s.stack != [] && (Enabled(s, a) <==> a.NonMaskable? || !s.masked)
    ensures InEncoder(Top(s).pc) ==> !Enabled(s, Interrupt)
    ensures Enabled(s, a) ==> Enabled(Next(s, a), Return)
    ensures Enabled(s, a) ==> Next(Next(s, a), Return) == s.(arrived := s.arrived + 1)
  {
    RunKeepsInv(run);
    assert Arrive(s).stack[..|s.stack|] == s.stack;
  }

  // ---------- the consumer's poll ----------

  /** What a poll answers: the task parks exactly if everything that its check saw
      published is released. So it parks if nothing is left, goes on only if
      something is there to release, and decides rightly if the check is up to
      date. */
  lemma PollAnswers(run: seq<Action>, s: State, seen: nat)
    requires Legal(run) && s == Exec(run) && Enabled(s, Check(seen))
    ensures var s' := Next(s, Check(seen));
            && (s'.task.Parked? <==> seen == s.released)
            && (s.released == s.published ==> s'.task.Parked?)
            && (!s'.task.Parked? ==> s.released < s.published && Enabled(s', Consume(1)))
            && (seen == s.published ==> (s'.task.Parked? <==> s.released == s.published))
  {
    RunKeepsWake(run);
  }

  /** The check may return an old count: any that was published when the waker was
      registered or later, unless an earlier load returned a newer one. */
  lemma {:induction false} OldCountCanBeChecked(run: seq<Action>, s: State, later: seq<Action>)
    requires Legal(run) && s == Exec(run) && s.task.Registered? && Legal(run + later)
    requires forall a | a in later :: OfLogCall(a) || a.SetMask? || a.Return? || a.Interrupt? || a.NonMaskable?
    ensures var s' := Exec(run + later);
            && s'.task.Registered? && s'.seen == s.seen && s.published <= s'.published
            && Enabled(s', Check(s.published)) && Enabled(s', Check(s'.published))
    decreases |later|
  {
    RunKeepsInv(run);
    RunKeepsWake(run);
    RunKeepsInv(run + later);
    if later == [] {
      assert run + later == run;
    } else {
      var n := |later| - 1;
      assert (run + later)[..|run + later| - 1] == run + later[..n];
      OldCountCanBeChecked(run, s, later[..n]);
      assert later[n] in later;
      CountOnlyGrows(Exec(run + later[..n]), later[n], Exec(run + later));
    }
  }

  predicate OnlyGrows(s: State, s': State) {
    s'.task == s.task && s'.seen == s.seen && s.published <= s'.published
  }

  lemma OwnerOnlyGrows(s: State, a: Action, s': State)
    requires Enabled(s, a) && OfOwner(a) && s' == Next(s, a)
    ensures OnlyGrows(s, s')
  {
    match a
    case EnterCs =>
    case SaveCs =>
    case Emit(_, _) =>
    case EncoderDone =>
    case LeaveCs =>
  }

  lemma CallerOnlyGrows(s: State, a: Action, s': State)
    requires Enabled(s, a) && OfCaller(a) && s' == Next(s, a)
    ensures OnlyGrows(s, s')
  {
    match a
    case Acquire =>
    case CallWrite =>
    case Release =>
    case TakeWaker =>
    case CallWaker =>
  }

  lemma CountOnlyGrows(s: State, a: Action, s': State)
    requires Enabled(s, a) && s' == Next(s, a)
    requires OfLogCall(a) || a.SetMask? || a.Return? || a.Interrupt? || a.NonMaskable?
    ensures OnlyGrows(s, s')
  {
    if OfOwner(a) {
      OwnerOnlyGrows(s, a, s');
    } else if OfCaller(a) {
      CallerOnlyGrows(s, a, s');
    }
  }

  /** The state once the consumer has released everything and parked. */
  function AfterDraining(s: State): State {
    s.(task := Parked, woken := false, waker := true, released := s.published, seen := s.published)
  }

  lemma PollOnce(run: seq<Action>, s: State) returns (run': seq<Action>, s': State)
    requires Legal(run) && Exec(run) == s
    ensures Legal(run') && Exec(run') == s'
    ensures s' == s.(task := if s.published == s.released then Parked else Running,
                     woken := false, waker := true, seen := s.published)
  {
    RunKeepsInv(run);
    RunKeepsWake(run);
    var run1, s1 := OneMore(run, s, StartPoll);
    var run2, s2 := OneMore(run1, s1, Register);
    run', s' := OneMore(run2, s2, Check(s.published));
  }

  /** Whatever the consumer was doing: polling, reading and polling again brings
      it to rest, with everything released and its waker registered. */
  lemma ConsumerComesToRest(run: seq<Action>, s: State) returns (run': seq<Action>)
    requires Legal(run) && s == Exec(run)
    ensures Legal(run') && Exec(run') == AfterDraining(s)
  {
    RunKeepsInv(run);
    RunKeepsWake(run);
    var run1, s1 := PollOnce(run, s);
    if s1.task.Parked? {
      run' := run1;
    } else {
      var run2, s2 := OneMore(run1, s1, Consume(s.published - s.released));
      var s3;
      run', s3 := PollOnce(run2, s2);
    }
  }

  /** The hypothesis of `NoLostWakeup` is met: the consumer parks on an empty
      queue, a context publishes a byte, and the wake-up is due. */
  lemma ParkedWhileWakeIsDue() returns (run: seq<Action>, s: State)
    ensures Legal(run) && Exec(run) == s
    ensures s.task.Parked? && s.released < s.published
    ensures !s.woken && !WakeIsComing(s) && WakeIsDue(s)
  {
    var run1 := ConsumerComesToRest([], Boot());
    var run2, s2 := OpenFrame(run1, Exec(run1));
    run, s := OneMore(run2, s2, Emit([7], 1));
    assert Owes(s.stack[0].pc) && s.stack[0].published == s.published;
  }

  // ---------- calls end ----------

  /** How many more steps the call of a context takes at most. */
  function StepsLeft(pc: Pc): nat {
    match pc
    case Outside => 0
    case Entered => 8
    case Masked => 7
    case Starting => 6
    case Logging => 5
    case Nested => 1
    case Writing(_) => 6
    case Ending => 4
    case Ended => 3
    case Waking => 2
    case Calling(_) => 1
  }

  /** Steps that end calls: nobody arrives, nobody begins to log, and the consumer
      does nothing. */
  predicate Ends(a: Action) {
    (OfLogCall(a) && !a.Acquire? && !a.Emit?) || a.SetMask? || a.Return?
  }

  predicate OnlyEnds(more: seq<Action>) {
    forall a | a in more :: Ends(a)
  }

  /** What such steps leave alone. */
  predicate SameConsumer(s: State, s': State) {
    s'.task == s.task && s'.released == s.released && s'.published == s.published
  }

  function NextEnd(pc: Pc): Action {
    match pc
    case Entered => EnterCs
    case Masked => SaveCs
    case Starting => EncoderDone
    case Writing(_) => EncoderDone
    case Ending => EncoderDone
    case Ended => LeaveCs
    case Waking => TakeWaker
    case Calling(_) => CallWaker
    case _ => Release
  }

  lemma OwnerAdvances(s: State, a: Action, s': State)
    requires Inv(s) && OfOwner(a) && a == NextEnd(Top(s).pc)
    requires Enabled(s, a) && s' == Next(s, a)
    ensures s'.stack != [] && StepsLeft(Top(s').pc) < StepsLeft(Top(s).pc) && SameConsumer(s, s')
  {
    DepthTells(s);
    if a.EncoderDone? {
      DoneAdvances(s, s');
    } else {
      match Top(s).pc
      case Entered =>
      case Masked =>
      case Ended =>
    }
  }

  lemma CallerAdvances(s: State, a: Action, s': State)
    requires Inv(s) && OfCaller(a) && a == NextEnd(Top(s).pc)
    requires Enabled(s, a) && s' == Next(s, a)
    ensures s'.stack != [] && StepsLeft(Top(s').pc) < StepsLeft(Top(s).pc) && SameConsumer(s, s')
  {
    DepthTells(s);
    match Top(s).pc
    case Logging =>
    case Nested =>
    case Waking =>
    case Calling(_) =>
  }

  lemma OneEnd(run: seq<Action>, more: seq<Action>, s: State, a: Action)
    returns (more': seq<Action>, s': State)
    requires OnlyEnds(more) && Legal(run + more) && Exec(run + more) == s && Enabled(s, a) && Ends(a)
    ensures OnlyEnds(more') && Legal(run + more') && Exec(run + more') == s' == Next(s, a)
  {
    var run';
    run', s' := OneMore(run + more, s, a);
    more' := more + [a];
    AppendAssociates(run, more, [a]);
  }

  /** The running context ends its call. */
  lemma {:induction false} TopEnds(run: seq<Action>, more: seq<Action>, s: State)
    returns (more': seq<Action>, s': State)
    requires OnlyEnds(more) && Legal(run + more) && Exec(run + more) == s && s.stack != []
    ensures OnlyEnds(more') && Legal(run + more') && Exec(run + more') == s'
    ensures |s'.stack| == |s.stack| && Top(s').pc.Outside? && SameConsumer(s, s')
    decreases StepsLeft(Top(s).pc)
  {
    if Top(s).pc.Outside? {
      more', s' := more, s;
    } else {
      RunKeepsInv(run + more);
      var a := NextEnd(Top(s).pc);
      var more1, s1 := OneEnd(run, more, s, a);
      if OfOwner(a) { OwnerAdvances(s, a, s1); } else { CallerAdvances(s, a, s1); }
      CallChangesTopOnly(s, a);
      more', s' := TopEnds(run, more1, s1);
    }
  }

  /** It then returns to the one below. */
  lemma TopReturns(run: seq<Action>, more: seq<Action>, s: State) returns (more': seq<Action>, s': State)
    requires OnlyEnds(more) && Legal(run + more) && Exec(run + more) == s
    requires |s.stack| > 1 && Top(s).pc.Outside?
    ensures OnlyEnds(more') && Legal(run + more') && Exec(run + more') == s'
    ensures |s'.stack| == |s.stack| - 1 && SameConsumer(s, s')
  {
    ReturnIsFree(s);
    var more1, s1 := OneEnd(run, more, s, SetMask(true));
    more', s' := OneEnd(run, more1, s1, Return);
  }

  lemma ReturnIsFree(s: State)
    requires |s.stack| > 1 && Top(s).pc.Outside?
    ensures Enabled(s, SetMask(true)) && Next(s, SetMask(true)) == s.(masked := true)
    ensures Enabled(s.(masked := true), Return)
    ensures Next(s.(masked := true), Return) == s.(masked := true, stack := s.stack[..|s.stack| - 1])
  {
  }

  lemma {:induction false} UnwindAll(run: seq<Action>, more: seq<Action>, s: State)
    returns (more': seq<Action>, s': State)
    requires OnlyEnds(more) && Legal(run + more) && Exec(run + more) == s && s.stack != []
    ensures OnlyEnds(more') && Legal(run + more') && Exec(run + more') == s'
    ensures |s'.stack| == 1 && Top(s').pc.Outside? && SameConsumer(s, s')
    decreases |s.stack|
  {
    var more1, s1 := TopEnds(run, more, s);
    if |s1.stack| == 1 {
      more', s' := more1, s1;
    } else {
      var more2, s2 := TopReturns(run, more1, s1);
      more', s' := UnwindAll(run, more2, s2);
    }
  }

  /** Wherever the contexts are, nested however deep: all their calls can end and
      all of them return, with steps of their own only. */
  lemma AllReturn(run: seq<Action>, s: State) returns (more: seq<Action>, s': State)
    requires Legal(run) && s == Exec(run)
    ensures OnlyEnds(more) && Legal(run + more) && Exec(run + more) == s'
    ensures |s'.stack| == 1 && Top(s').pc.Outside? && s'.depth == 0 && SameConsumer(s, s')
  {
    RunKeepsInv(run);
    assert run + [] == run;
    more, s' := UnwindAll(run, [], s);
    RunKeepsInv(run + more);
    assert s'.stack[..0] == [];
  }

  /** With nobody in a log call any more, a consumer parked on unreleased bytes
      has been woken. */
  lemma QuietMeansWoken(run: seq<Action>, s: State)
    requires Legal(run) && s == Exec(run) && forall c | c in s.stack :: c.pc.Outside?
    requires s.task.Parked? && s.released < s.published
    ensures s.woken
  {
    NoLostWakeup(run);
    forall i | 0 <= i < |s.stack|
      ensures s.stack[i].pc.Outside?
    {
      assert s.stack[i] in s.stack;
    }
  }

  /** The wake-up arrives: from every moment of every run at which the consumer is
      parked on unreleased bytes, ending the calls in progress wakes it. */
  lemma WakeupArrives(run: seq<Action>, s: State) returns (more: seq<Action>)
    requires Legal(run) && s == Exec(run)
    requires s.task.Parked? && s.released < s.published
    ensures OnlyEnds(more) && Legal(run + more)
    ensures Exec(run + more).task.Parked? && Exec(run + more).woken
  {
    var s';
    more, s' := AllReturn(run, s);
    assert s'.stack == [Top(s')];
    QuietMeansWoken(run + more, s');
  }
}
