/** Logging contexts on one core, as a step system.

    Contexts nest: an arriving context runs until it returns, and only then does
    the one below it go on. Maskable interrupts arrive only while they are not
    masked; faults, NMIs and panics arrive at any time. Every context may log,
    and every step of a log call is a step here. Beside the contexts, a consumer
    task registers its waker, checks the queue and parks.

    The ring is seen only through two counters: how much was published and how
    much was released. */
module LogMachine {
  import opened Words

  /** Where a context is.
      - `Entered`: raised the depth from 0, not yet in the critical section
      - `Masked`: in the critical section, its restore state not yet saved
      - `Starting`, `Writing`, `Ending`: inside an encoder call
      - `Logging`: between `acquire` and `release`, after raising the depth from 0
      - `Nested`: the same, after raising it from more
      - `Ended`: the frame is closed, the critical section not yet released
      - `Waking`, `Calling`: before and after taking the waker */
  datatype Pc =
    | Outside
    | Entered
    | Masked
    | Starting
    | Logging
    | Nested
    | Writing(from: Pc)
    | Ending
    | Ended
    | Waking
    | Calling(taken: bool)

  /** `maskedBefore`: the interrupt mask when the context arrived. `restore`: the
      state it got from entering the critical section. `published`: how much was
      published when it last published something. */
  datatype Context = Context(id: nat, pc: Pc, maskedBefore: bool, restore: bool, published: nat)

  /** The calls of the encoder and the chunks it passes on. */
  datatype Phase = StartPhase | BodyPhase | EndPhase
  datatype Event =
    | Begin(owner: nat)
    | Chunk(owner: nat, phase: Phase, bytes: seq<u8>)
    | Finish(owner: nat)

  /** Where the consumer task is. */
  datatype Task = Running | Polling | Registered | Parked

  /** `synced` is the newest publication that a taker of the waker knew of: a
      consumer that registers later knows of it too. `seen` is the newest count
      that the consumer has loaded, at its check or when it read since. */
  datatype State = State(
    depth: int, masked: bool, csState: bool, stack: seq<Context>, arrived: nat,
    events: seq<Event>,
    published: nat, synced: nat, waker: bool,
    task: Task, woken: bool, released: nat, seen: nat)

  function Boot(): State {
    State(0, false, false, [Context(0, Outside, false, false, 0)], 1, [], 0, 0, false,
          Running, false, 0, 0)
  }

  datatype Action =
    // the running context
    | Acquire
    | EnterCs
    | SaveCs
    | Emit(bytes: seq<u8>, accepted: nat)
    | EncoderDone
    | CallWrite
    | Release
    | LeaveCs
    | TakeWaker
    | CallWaker
    | SetMask(masked: bool)
    | Return
    // the hardware
    | Interrupt
    | NonMaskable
    // the consumer task
    | StartPoll
    | Register
    | Check(seen: nat)
    | Consume(n: nat)

  /** The context that runs. */
  function Top(s: State): Context
    requires s.stack != []
  {
    s.stack[|s.stack| - 1]
  }

  function WithTop(s: State, top: Context): State
    requires s.stack != []
  {
    s.(stack := s.stack[|s.stack| - 1 := top])
  }

  predicate InEncoder(pc: Pc) {
    pc.Starting? || pc.Writing? || pc.Ending?
  }

  predicate Enabled(s: State, a: Action) {
    s.stack != [] &&
    var pc := Top(s).pc;
    match a
    case Acquire => pc.Outside?
    case EnterCs => pc.Entered?
    case SaveCs => pc.Masked?
    case Emit(bytes, accepted) => InEncoder(pc) && accepted <= |bytes|
    case EncoderDone => InEncoder(pc)
    case CallWrite => pc.Logging? || pc.Nested?
    case Release => pc.Logging? || pc.Nested?
    case LeaveCs => pc.Ended?
    case TakeWaker => pc.Waking?
    case CallWaker => pc.Calling?
    case SetMask(_) => pc.Outside?
    case Return => pc.Outside? && |s.stack| > 1 && (Top(s).maskedBefore ==> s.masked)
    case Interrupt => !s.masked
    case NonMaskable => true
    case StartPoll => true
    case Register => s.task.Polling?
    case Check(seen) => s.task.Registered? && s.seen <= seen <= s.published
    case Consume(n) => s.task.Running? && s.released + n <= s.published
  }

  function PhaseOf(pc: Pc): Phase {
    if pc.Starting? then StartPhase else if pc.Ending? then EndPhase else BodyPhase
  }

  function Arrive(s: State): State {
    s.(stack := s.stack + [Context(s.arrived, Outside, s.masked, false, 0)], arrived := s.arrived + 1)
  }

  function Next(s: State, a: Action): State
    requires Enabled(s, a)
  {
    var top := Top(s);
    match a
    case Acquire =>
      if s.depth > 0 then WithTop(s, top.(pc := Nested)).(depth := s.depth + 1)
      else WithTop(s, top.(pc := Entered)).(depth := s.depth + 1)
    case EnterCs => WithTop(s, top.(pc := Masked, restore := s.masked)).(masked := true)
    case SaveCs =>
      WithTop(s, top.(pc := Starting)).(csState := top.restore, events := s.events + [Begin(top.id)])
    case Emit(bytes, accepted) =>
      var s' := s.(events := s.events + [Chunk(top.id, PhaseOf(top.pc), bytes)],
                   published := s.published + accepted);
      if accepted > 0 then WithTop(s', top.(published := s'.published)) else s'
    case EncoderDone =>
      (match top.pc
       case Starting => WithTop(s, top.(pc := Logging))
       case Writing(from) => WithTop(s, top.(pc := from))
       case _ => WithTop(s, top.(pc := Ended)).(events := s.events + [Finish(top.id)]))
    case CallWrite =>
      if s.depth != 1 then s else WithTop(s, top.(pc := Writing(top.pc)))
    case Release =>
      if s.depth != 1 then WithTop(s, top.(pc := Outside)).(depth := s.depth - 1)
      else WithTop(s, top.(pc := Ending)).(depth := s.depth - 1)
    case LeaveCs => WithTop(s, top.(pc := Waking)).(masked := s.csState)
    case TakeWaker =>
      WithTop(s, top.(pc := Calling(s.waker))).(waker := false, synced := Max(s.synced, top.published))
    case CallWaker => WithTop(s, top.(pc := Outside)).(woken := s.woken || top.pc.taken)
    case SetMask(masked) => s.(masked := masked)
    case Return => s.(stack := s.stack[..|s.stack| - 1])
    case Interrupt => Arrive(s)
    case NonMaskable => Arrive(s)
    case StartPoll => s.(task := Polling, woken := false)
    case Register => s.(task := Registered, waker := true, seen := Max(s.seen, s.synced))
    case Check(seen) => s.(task := if seen == s.released then Parked else Running, seen := seen)
    case Consume(n) => s.(released := s.released + n, seen := Max(s.seen, s.released + n))
  }

  // ---------- runs ----------

  function Exec(run: seq<Action>): State
    requires Legal(run)
    decreases |run|, 1
  {
    if run == [] then Boot() else Next(Exec(run[..|run| - 1]), run[|run| - 1])
  }

  predicate Legal(run: seq<Action>)
    decreases |run|, 0
  {
    run == [] || (Legal(run[..|run| - 1]) && Enabled(Exec(run[..|run| - 1]), run[|run| - 1]))
  }

  // ---------- ownership ----------

  /** The context uses the encoder and the saved critical-section state. */
  predicate Owning(pc: Pc) {
    pc.Entered? || pc.Masked? || pc.Starting? || pc.Logging? || pc.Writing? || pc.Ending? || pc.Ended?
  }

  /** The depth is lowered already, but the frame is not closed or the critical
      section is not left yet. */
  predicate InWindow(pc: Pc) {
    pc.Ending? || pc.Ended?
  }

  predicate WindowOpen(s: State) {
    exists i :: 0 <= i < |s.stack| && InWindow(s.stack[i].pc)
  }

  /** No context starts to log while another one is in the window. */
  predicate QuietWindow(run: seq<Action>)
    requires Legal(run)
  {
    run == [] ||
    (&& QuietWindow(run[..|run| - 1])
     && (run[|run| - 1].Acquire? ==> !WindowOpen(Exec(run[..|run| - 1]))))
  }

  /** No two contexts own the encoder. */
  predicate Exclusive(s: State) {
    forall i, j :: 0 <= i < j < |s.stack| ==> !(Owning(s.stack[i].pc) && Owning(s.stack[j].pc))
  }

  predicate AlwaysExclusive(run: seq<Action>)
    requires Legal(run)
  {
    (run == [] || AlwaysExclusive(run[..|run| - 1])) && Exclusive(Exec(run))
  }

  // ---------- frames ----------

  /** Some context is closing its frame. */
  predicate FrameClosing(s: State) {
    exists i :: 0 <= i < |s.stack| && s.stack[i].pc.Ending?
  }

  /** No context begins a frame while another one is closing its own. */
  predicate BeginsApart(run: seq<Action>)
    requires Legal(run)
  {
    run == [] ||
    (&& BeginsApart(run[..|run| - 1])
     && (run[|run| - 1].SaveCs? ==> !FrameClosing(Exec(run[..|run| - 1]))))
  }

  // ---------- the saved interrupt state ----------

  /** The context has saved its interrupt state and still needs it. */
  predicate Saved(pc: Pc) {
    pc.Starting? || pc.Logging? || pc.Writing? || pc.Ending? || pc.Ended?
  }

  /** Every context that still needs its interrupt state finds it saved. */
  predicate StatesKept(s: State) {
    forall i :: 0 <= i < |s.stack| && Saved(s.stack[i].pc) ==> s.stack[i].restore == s.csState
  }

  predicate AlwaysKept(run: seq<Action>)
    requires Legal(run)
  {
    (run == [] || AlwaysKept(run[..|run| - 1])) && StatesKept(Exec(run))
  }

  /** Whether each context in the window found the same interrupt state as the
      running one. */
  predicate SameStateInWindow(s: State)
    requires s.stack != []
  {
    forall i :: 0 <= i < |s.stack| && InWindow(s.stack[i].pc) ==> s.stack[i].restore == Top(s).restore
  }

  /** No context saves another interrupt state than one in the window found. */
  predicate SavesAgree(run: seq<Action>)
    requires Legal(run)
  {
    run == [] ||
    (&& SavesAgree(run[..|run| - 1])
     && (run[|run| - 1].SaveCs? ==> SameStateInWindow(Exec(run[..|run| - 1]))))
  }
}
