/** The promises of the crate that follow for every run of the ring: plain FIFO
    across resets, durability once a call has returned, recovery that repeated
    resets cannot disturb, and grants the producer cannot touch. */
module RingConsequences {
  import opened Words
  import opened RingIndex
  import opened RingSpec
  import opened EccRam
  import opened RingMachine
  import opened RingInvariant
  import opened RingSteps
  import opened RingTheorems

  // ---------- plain FIFO ----------

  function AllPublished(c: Config, m: Mem, run: seq<Action>): seq<u8>
    requires 0 < c.len && Legal(c, Start(c, m), run)
  {
    if run == [] then []
    else
      var n := |run| - 1;
      AllPublished(c, m, run[..n]) + Published(Exec(c, Start(c, m), run[..n]), run[n])
  }

  function AllReleased(c: Config, m: Mem, run: seq<Action>): seq<u8>
    requires 0 < c.len && Legal(c, Start(c, m), run)
  {
    if run == [] then []
    else
      var n := |run| - 1;
      AllReleased(c, m, run[..n]) + Released(Exec(c, Start(c, m), run[..n]), run[n])
  }

  /** No reset of the run strikes between an index store and its flush. */
  predicate Undisturbed(c: Config, m: Mem, run: seq<Action>)
    requires 0 < c.len && Legal(c, Start(c, m), run)
  {
    run == [] ||
    var n := |run| - 1;
    var s := Exec(c, Start(c, m), run[..n]);
    && Undisturbed(c, m, run[..n])
    && (run[n].AReset? ==> !s.prod.PFlushIndex? && !s.cons.CFlush?)
  }

  /** Whole-run FIFO: for every interleaving, with a reset possible before every
      step, all bytes ever released followed by the queue are the initial queue
      followed by all bytes ever published. With a write cache this needs that
      no reset hits an unflushed index store; without one it needs nothing. */
  lemma {:induction false} FifoAcrossResets(c: Config, m: Mem, run: seq<Action>)
    requires ValidConfig(c) && AnyMemory(c, m) && Legal(c, Start(c, m), run)
    requires c.cache.NoCache? || Undisturbed(c, m, run)
    ensures AllReleased(c, m, run) + Content(c, Exec(c, Start(c, m), run))
         == RecoveredContent(c.magic, m) + AllPublished(c, m, run)
  {
    NothingUndone(c, m, run);
    RunConserves(c, m, run);
  }

  lemma ResetUndoesNothing(c: Config, s: State)
    requires ValidConfig(c) && Inv(c, s)
    requires c.cache.NoCache? || (!s.prod.PFlushIndex? && !s.cons.CFlush?)
    ensures Lost(s.ram, s.prod) == Redelivered(s.ram, s.cons) == []
  {
  }

  lemma {:induction false} NothingUndone(c: Config, m: Mem, run: seq<Action>)
    requires ValidConfig(c) && AnyMemory(c, m) && Legal(c, Start(c, m), run)
    requires c.cache.NoCache? || Undisturbed(c, m, run)
    ensures Delivered(c, m, run) == AllReleased(c, m, run)
    ensures Stream(c, m, run) == RecoveredContent(c.magic, m) + AllPublished(c, m, run)
    decreases |run|
  {
    if run == [] {
      AppendNothing(RecoveredContent(c.magic, m));
    } else {
      var n := |run| - 1;
      var s := Exec(c, Start(c, m), run[..n]);
      NothingUndone(c, m, run[..n]);
      RunKeepsInv(c, m, run[..n]);
      if run[n].AReset? {
        ResetUndoesNothing(c, s);
        WithoutNothing(Stream(c, m, run[..n]));
        WithoutNothing(Delivered(c, m, run[..n]));
        AppendNothing(AllPublished(c, m, run[..n]));
        AppendNothing(AllReleased(c, m, run[..n]));
      } else {
        AppendAssociates(RecoveredContent(c.magic, m), AllPublished(c, m, run[..n]), Published(s, run[n]));
      }
    }
  }

  /** The bytes of the open grant. */
  function Granted(s: State): seq<u8>
    requires GrantInBounds(s)
  {
    Slices(s).0 + Slices(s).1
  }

  /** Whatever has been delivered so far is a prefix of the stream, also together
      with any part of the open grant that was passed on but not released yet,
      and whatever the producer does in the meantime. */
  lemma DeliveredIsPrefix(c: Config, m: Mem, run: seq<Action>, s: State)
    requires ValidConfig(c) && AnyMemory(c, m) && Legal(c, Start(c, m), run)
    requires s == Exec(c, Start(c, m), run)
    ensures Delivered(c, m, run) <= Stream(c, m, run)
    ensures s.cons.CGranted? ==>
              && GrantInBounds(s)
              && forall n: nat | n <= |Granted(s)| :: Delivered(c, m, run) + Granted(s)[..n] <= Stream(c, m, run)
  {
    RunKeepsInv(c, m, run);
    RunConserves(c, m, run);
    if s.cons.CGranted? {
      GrantIsContent(c, s);
      forall n: nat | n <= |Granted(s)|
        ensures Delivered(c, m, run) + Granted(s)[..n] <= Stream(c, m, run)
      {
        FrontOfSum(Delivered(c, m, run), Content(c, s), Granted(s)[..n]);
      }
    }
  }

  /** A grant shows the front of the queue. */
  lemma GrantIsContent(c: Config, s: State)
    requires ValidConfig(c) && ServiceInv(c, s) && s.cons.CGranted?
    ensures GrantInBounds(s) && Granted(s) <= Content(c, s)
  {
    GrantShowsStream(c, s);
    ContentIsStream(c, s);
  }

  lemma FrontOfSum(a: seq<u8>, b: seq<u8>, front: seq<u8>)
    requires front <= b
    ensures a + front <= a + b
  {
  }

  // ---------- durability ----------

  /** Once no call is between its index store and its flush, a reset loses
      nothing and hands nothing back: what recovery finds is the queue. With a
      call in that window, only that call's own bytes can be affected. The
      header word that a fresh start leaves in the cache makes no difference. */
  lemma DurableOnReturn(c: Config, m: Mem, run: seq<Action>)
    requires ValidConfig(c) && AnyMemory(c, m) && Legal(c, Start(c, m), run)
    ensures var s := Exec(c, Start(c, m), run);
            && DurableContent(c, s) + Lost(s.ram, s.prod) == Redelivered(s.ram, s.cons) + Content(c, s)
            && (!s.prod.PFlushIndex? ==> DurableContent(c, s) == Redelivered(s.ram, s.cons) + Content(c, s))
            && (!s.cons.CFlush? ==> DurableContent(c, s) + Lost(s.ram, s.prod) == Content(c, s))
            && (!s.prod.PFlushIndex? && !s.cons.CFlush? ==> DurableContent(c, s) == Content(c, s))
  {
    RunKeepsInv(c, m, run);
    var s := Exec(c, Start(c, m), run);
    ResetConserves(c, s);
    AppendNothing(DurableContent(c, s));
    AppendNothing(Content(c, s));
  }

  predicate NoReset(run: seq<Action>) {
    forall a | a in run :: !a.AReset?
  }

  /** The store a step makes, if it makes one. */
  function StoreOf(c: Config, s: State, a: Action): Option<Store>
    requires Enabled(c, s, a) && InBounds(c, s, a) && 0 < c.len
  {
    match a
    case ABoot =>
      (match s.boot
       case BFixWrite(read) => Some(StoreWrite(AsU32(read)))
       case BFixRead(write) => Some(StoreRead(AsU32(write)))
       case BZeroRead(_) => Some(StoreRead(0))
       case BZeroWrite(_) => Some(StoreWrite(0))
       case BFlush(_) => Some(StoreFlush)
       case _ => None)
    case ABootHeader(i) => Some(StoreHeader(i, c.magic[i]))
    case ACopy(j) =>
      var job := s.prod.job;
      Some(StoreData(CopyCell(c.len, job.write, |job.bytes|, j), job.bytes[j]))
    case AStoreIndex => Some(StoreWrite(NewWrite(c.len, s.prod.job.write, |s.prod.job.bytes|)))
    case ARelease(used) =>
      Some(StoreRead(AsU32(NewRead(c.len, s.cons.read, Used(s, used), s.cons.len1))))
    case AFlushData => Some(StoreFlush)
    case AFlushIndex => Some(StoreFlush)
    case AFlushRelease => Some(StoreFlush)
    case _ => None
  }

  /** The memory side of a step: at most one store. */
  function NextRam(c: Config, s: State, a: Action): Ram
    requires Enabled(c, s, a) && InBounds(c, s, a) && 0 < c.len
  {
    if a.AReset? then LosePower(s.ram)
    else if a.ADrain? then Drain(s.ram)
    else
      match StoreOf(c, s, a)
      case Some(store) => Perform(c.cache, s.ram, store)
      case None => s.ram
  }

  lemma StepMakesOneStore(c: Config, s: State, a: Action)
    requires Enabled(c, s, a) && InBounds(c, s, a) && 0 < c.len
    ensures Next(c, s, a).ram == NextRam(c, s, a)
  {
  }

  predicate DurableFrom(ram: Ram, ram': Ram) {
    ram'.durable == ram.durable || ram'.durable == ram.visible || ram'.durable == ram'.visible
  }

  lemma PerformFromPast(c: Config, ram: Ram, store: Store)
    requires ValidConfig(c) && WriteBack(c.cache)
    ensures DurableFrom(ram, Perform(c.cache, ram, store))
  {
  }

  /** What is durable after a step was durable before it, or visible before or
      after it. */
  lemma NextDurable(c: Config, s: State, a: Action)
    requires ValidConfig(c) && WriteBack(c.cache) && Enabled(c, s, a) && InBounds(c, s, a)
    ensures DurableFrom(s.ram, NextRam(c, s, a))
  {
    if !a.AReset? && !a.ADrain? {
      match StoreOf(c, s, a) {
        case Some(store) => PerformFromPast(c, s.ram, store);
        case None =>
      }
    }
  }

  lemma NoResetSnoc(run: seq<Action>, j: nat)
    requires run != [] && j < |run| && !run[|run| - 1].AReset? && NoReset(run[..|run| - 1][j..])
    ensures run[..|run| - 1][..j] == run[..j] && NoReset(run[j..])
  {
    assert run[j..] == run[..|run| - 1][j..] + [run[|run| - 1]];
  }

  /** With a write-back cache, durable memory is always the memory image of an
      earlier moment since the last power-on. */
  lemma {:induction false} DurableWasVisible(c: Config, m: Mem, run: seq<Action>) returns (j: nat)
    requires ValidConfig(c) && WriteBack(c.cache) && Legal(c, Start(c, m), run)
    ensures j <= |run| && Legal(c, Start(c, m), run[..j]) && NoReset(run[j..])
    ensures Exec(c, Start(c, m), run).ram.durable == Exec(c, Start(c, m), run[..j]).ram.visible
    decreases |run|
  {
    assert run[..|run|] == run;
    j := |run|;
    if run != [] {
      var n := |run| - 1;
      var s := Exec(c, Start(c, m), run[..n]);
      StepMakesOneStore(c, s, run[n]);
      NextDurable(c, s, run[n]);
      var ram' := NextRam(c, s, run[n]);
      if ram'.durable != ram'.visible && ram'.durable == s.ram.visible {
        j := n;
      } else if ram'.durable != ram'.visible {
        j := DurableWasVisible(c, m, run[..n]);
        NoResetSnoc(run, j);
      }
    }
  }

  lemma IndicesAreDurable(c: Config, s: State)
    requires ValidConfig(c) && Agree(c, s.ram) && !WriteBack(c.cache)
    ensures Lost(s.ram, s.prod) == Redelivered(s.ram, s.cons) == []
  {
  }

  /** With every kind of cache, a reset leaves a queue that the run really had
      since the last power-on. */
  lemma RecoveredQueueWasReal(c: Config, m: Mem, run: seq<Action>) returns (j: nat)
    requires ValidConfig(c) && AnyMemory(c, m) && Legal(c, Start(c, m), run)
    ensures j <= |run| && Legal(c, Start(c, m), run[..j]) && NoReset(run[j..])
    ensures DurableContent(c, Exec(c, Start(c, m), run)) == Content(c, Exec(c, Start(c, m), run[..j]))
  {
    if WriteBack(c.cache) {
      j := DurableWasVisible(c, m, run);
    } else {
      j := |run|;
      assert run[..j] == run;
      RunKeepsInv(c, m, run);
      var s := Exec(c, Start(c, m), run);
      ResetConserves(c, s);
      IndicesAreDurable(c, s);
      assert DurableContent(c, s) + [] == DurableContent(c, s);
    }
  }

  // ---------- recovery ----------

  predicate OnlyRecovery(run: seq<Action>) {
    forall a | a in run :: a.ABoot? || a.ABootHeader? || a.ADrain? || a.AReset?
  }

  predicate Undisturbable(c: Config, s: State, target: Mem) {
    && RecoverImage(c.magic, s.ram.visible) == target
    && RecoverImage(c.magic, s.ram.durable) == target
    && (s.boot.BDone? ==> s.ram.visible == target)
    && (!s.boot.BDone? ==> s.target == target)
  }

  lemma RecoveryStepIsHarmless(c: Config, s: State, a: Action, target: Mem)
    requires ValidConfig(c) && Inv(c, s) && Enabled(c, s, a) && InBounds(c, s, a)
    requires a.ABoot? || a.ABootHeader? || a.ADrain? || a.AReset?
    requires Undisturbable(c, s, target)
    ensures Undisturbable(c, Next(c, s, a), target)
  {
    if a.ABoot? || a.ABootHeader? {
      BootStepKeepsTarget(c, s, a);
      StepKeepsInv(c, s, a);
      var s' := Next(c, s, a);
      if s'.boot.BDone? {
        IndicesInBuffer(c, s');
        RecoverImageIsQueue(c.magic, s'.ram.visible);
      }
    }
  }

  /** Recovery is atomic: from any memory image, however often it is cut short
      by a reset and whatever part of its stores was lost, a completed recovery
      leaves exactly the image that an undisturbed one leaves, and no image in
      between promises a queue with other content. */
  lemma {:induction false} RecoveryIsAtomic(c: Config, m: Mem, run: seq<Action>)
    requires ValidConfig(c) && AnyMemory(c, m) && Legal(c, Start(c, m), run) && OnlyRecovery(run)
    ensures var s := Exec(c, Start(c, m), run);
            && Undisturbable(c, s, RecoverImage(c.magic, m))
            && Content(c, s) == DurableContent(c, s) == RecoveredContent(c.magic, m)
    decreases |run|
  {
    if run != [] {
      var n := |run| - 1;
      RecoveryIsAtomic(c, m, run[..n]);
      RunKeepsInv(c, m, run[..n]);
      RecoveryStepIsHarmless(c, Exec(c, Start(c, m), run[..n]), run[n], RecoverImage(c.magic, m));
      RunKeepsInv(c, m, run);
    }
    var s := Exec(c, Start(c, m), run);
    RecoverImageIsQueue(c.magic, m);
    RecoverImageIsQueue(c.magic, s.ram.visible);
    RecoverImageIsQueue(c.magic, s.ram.durable);
  }

  /** How many more steps recovery takes at most. */
  function StepsLeft(boot: Boot): nat {
    match boot
    case BCheck => 9
    case BLoadWrite => 8
    case BLoadRead(_) => 7
    case BFixWrite(_) => 6
    case BFixRead(_) => 6
    case BZeroRead(anew) => if anew then 7 else 6
    case BZeroWrite(anew) => if anew then 6 else 5
    case BFlush(anew) => if anew then 5 else 1
    case BHeader(left) => |left|
    case BDone => 0
  }

  lemma ExecSnoc(c: Config, s: State, run: seq<Action>, a: Action)
    requires 0 < c.len && Legal(c, s, run)
    requires Enabled(c, Exec(c, s, run), a) && InBounds(c, Exec(c, s, run), a)
    ensures Legal(c, s, run + [a]) && Exec(c, s, run + [a]) == Next(c, Exec(c, s, run), a)
  {
    assert (run + [a])[..|run|] == run;
  }

  lemma RecoveryAdvances(c: Config, s: State) returns (a: Action)
    requires ValidConfig(c) && Inv(c, s) && !s.boot.BDone?
    ensures Enabled(c, s, a) && InBounds(c, s, a) && (a.ABoot? || a.ABootHeader?)
    ensures StepsLeft(Next(c, s, a).boot) < StepsLeft(s.boot)
  {
    if s.boot.BHeader? {
      var i :| i in s.boot.left;
      a := ABootHeader(i);
      assert |s.boot.left - {i}| < |s.boot.left|;
    } else {
      a := ABoot;
    }
  }

  /** Left alone, recovery completes within nine steps wherever it stands. */
  lemma {:induction false} RecoveryCompletes(c: Config, m: Mem, run: seq<Action>) returns (more: seq<Action>)
    requires ValidConfig(c) && AnyMemory(c, m) && Legal(c, Start(c, m), run)
    ensures OnlyRecovery(more) && NoReset(more)
    ensures |more| <= StepsLeft(Exec(c, Start(c, m), run).boot) <= 9
    ensures Legal(c, Start(c, m), run + more) && Exec(c, Start(c, m), run + more).boot.BDone?
    decreases StepsLeft(Exec(c, Start(c, m), run).boot)
  {
    var s := Exec(c, Start(c, m), run);
    RunKeepsInv(c, m, run);
    if s.boot.BDone? {
      more := [];
      assert run + [] == run;
    } else {
      AtMostFourHeaderWords(c, s);
      var a := RecoveryAdvances(c, s);
      ExecSnoc(c, Start(c, m), run, a);
      var rest := RecoveryCompletes(c, m, run + [a]);
      more := [a] + rest;
      AppendAssociates(run, [a], rest);
    }
  }

  lemma AtMostFourHeaderWords(c: Config, s: State)
    requires ValidConfig(c) && Inv(c, s)
    ensures StepsLeft(s.boot) <= 9
  {
    if !s.boot.BDone? && s.boot.BHeader? {
      SubsetIsSmaller(s.boot.left, {0, 1, 2, 3});
    }
  }

  lemma {:induction false} SubsetIsSmaller(a: set<nat>, b: set<nat>)
    requires a <= b
    ensures |a| <= |b|
  {
    if a != {} {
      var x :| x in a;
      SubsetIsSmaller(a - {x}, b - {x});
    }
  }

  // ---------- grants ----------

  predicate OfConsumer(a: Action) {
    a.ACallIsEmpty? || a.ACompare? || a.ACallRead? || a.ALoadRead? || a.ARelease? || a.ADropGrant? || a.AFlushRelease?
  }

  /** The producer copies only to cells that hold no unreleased byte, even when
      the read index it loaded is an old one. */
  lemma CopyAvoidsUnreleased(c: Config, m: Mem, run: seq<Action>, j: nat, p: nat)
    requires ValidConfig(c) && AnyMemory(c, m) && Legal(c, Start(c, m), run)
    requires Enabled(c, Exec(c, Start(c, m), run), ACopy(j))
    requires Exec(c, Start(c, m), run).counters.read <= p < |Exec(c, Start(c, m), run).counters.hist|
    ensures var job := Exec(c, Start(c, m), run).prod.job;
            CopyCell(c.len, job.write, |job.bytes|, j) != Cell(c.len, p)
  {
    RunKeepsInv(c, m, run);
    var s := Exec(c, Start(c, m), run);
    CopyTarget(c, s.prod.job, s.ram.visible, s.counters, j);
  }

  /** `is_empty` compares indices but decides on counters: it says that the queue
      is empty exactly when everything that it saw published is released, so it
      never takes a full ring for an empty one, and when it says that there is
      something, there is. */
  lemma IsEmptyDecides(c: Config, m: Mem, run: seq<Action>)
    requires ValidConfig(c) && AnyMemory(c, m) && Legal(c, Start(c, m), run)
    requires Enabled(c, Exec(c, Start(c, m), run), ACompare)
    ensures var s := Exec(c, Start(c, m), run);
            && (Answer(c, s) <==> s.cons.seen == s.counters.read)
            && (!Answer(c, s) ==> Content(c, s) != [])
  {
    var s := Exec(c, Start(c, m), run);
    RunKeepsInv(c, m, run);
    ContentIsStream(c, s);
    QueueLenOfCounters(c.len, s.counters.read, s.cons.seen);
  }

  lemma StepKeepsGrant(c: Config, s: State, a: Action)
    requires ValidConfig(c) && Inv(c, s) && s.boot.BDone? && s.cons.CGranted?
    requires Enabled(c, s, a) && InBounds(c, s, a) && !OfConsumer(a) && !a.AReset?
    ensures GrantInBounds(s) && Next(c, s, a).cons == s.cons && Next(c, s, a).boot.BDone?
    ensures GrantInBounds(Next(c, s, a)) && Slices(Next(c, s, a)) == Slices(s)
  {
    var s' := Next(c, s, a);
    StepKeepsInv(c, s, a);
    StepMovesCounters(c, s, a);
    assert s'.cons == s.cons && s'.counters.writeSeen == s.counters.writeSeen;
    GrantShowsStream(c, s);
    GrantShowsStream(c, s');
    SameSlices(Slices(s).0, Slices(s).1, Slices(s').0, Slices(s').1, s.counters, s'.counters);
  }

  lemma SameSlices(a1: seq<u8>, a2: seq<u8>, b1: seq<u8>, b2: seq<u8>, k: Counters, k': Counters)
    requires |a1| == |b1| && |a2| == |b2|
    requires k.read == k'.read <= k.writeSeen == k'.writeSeen <= |k.hist| && k.hist <= k'.hist
    requires a1 + a2 == k.hist[k.read..k.writeSeen] && b1 + b2 == k'.hist[k'.read..k'.writeSeen]
    ensures a1 == b1 && a2 == b2
  {
    assert a1 + a2 == b1 + b2;
    assert a1 == (a1 + a2)[..|a1|] && b1 == (b1 + b2)[..|b1|];
    assert a2 == (a1 + a2)[|a1|..] && b2 == (b1 + b2)[|b1|..];
  }

  lemma {:induction false} GrantOutlasts(c: Config, s: State, more: seq<Action>)
    requires ValidConfig(c) && Inv(c, s) && s.boot.BDone? && s.cons.CGranted? && Legal(c, s, more)
    requires forall a | a in more :: !OfConsumer(a) && !a.AReset?
    ensures var s' := Exec(c, s, more);
            && Inv(c, s') && s'.boot.BDone? && s'.cons == s.cons
            && GrantInBounds(s) && GrantInBounds(s') && Slices(s') == Slices(s)
    decreases |more|
  {
    if more == [] {
      GrantShowsStream(c, s);
    } else {
      var n := |more| - 1;
      GrantOutlasts(c, s, more[..n]);
      StepKeepsGrant(c, Exec(c, s, more[..n]), more[n]);
      StepKeepsInv(c, Exec(c, s, more[..n]), more[n]);
    }
  }

  /** Grant stability: until the consumer itself moves on, no interleaving of
      other steps changes a byte of either slice. */
  lemma GrantIsStable(c: Config, m: Mem, run: seq<Action>, more: seq<Action>)
    requires ValidConfig(c) && AnyMemory(c, m) && Legal(c, Start(c, m), run)
    requires Legal(c, Start(c, m), run + more) && NoReset(more)
    requires forall a | a in more :: !OfConsumer(a)
    requires Exec(c, Start(c, m), run).boot.BDone? && Exec(c, Start(c, m), run).cons.CGranted?
    ensures var s, s' := Exec(c, Start(c, m), run), Exec(c, Start(c, m), run + more);
            && s'.boot.BDone? && s'.cons == s.cons
            && GrantInBounds(s) && GrantInBounds(s') && Slices(s') == Slices(s)
  {
    RunKeepsInv(c, m, run);
    RunGoesOn(c, Start(c, m), run, more);
    GrantOutlasts(c, Exec(c, Start(c, m), run), more);
  }

  // ---------- the recovered length ----------

  /** What the last power-on found. */
  function LastRecovered(c: Config, m: Mem, run: seq<Action>): seq<u8>
    requires 0 < c.len && Legal(c, Start(c, m), run)
  {
    if run == [] then RecoveredContent(c.magic, m)
    else
      var n := |run| - 1;
      if run[n].AReset? then DurableContent(c, Exec(c, Start(c, m), run[..n]))
      else LastRecovered(c, m, run[..n])
  }

  /** What was published since. */
  function PublishedSince(c: Config, m: Mem, run: seq<Action>): seq<u8>
    requires 0 < c.len && Legal(c, Start(c, m), run)
  {
    if run == [] then []
    else
      var n := |run| - 1;
      if run[n].AReset? then []
      else PublishedSince(c, m, run[..n]) + Published(Exec(c, Start(c, m), run[..n]), run[n])
  }

  predicate EpochInv(c: Config, s: State, recovered: seq<u8>, published: seq<u8>) {
    if s.boot.BDone? then
      var k := s.counters;
      && k.first <= k.recovered <= |k.hist|
      && k.hist[k.first..k.recovered] == recovered
      && k.hist[k.recovered..] == published
    else
      Content(c, s) == recovered && published == []
  }

  lemma EpochGrows(k: Counters, k': Counters, published: seq<u8>)
    requires k.first == k'.first <= k.recovered == k'.recovered <= |k.hist|
    requires k'.hist == k.hist + published
    ensures k'.hist[k'.first..k'.recovered] == k.hist[k.first..k.recovered]
    ensures k'.hist[k'.recovered..] == k.hist[k.recovered..] + published
  {
  }

  lemma StepKeepsEpoch(c: Config, s: State, a: Action, recovered: seq<u8>, published: seq<u8>)
    requires ValidConfig(c) && Inv(c, s) && Enabled(c, s, a) && InBounds(c, s, a) && !a.AReset?
    requires EpochInv(c, s, recovered, published)
    ensures EpochInv(c, Next(c, s, a), recovered, published + Published(s, a))
  {
    if s.boot.BDone? {
      StepMovesCounters(c, s, a);
      EpochGrows(s.counters, Next(c, s, a).counters, Published(s, a));
    } else {
      BootStepKeepsContent(c, s, a);
      AppendNothing(published);
      if Next(c, s, a).boot.BDone? {
        EntersWithContent(c, s, a);
      }
    }
  }

  lemma EntersWithContent(c: Config, s: State, a: Action)
    requires ValidConfig(c) && !s.boot.BDone? && Enabled(c, s, a) && InBounds(c, s, a)
    requires Next(c, s, a).boot.BDone?
    ensures var s' := Next(c, s, a);
            && s'.counters.first <= s'.counters.recovered == |s'.counters.hist|
            && s'.counters.hist[s'.counters.first..s'.counters.recovered] == Content(c, s')
            && s'.counters.hist[s'.counters.recovered..] == []
  {
    var s' := Next(c, s, a);
    BehindZeros(s'.ram.visible.read, Content(c, s'), s'.counters.hist);
  }

  lemma BehindZeros(n: nat, content: seq<u8>, hist: seq<u8>)
    requires hist == Zeros(n) + content
    ensures n <= |hist| && hist[n..|hist|] == content && hist[|hist|..] == []
  {
  }

  lemma {:induction false} RunKeepsEpoch(c: Config, m: Mem, run: seq<Action>)
    requires ValidConfig(c) && AnyMemory(c, m) && Legal(c, Start(c, m), run)
    ensures EpochInv(c, Exec(c, Start(c, m), run), LastRecovered(c, m, run), PublishedSince(c, m, run))
    decreases |run|
  {
    if run != [] {
      var n := |run| - 1;
      RunKeepsEpoch(c, m, run[..n]);
      RunKeepsInv(c, m, run[..n]);
      if !run[n].AReset? {
        StepKeepsEpoch(c, Exec(c, Start(c, m), run[..n]), run[n],
                       LastRecovered(c, m, run[..n]), PublishedSince(c, m, run[..n]));
      }
    }
  }

  lemma SampledLength(k: Counters, recovered: seq<u8>, published: seq<u8>)
    requires k.first == k.read <= k.recovered <= k.writeSeen <= |k.hist|
    requires k.hist[k.first..k.recovered] == recovered && k.hist[k.recovered..] == published
    ensures var queue, length := k.hist[k.read..], k.writeSeen - k.read;
            && queue == recovered + published
            && |recovered| <= length <= |queue|
            && EndsWith(published, queue[length..])
            && (published == [] ==> length == |recovered|)
  {
  }

  /** Recovered-length soundness: until the consumer releases anything, the queue
      is what recovery found followed by what this run published, and a grant
      covers at least the recovered part, also when the write index it saw is an
      old one. So every byte past the length of that grant is from this run; and
      if nothing was published yet, the length is exactly the recovered one. */
  lemma GrantCoversRecovered(c: Config, m: Mem, run: seq<Action>)
    requires ValidConfig(c) && AnyMemory(c, m) && Legal(c, Start(c, m), run)
    requires Exec(c, Start(c, m), run).boot.BDone? && Exec(c, Start(c, m), run).cons.CGranted?
    requires Exec(c, Start(c, m), run).counters.read == Exec(c, Start(c, m), run).counters.first
    ensures var s := Exec(c, Start(c, m), run);
            var length := s.cons.len1 + s.cons.len2;
            && Content(c, s) == LastRecovered(c, m, run) + PublishedSince(c, m, run)
            && |LastRecovered(c, m, run)| <= length <= |Content(c, s)|
            && EndsWith(PublishedSince(c, m, run), Content(c, s)[length..])
            && (PublishedSince(c, m, run) == [] ==> length == |LastRecovered(c, m, run)|)
  {
    var s := Exec(c, Start(c, m), run);
    RunKeepsInv(c, m, run);
    RunKeepsEpoch(c, m, run);
    ContentIsStream(c, s);
    GrantShowsStream(c, s);
    SampledLength(s.counters, LastRecovered(c, m, run), PublishedSince(c, m, run));
  }
}
