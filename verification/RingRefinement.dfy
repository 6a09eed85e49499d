/** The step system refines the calls: when nobody else moves, the steps of one
    `write` or `release` arrive at the image that the methods of `RingBuffers`
    are proved to compute. (`RingConsequences.RecoveryIsAtomic` says the same of
    recovery, even with resets in between.) */
module RingRefinement {
  import opened Words
  import opened RingIndex
  import opened RingSpec
  import opened EccRam
  import opened RingMachine
  import opened RingInvariant
  import RingSteps
  import opened RingTheorems

  /** The image once the accepted bytes are all copied and published. */
  function Completed(v: Mem, job: Job): Mem
    requires v.write < |v.data| && |job.bytes| < |v.data|
  {
    v.(data := Overlay(v.data, v.write, job.bytes), write := Wrap(|v.data|, v.write + |job.bytes|))
  }

  /** The image at which the call in progress is going to arrive. */
  function Outcome(prod: Prod, v: Mem): Mem {
    if v.read < |v.data| && v.write < |v.data| then
      match prod
      case PIdle => v
      case PLoaded(data, _) => WriteImage(v, data)
      case PCopy(job, _) => if |job.bytes| < |v.data| then Completed(v, job) else v
      case PFlushData(job) => if |job.bytes| < |v.data| then Completed(v, job) else v
      case PStoreIndex(job) => if |job.bytes| < |v.data| then Completed(v, job) else v
      case PFlushIndex(_) => v
    else v
  }

  /** Copying a byte that is going to be copied anyway. */
  lemma OverlayCovers<T>(data: seq<T>, start: nat, bytes: seq<T>, j: nat)
    requires start < |data| && |bytes| <= |data| && j < |bytes|
    ensures 0 <= Wrap(|data|, start + j) < |data|
    ensures Overlay(data[Wrap(|data|, start + j) := bytes[j]], start, bytes) == Overlay(data, start, bytes)
  {
  }

  /** Once all bytes are copied there is nothing left to lay down. */
  lemma AllCopied(c: Config, job: Job, v: Mem, hist: seq<u8>)
    requires ValidConfig(c) && Copied(c, job, {}, v.data, |hist|)
    requires v.write == Cell(c.len, |hist|) && |job.bytes| < c.len
    ensures Overlay(v.data, v.write, job.bytes) == v.data
  {
    forall i | 0 <= i < c.len
      ensures Overlay(v.data, v.write, job.bytes)[i] == v.data[i]
    {
      CopiedCell(c, job, v, hist, i);
    }
  }

  lemma CopiedCell(c: Config, job: Job, v: Mem, hist: seq<u8>, i: nat)
    requires ValidConfig(c) && Copied(c, job, {}, v.data, |hist|)
    requires v.write == Cell(c.len, |hist|) && |job.bytes| < c.len && i < c.len
    ensures Overlay(v.data, v.write, job.bytes)[i] == v.data[i]
  {
    var j := Offset(c.len, v.write, i);
    if j < |job.bytes| {
      CellAdd(c.len, |hist|, j);
      assert v.data[Cell(c.len, |hist| + j)] == job.bytes[j];
    }
  }

  predicate OfCall(a: Action) {
    a.ALoadWrite? || a.ACopy? || a.AFlushData? || a.AStoreIndex? || a.AFlushIndex? || a.ADrain?
  }

  /** Whether the call saw the current read index. */
  predicate UpToDate(s: State) {
    s.prod.PLoaded? ==> s.prod.seen == s.counters.read
  }

  lemma JobFits(c: Config, job: Job, v: Mem, k: Counters)
    requires JobInv(c, job, v, k) && CountersInv(c, k)
    ensures |job.bytes| < c.len
  {
  }

  lemma CopyKeepsCompleted(c: Config, v: Mem, job: Job, hist: seq<u8>, j: nat)
    requires ValidConfig(c) && |v.data| == c.len && v.write == Cell(c.len, |hist|)
    requires j < |job.bytes| < c.len
    ensures Completed(v.(data := v.data[Cell(c.len, |hist| + j) := job.bytes[j]]), job) == Completed(v, job)
  {
    CellAdd(c.len, |hist|, j);
    OverlayCovers(v.data, v.write, job.bytes, j);
  }

  lemma SameOutcome(prod: Prod, prod': Prod, v: Mem, v': Mem, job: Job)
    requires prod.PCopy? && (prod'.PCopy? || prod'.PFlushData?) && prod.job == prod'.job == job
    requires v' == v.(data := v'.data) && |v'.data| == |v.data|
    requires v.read < |v.data| && v.write < |v.data| && |job.bytes| < |v.data|
    requires Completed(v', job) == Completed(v, job)
    ensures Outcome(prod', v') == Outcome(prod, v)
  {
  }

  lemma StoredByte(c: Config, ram: Ram, job: Job, k: Counters, j: nat)
    requires ValidConfig(c) && CountersInv(c, k) && JobInv(c, job, ram.visible, k)
    requires j < |job.bytes| && |ram.visible.data| == c.len && ram.visible.write == Cell(c.len, |k.hist|)
    ensures |job.bytes| < c.len && 0 <= CopyCell(c.len, job.write, |job.bytes|, j) == Cell(c.len, |k.hist| + j)
    ensures var v, cell := ram.visible, Cell(c.len, |k.hist| + j);
            Perform(c.cache, ram, StoreData(cell, job.bytes[j])).visible == v.(data := v.data[cell := job.bytes[j]])
  {
    RingSteps.CopyTarget(c, job, ram.visible, k, j);
  }

  lemma CopyStepImage(c: Config, s: State, j: nat)
    requires ValidConfig(c) && ServiceInv(c, s) && s.prod.PCopy?
    requires j in s.prod.left && 0 <= CopyCell(c.len, s.prod.job.write, |s.prod.job.bytes|, j)
    ensures j < |s.prod.job.bytes| < c.len == |s.ram.visible.data|
    ensures var v, cell := s.ram.visible, Cell(c.len, |s.counters.hist| + j);
            CopyStep(c, s, j).ram.visible == v.(data := v.data[cell := s.prod.job.bytes[j]])
  {
    StoredByte(c, s.ram, s.prod.job, s.counters, j);
  }

  lemma CopiedOutcome(c: Config, prod: Prod, prod': Prod, v: Mem, v': Mem, hist: seq<u8>, j: nat)
    requires ValidConfig(c) && prod.PCopy? && (prod'.PCopy? || prod'.PFlushData?) && prod'.job == prod.job
    requires j < |prod.job.bytes| < c.len == |v.data|
    requires v.read < |v.data| && v.write == Cell(c.len, |hist|)
    requires v' == v.(data := v.data[Cell(c.len, |hist| + j) := prod.job.bytes[j]])
    ensures Outcome(prod', v') == Outcome(prod, v)
  {
    CopyKeepsCompleted(c, v, prod.job, hist, j);
    SameOutcome(prod, prod', v, v', prod.job);
  }

  lemma CopyKeepsOutcome(c: Config, s: State, j: nat, s': State)
    requires ValidConfig(c) && ServiceInv(c, s) && s.prod.PCopy?
    requires j in s.prod.left && 0 <= CopyCell(c.len, s.prod.job.write, |s.prod.job.bytes|, j)
    requires s' == CopyStep(c, s, j)
    ensures Outcome(s'.prod, s'.ram.visible) == Outcome(s.prod, s.ram.visible)
  {
    var v := s.ram.visible;
    IndicesInBuffer(c, s);
    CopyStepImage(c, s, j);
    assert s'.prod.PCopy? || s'.prod.PFlushData?;
    assert v.write == Cell(c.len, |s.counters.hist|);
    CopiedOutcome(c, s.prod, s'.prod, v, s'.ram.visible, s.counters.hist, j);
  }

  lemma StoreIndexKeepsOutcome(c: Config, s: State)
    requires ValidConfig(c) && ServiceInv(c, s) && Agree(c, s.ram) && s.prod.PStoreIndex?
    ensures Outcome(StoreIndexStep(c, s).prod, StoreIndexStep(c, s).ram.visible)
         == Outcome(s.prod, s.ram.visible)
  {
    var job, v := s.prod.job, s.ram.visible;
    IndicesInBuffer(c, s);
    JobFits(c, job, v, s.counters);
    AllCopied(c, job, v, s.counters.hist);
    NewWriteWraps(c.len, job.write, |job.bytes|);
    PerformKeepsAgree(c, s.ram, StoreWrite(NewWrite(c.len, job.write, |job.bytes|)));
  }

  lemma LoadWriteKeepsOutcome(c: Config, s: State)
    requires ValidConfig(c) && ServiceInv(c, s) && s.prod.PLoaded? && UpToDate(s)
    requires s.ram.visible.write < c.len
    ensures Outcome(LoadWriteStep(c, s).prod, s.ram.visible) == Outcome(s.prod, s.ram.visible)
  {
    var v, data := s.ram.visible, s.prod.data;
    IndicesInBuffer(c, s);
    AvailableIsFreeSpace(c.len, v.read, v.write);
    if Accepted(v, data) == 0 {
      OverlayNothing(v.data, v.write);
    }
  }

  lemma CallStepKeepsOutcome(c: Config, s: State, a: Action)
    requires ValidConfig(c) && Inv(c, s) && s.boot.BDone? && UpToDate(s)
    requires Enabled(c, s, a) && InBounds(c, s, a) && OfCall(a)
    ensures var s' := Next(c, s, a);
            && s'.boot.BDone? && UpToDate(s')
            && Outcome(s'.prod, s'.ram.visible) == Outcome(s.prod, s.ram.visible)
  {
    match a
    case ALoadWrite => LoadWriteKeepsOutcome(c, s);
    case ACopy(j) => CopyKeepsOutcome(c, s, j, Next(c, s, a));
    case AStoreIndex => StoreIndexKeepsOutcome(c, s);
    case AFlushData => FlushCommits(c, s.ram);
    case AFlushIndex => FlushCommits(c, s.ram);
    case ADrain =>
  }

  /** The steps of one `write`, run without others in between and having seen
      the current read index, leave the image of `Producer.Write`. */
  lemma SoloWrite(c: Config, m: Mem, run: seq<Action>, data: seq<u8>, call: seq<Action>)
    requires ValidConfig(c) && AnyMemory(c, m) && Legal(c, Start(c, m), run)
    requires Enabled(c, Exec(c, Start(c, m), run), ACallWrite(data, Exec(c, Start(c, m), run).counters.read))
    requires var begin := run + [ACallWrite(data, Exec(c, Start(c, m), run).counters.read)];
             && Legal(c, Start(c, m), begin + call)
             && Exec(c, Start(c, m), begin + call).prod.PIdle?
    requires forall a | a in call :: OfCall(a)
    ensures var v := Exec(c, Start(c, m), run).ram.visible;
            var begin := run + [ACallWrite(data, Exec(c, Start(c, m), run).counters.read)];
            && Ready(c.magic, v)
            && Exec(c, Start(c, m), begin + call).ram.visible == WriteImage(v, data)
  {
    var s := Exec(c, Start(c, m), run);
    var begin := run + [ACallWrite(data, s.counters.read)];
    RunKeepsInv(c, m, run);
    IndicesInBuffer(c, s);
    RunGoesOn(c, Start(c, m), begin, call);
    LastStep(c, Start(c, m), run, ACallWrite(data, s.counters.read));
    RunKeepsInv(c, m, begin);
    CallKeepsOutcome(c, Exec(c, Start(c, m), begin), call);
  }

  lemma {:induction false} CallKeepsOutcome(c: Config, s: State, call: seq<Action>)
    requires ValidConfig(c) && Inv(c, s) && s.boot.BDone? && UpToDate(s) && Legal(c, s, call)
    requires forall a | a in call :: OfCall(a)
    ensures var s' := Exec(c, s, call);
            && Inv(c, s') && s'.boot.BDone? && UpToDate(s')
            && Outcome(s'.prod, s'.ram.visible) == Outcome(s.prod, s.ram.visible)
    decreases |call|
  {
    if call != [] {
      var n := |call| - 1;
      CallKeepsOutcome(c, s, call[..n]);
      CallStepKeepsOutcome(c, Exec(c, s, call[..n]), call[n]);
      StepKeepsInv(c, Exec(c, s, call[..n]), call[n]);
    }
  }

  lemma ReleaseStepImage(c: Config, s: State, used: nat)
    requires ValidConfig(c) && Agree(c, s.ram) && ServiceInv(c, s)
    requires s.cons.CGranted? && GrantInBounds(s)
    requires 0 <= NewRead(c.len, s.cons.read, Used(s, used), s.cons.len1)
    ensures |s.ram.visible.data| == c.len && Ready(c.magic, s.ram.visible)
    ensures Used(s, used) <= QueueLen(c.len, s.ram.visible.read, s.ram.visible.write)
    ensures ReleaseStep(c, s, used).ram.visible == ReleaseImage(s.ram.visible, Used(s, used))
  {
    RingSteps.ReleasedIndex(c, s, used);
    CellAdd(c.len, s.counters.read, Used(s, used));
    RingSteps.GrantShowsStream(c, s);
    QueueLenOfCounters(c.len, s.counters.read, |s.counters.hist|);
    PerformKeepsAgree(c, s.ram, StoreRead(AsU32(NewRead(c.len, s.cons.read, Used(s, used), s.cons.len1))));
  }

  /** The store of one `release` leaves the image of `GrantR.Release`. */
  lemma SoloRelease(c: Config, m: Mem, run: seq<Action>, used: nat)
    requires ValidConfig(c) && AnyMemory(c, m) && Legal(c, Start(c, m), run)
    requires Enabled(c, Exec(c, Start(c, m), run), ARelease(used))
    ensures var s := Exec(c, Start(c, m), run);
            var v := s.ram.visible;
            && InBounds(c, s, ARelease(used))
            && Ready(c.magic, v)
            && Used(s, used) <= QueueLen(|v.data|, v.read, v.write)
            && Next(c, s, ARelease(used)).ram.visible == ReleaseImage(v, Used(s, used))
  {
    var s := Exec(c, Start(c, m), run);
    RunKeepsInv(c, m, run);
    StepKeepsInv(c, s, ARelease(used));
    ReleaseStepImage(c, s, used);
  }

  /** The bytes that a call accepts when it loads the write index. */
  function AcceptedAt(c: Config, s: State): seq<u8>
    requires 0 < c.len && s.prod.PLoaded? && s.ram.visible.write < c.len
  {
    var prod' := LoadWriteStep(c, s).prod;
    if prod'.PCopy? then prod'.job.bytes else []
  }

  lemma AcceptedInService(c: Config, s: State)
    requires ValidConfig(c) && ServiceInv(c, s) && s.prod.PLoaded? && s.ram.visible.write < c.len
    ensures AcceptedAt(c, s) <= s.prod.data
    ensures |AcceptedAt(c, s)| == Min(|s.prod.data|, c.len - 1 - (|s.counters.hist| - s.prod.seen))
    ensures s.prod.seen <= s.counters.read
  {
    QueueLenOfCounters(c.len, s.prod.seen, |s.counters.hist|);
    AvailableIsFreeSpace(c.len, Cell(c.len, s.prod.seen), s.ram.visible.write);
  }

  /** An old read index only makes the producer accept less: it accepts what fits
      in front of the oldest byte it believes unreleased, and exactly what fits
      when the index is current. */
  lemma StaleReadUnderestimates(c: Config, m: Mem, run: seq<Action>, s: State)
    requires ValidConfig(c) && AnyMemory(c, m) && Legal(c, Start(c, m), run)
    requires s == Exec(c, Start(c, m), run) && Enabled(c, s, ALoadWrite)
    ensures InBounds(c, s, ALoadWrite)
    ensures AcceptedAt(c, s) <= s.prod.data && s.prod.seen <= s.counters.read
    ensures |AcceptedAt(c, s)|
         == Min(|s.prod.data|, c.len - 1 - |Content(c, s)| - (s.counters.read - s.prod.seen))
  {
    RunKeepsInv(c, m, run);
    StaleReadAt(c, s);
  }

  lemma StaleReadAt(c: Config, s: State)
    requires ValidConfig(c) && Inv(c, s) && Enabled(c, s, ALoadWrite)
    ensures InBounds(c, s, ALoadWrite)
    ensures AcceptedAt(c, s) <= s.prod.data && s.prod.seen <= s.counters.read
    ensures |AcceptedAt(c, s)|
         == Min(|s.prod.data|, c.len - 1 - |Content(c, s)| - (s.counters.read - s.prod.seen))
  {
    IndicesInBuffer(c, s);
    ContentIsStream(c, s);
    AcceptedInService(c, s);
  }
}
