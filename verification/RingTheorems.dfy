/** What holds of every run of the ring, whatever the interleaving and wherever
    resets strike. */
module RingTheorems {
  import opened Words
  import opened RingIndex
  import opened RingSpec
  import opened EccRam
  import opened RingMachine
  import opened RingInvariant
  import opened RingSteps

  /** Memory as found at power-on: the right shape, any contents. */
  predicate AnyMemory(c: Config, m: Mem) {
    |m.header| == 4 && |m.data| == c.len
  }

  // ---------- one step ----------

  lemma ProducerStepKeepsInv(c: Config, s: State, a: Action)
    requires ValidConfig(c) && Agree(c, s.ram) && ServiceInv(c, s) && s.boot.BDone?
    requires Enabled(c, s, a)
    requires a.ALoadWrite? || a.ACopy? || a.AFlushData? || a.AStoreIndex? || a.AFlushIndex?
    ensures InBounds(c, s, a) && Inv(c, Next(c, s, a))
  {
    match a
    case ALoadWrite => LoadWriteKeepsInv(c, s);
    case ACopy(j) => CopyKeepsInv(c, s, j);
    case AFlushData => FlushKeepsInv(c, s, PStoreIndex(s.prod.job), s.cons);
    case AStoreIndex => StoreIndexKeepsInv(c, s);
    case AFlushIndex => FlushKeepsInv(c, s, PIdle, s.cons);
  }

  lemma ConsumerStepKeepsInv(c: Config, s: State, a: Action)
    requires ValidConfig(c) && Agree(c, s.ram) && ServiceInv(c, s) && s.boot.BDone?
    requires Enabled(c, s, a) && (a.ALoadRead? || a.ARelease? || a.AFlushRelease?)
    ensures InBounds(c, s, a) && Inv(c, Next(c, s, a))
  {
    match a
    case ALoadRead => LoadReadKeepsInv(c, s);
    case ARelease(used) => ReleaseKeepsInv(c, s, used);
    case AFlushRelease => FlushKeepsInv(c, s, s.prod, CIdle);
  }

  lemma CallKeepsInv(c: Config, s: State, a: Action)
    requires ValidConfig(c) && Agree(c, s.ram) && ServiceInv(c, s) && s.boot.BDone?
    requires Enabled(c, s, a) && (a.ACallWrite? || a.ACallIsEmpty? || a.ACompare? || a.ACallRead? || a.ADropGrant?)
    ensures Agree(c, Next(c, s, a).ram) && ServiceInv(c, Next(c, s, a))
  {
    var s' := Next(c, s, a);
    CallKeepsDurable(c, s.ram, s.prod, s'.prod, s.cons, s'.cons, s.counters, s'.counters);
  }

  lemma CallKeepsDurable(
    c: Config, ram: Ram, prod: Prod, prod': Prod, cons: Cons, cons': Cons, k: Counters, k': Counters)
    requires ValidConfig(c) && DurableInv(c, ram, prod, cons, k)
    requires prod == prod' || (prod.PIdle? && prod'.PLoaded?)
    requires cons == cons' || (!cons.CFlush? && !cons'.CFlush?)
    requires k' == k.(readSeen := k'.readSeen, writeSeen := k'.writeSeen)
    ensures DurableInv(c, ram, prod', cons', k')
  {
  }

  /** Every step keeps the invariant and uses no index outside the buffer. */
  lemma StepKeepsInv(c: Config, s: State, a: Action)
    requires ValidConfig(c) && Inv(c, s) && Enabled(c, s, a)
    ensures InBounds(c, s, a) && Inv(c, Next(c, s, a))
  {
    if a.ADrain? {
      DrainKeepsInv(c, s);
    } else if a.AReset? {
      ResetKeepsInv(c, s);
    } else if a.ABoot? {
      BootStepKeepsInv(c, s);
    } else if a.ABootHeader? {
      HeaderStepKeepsInv(c, s, a.i);
    } else if a.ALoadRead? || a.ARelease? || a.AFlushRelease? {
      ConsumerStepKeepsInv(c, s, a);
    } else if a.ALoadWrite? || a.ACopy? || a.AFlushData? || a.AStoreIndex? || a.AFlushIndex? {
      ProducerStepKeepsInv(c, s, a);
    } else {
      CallKeepsInv(c, s, a);
    }
  }

  // ---------- all runs ----------

  lemma LastStep(c: Config, s: State, run: seq<Action>, a: Action)
    requires 0 < c.len && Legal(c, s, run + [a])
    ensures Legal(c, s, run) && Enabled(c, Exec(c, s, run), a) && InBounds(c, Exec(c, s, run), a)
    ensures Exec(c, s, run + [a]) == Next(c, Exec(c, s, run), a)
  {
    assert (run + [a])[..|run|] == run;
  }

  /** A run that goes on from where another one ended. */
  lemma {:induction false} RunGoesOn(c: Config, s: State, run: seq<Action>, more: seq<Action>)
    requires 0 < c.len && Legal(c, s, run + more)
    ensures Legal(c, s, run) && Legal(c, Exec(c, s, run), more)
    ensures Exec(c, Exec(c, s, run), more) == Exec(c, s, run + more)
    decreases |more|
  {
    if more == [] {
      assert run + more == run;
    } else {
      var n := |more| - 1;
      assert run + more == run + more[..n] + [more[n]];
      LastStep(c, s, run + more[..n], more[n]);
      RunGoesOn(c, s, run, more[..n]);
    }
  }

  lemma {:induction false} RunKeepsInv(c: Config, m: Mem, run: seq<Action>)
    requires ValidConfig(c) && AnyMemory(c, m) && Legal(c, Start(c, m), run)
    ensures Inv(c, Exec(c, Start(c, m), run))
    decreases |run|
  {
    if run != [] {
      var n := |run| - 1;
      RunKeepsInv(c, m, run[..n]);
      StepKeepsInv(c, Exec(c, Start(c, m), run[..n]), run[n]);
    }
  }

  /** No run gets to a step that would use an index outside the buffer or
      subtract below zero. */
  lemma NoBadAccess(c: Config, m: Mem, run: seq<Action>, a: Action)
    requires ValidConfig(c) && AnyMemory(c, m) && Legal(c, Start(c, m), run)
    requires Enabled(c, Exec(c, Start(c, m), run), a)
    ensures InBounds(c, Exec(c, Start(c, m), run), a)
  {
    RunKeepsInv(c, m, run);
    StepKeepsInv(c, Exec(c, Start(c, m), run), a);
  }

  lemma IndicesInBuffer(c: Config, s: State)
    requires ValidConfig(c) && ServiceInv(c, s)
    ensures s.ram.visible.read < c.len && s.ram.visible.write < c.len
    ensures s.ram.durable.read < c.len && s.ram.durable.write < c.len
  {
  }

  predicate Writing(s: State) {
    s.prod.PCopy? || s.prod.PFlushData? || s.prod.PStoreIndex?
  }

  lemma WriteArithmetic(c: Config, s: State)
    requires ValidConfig(c) && ServiceInv(c, s) && Writing(s)
    ensures var job := s.prod.job;
            && job.write + |job.bytes| < U32_RANGE
            && NewWrite(c.len, job.write, |job.bytes|) == (job.write + |job.bytes|) % c.len
  {
    var job := s.prod.job;
    PublishedIndex(c, job, s.ram.visible, s.counters);
    NewWriteWraps(c.len, job.write, |job.bytes|);
    ModIsWrap(c.len, job.write + |job.bytes|);
  }

  lemma ReleaseArithmetic(c: Config, s: State, used: nat)
    requires ValidConfig(c) && ServiceInv(c, s) && s.cons.CGranted?
    ensures var newRead := NewRead(c.len, s.cons.read, Used(s, used), s.cons.len1);
            && s.cons.read + Used(s, used) < U32_RANGE
            && newRead == (s.cons.read + Used(s, used)) % c.len
            && AsU32(newRead) == newRead
  {
    QueueLenOfCounters(c.len, s.counters.read, s.counters.writeSeen);
    NewReadWraps(c.len, s.cons.read, Cell(c.len, s.counters.writeSeen), Used(s, used));
    ModIsWrap(c.len, s.cons.read + Used(s, used));
  }

  /** Both indices lie in the buffer, in loads and after a reset; no sum leaves
      32 bits; and both index stores, branches and conversions included, are
      sums modulo the buffer length. */
  predicate ExactArithmetic(c: Config, s: State, used: nat)
    requires ValidConfig(c)
  {
    && s.ram.visible.read < c.len && s.ram.visible.write < c.len
    && s.ram.durable.read < c.len && s.ram.durable.write < c.len
    && (Writing(s) ==>
          var job := s.prod.job;
          && job.write + |job.bytes| < U32_RANGE
          && NewWrite(c.len, job.write, |job.bytes|) == (job.write + |job.bytes|) % c.len)
    && (s.cons.CGranted? ==>
          var newRead := NewRead(c.len, s.cons.read, Used(s, used), s.cons.len1);
          && s.cons.read + Used(s, used) < U32_RANGE
          && newRead == (s.cons.read + Used(s, used)) % c.len
          && AsU32(newRead) == newRead)
  }

  lemma ServiceArithmetic(c: Config, s: State, used: nat)
    requires ValidConfig(c) && ServiceInv(c, s)
    ensures ExactArithmetic(c, s, used)
  {
    IndicesInBuffer(c, s);
    if Writing(s) {
      WriteArithmetic(c, s);
    }
    if s.cons.CGranted? {
      ReleaseArithmetic(c, s, used);
    }
  }

  /** The index that recovery stores lies in the buffer and fits in 32 bits. */
  predicate ExactRecovery(c: Config, boot: Boot) {
    && (boot.BFixWrite? ==> AsU32(boot.read) == boot.read < c.len)
    && (boot.BFixRead? ==> AsU32(boot.write) == boot.write < c.len)
  }

  lemma RecoveryArithmetic(c: Config, s: State)
    requires ValidConfig(c) && Inv(c, s)
    ensures ExactRecovery(c, s.boot)
  {
  }

  /** Every 32-bit value of a run is the exact one, in recovery and after it. */
  lemma ArithmeticBounds(c: Config, m: Mem, run: seq<Action>, used: nat)
    requires ValidConfig(c) && AnyMemory(c, m) && Legal(c, Start(c, m), run)
    ensures ExactRecovery(c, Exec(c, Start(c, m), run).boot)
    ensures Exec(c, Start(c, m), run).boot.BDone? ==> ExactArithmetic(c, Exec(c, Start(c, m), run), used)
  {
    var s := Exec(c, Start(c, m), run);
    RunKeepsInv(c, m, run);
    RecoveryArithmetic(c, s);
    if s.boot.BDone? {
      ServiceArithmetic(c, s, used);
    }
  }

  // ---------- conservation ----------

  /** In service, the queue in memory is the stream between the counters. */
  lemma ContentIsStream(c: Config, s: State)
    requires ValidConfig(c) && ServiceInv(c, s)
    ensures Content(c, s) == s.counters.hist[s.counters.read..]
  {
    var k := s.counters;
    QueueIsStream(c, s.ram.visible.data, k.hist, k.read, |k.hist|);
    assert k.hist[k.read..|k.hist|] == k.hist[k.read..];
  }

  lemma WithoutNothing(bytes: seq<u8>)
    ensures WithoutSuffix(bytes, []) == bytes
  {
  }

  lemma BootContent(c: Config, s: State)
    requires ValidConfig(c) && Agree(c, s.ram) && BootInv(c, s)
    ensures Content(c, s) == DurableContent(c, s) == RecoveredContent(c.magic, s.target)
  {
    RecoverImageIsQueue(c.magic, s.ram.visible);
    RecoverImageIsQueue(c.magic, s.ram.durable);
  }

  /** The queue that a reset leaves is the stream between the durable counters. */
  lemma DurableContentIsStream(c: Config, ram: Ram, prod: Prod, cons: Cons, k: Counters)
    requires ValidConfig(c) && Agree(c, ram) && DurableInv(c, ram, prod, cons, k)
    requires ram.visible.header == c.magic
    ensures 0 <= DurableRead(ram, cons, k) <= DurableWrite(ram, prod, k) <= |k.hist|
    ensures RecoveredContent(c.magic, ram.durable)
         == k.hist[DurableRead(ram, cons, k)..DurableWrite(ram, prod, k)]
  {
    QueueIsStream(c, ram.durable.data, k.hist, DurableRead(ram, cons, k), DurableWrite(ram, prod, k));
  }

  /** What a reset undoes are the pieces of the stream next to the counters. */
  lemma PendingIsStream(c: Config, ram: Ram, prod: Prod, cons: Cons, k: Counters)
    requires ValidConfig(c) && ProdInv(c, prod, ram, k) && ConsInv(c, cons, ram.visible, k)
    requires k.read <= |k.hist|
    ensures 0 <= DurableRead(ram, cons, k) <= k.read && 0 <= DurableWrite(ram, prod, k) <= |k.hist|
    ensures Redelivered(ram, cons) == k.hist[DurableRead(ram, cons, k)..k.read]
    ensures Lost(ram, prod) == k.hist[DurableWrite(ram, prod, k)..]
  {
  }

  lemma SplitBothWays(hist: seq<u8>, r: nat, w: nat, read: nat)
    requires r <= w <= |hist| && r <= read <= |hist|
    ensures hist[r..w] + hist[w..] == hist[r..read] + hist[read..]
  {
  }

  /** A reset hands back exactly what is still being flushed: what is durable,
      with the bytes of an unflushed `write` put back, is the queue with the
      bytes of an unflushed `release` put back. */
  lemma ResetConserves(c: Config, s: State)
    requires ValidConfig(c) && Inv(c, s)
    ensures DurableContent(c, s) + Lost(s.ram, s.prod) == Redelivered(s.ram, s.cons) + Content(c, s)
  {
    if s.boot.BDone? {
      var k := s.counters;
      ContentIsStream(c, s);
      DurableContentIsStream(c, s.ram, s.prod, s.cons, k);
      PendingIsStream(c, s.ram, s.prod, s.cons, k);
      SplitBothWays(k.hist, DurableRead(s.ram, s.cons, k), DurableWrite(s.ram, s.prod, k), k.read);
    } else {
      BootContent(c, s);
    }
  }

  /** How a step that is not a reset moves the counters. */
  lemma StepMovesCounters(c: Config, s: State, a: Action)
    requires ValidConfig(c) && ServiceInv(c, s) && s.boot.BDone?
    requires Enabled(c, s, a) && InBounds(c, s, a) && !a.AReset?
    ensures var k, k' := s.counters, Next(c, s, a).counters;
            && Next(c, s, a).boot.BDone?
            && k'.hist == k.hist + Published(s, a)
            && k'.first == k.first && k'.recovered == k.recovered
            && k'.read == k.read + |Released(s, a)| <= |k.hist|
            && Released(s, a) == k.hist[k.read..k'.read]
  {
    if a.ARelease? {
      ReleasedBytesAreStream(c, s, a.used);
    }
  }

  lemma MoveAlongStream(hist: seq<u8>, published: seq<u8>, read: nat, read': nat)
    requires read <= read' <= |hist|
    ensures hist[read..read'] + (hist + published)[read'..] == hist[read..] + published
  {
  }

  /** Every step other than a reset conserves bytes: what it releases followed
      by the new queue is the old queue followed by what it publishes. */
  lemma StepConserves(c: Config, s: State, a: Action)
    requires ValidConfig(c) && Inv(c, s) && Enabled(c, s, a) && !a.AReset?
    ensures InBounds(c, s, a)
    ensures Released(s, a) + Content(c, Next(c, s, a)) == Content(c, s) + Published(s, a)
  {
    StepKeepsInv(c, s, a);
    if s.boot.BDone? {
      ServiceStepConserves(c, s, a, Next(c, s, a));
    } else {
      BootStepKeepsContent(c, s, a);
    }
  }

  lemma ServiceStepConserves(c: Config, s: State, a: Action, s': State)
    requires ValidConfig(c) && ServiceInv(c, s) && s.boot.BDone?
    requires Enabled(c, s, a) && InBounds(c, s, a) && !a.AReset?
    requires s' == Next(c, s, a) && ServiceInv(c, s')
    ensures Released(s, a) + Content(c, s') == Content(c, s) + Published(s, a)
  {
    StepMovesCounters(c, s, a);
    ContentIsStream(c, s);
    ContentIsStream(c, s');
    MoveAlongStream(s.counters.hist, Published(s, a), s.counters.read, s'.counters.read);
  }

  /** No step of recovery changes the image recovery arrives at, neither from
      what loads see nor from what a reset would leave. */
  lemma BootStepKeepsTarget(c: Config, s: State, a: Action)
    requires ValidConfig(c) && Agree(c, s.ram) && BootInv(c, s)
    requires Enabled(c, s, a) && InBounds(c, s, a) && !a.AReset?
    ensures RecoverImage(c.magic, Next(c, s, a).ram.visible) == s.target
    ensures RecoverImage(c.magic, Next(c, s, a).ram.durable) == s.target
  {
    if a.ABootHeader? {
      HeaderKeepsTarget(c, s, a.i);
    } else if a.ABoot? {
      if s.boot.BFlush? {
        FlushCommits(c, s.ram);
      } else {
        BootStepKeepsInv(c, s);
      }
    }
  }

  lemma HeaderKeepsTarget(c: Config, s: State, i: nat)
    requires ValidConfig(c) && Agree(c, s.ram) && BootInv(c, s)
    requires Enabled(c, s, ABootHeader(i)) && InBounds(c, s, ABootHeader(i))
    ensures RecoverImage(c.magic, HeaderStep(c, s, i).ram.visible) == s.target
    ensures RecoverImage(c.magic, HeaderStep(c, s, i).ram.durable) == s.target
  {
    PerformKeepsAgree(c, s.ram, StoreHeader(i, c.magic[i]));
    HeaderStoreFacts(c, s.ram, i);
  }

  lemma BootStepKeepsContent(c: Config, s: State, a: Action)
    requires ValidConfig(c) && Agree(c, s.ram) && BootInv(c, s)
    requires Enabled(c, s, a) && InBounds(c, s, a) && !a.AReset?
    ensures Content(c, Next(c, s, a)) == Content(c, s)
    ensures Released(s, a) == Published(s, a) == []
  {
    BootStepKeepsTarget(c, s, a);
    RecoverImageIsQueue(c.magic, s.ram.visible);
    RecoverImageIsQueue(c.magic, Next(c, s, a).ram.visible);
  }

  /** All bytes that were ever queued, in order: the recovered ones, then what
      was published, less what resets undid. */
  function Stream(c: Config, m: Mem, run: seq<Action>): seq<u8>
    requires 0 < c.len && Legal(c, Start(c, m), run)
    decreases |run|
  {
    if run == [] then RecoveredContent(c.magic, m)
    else
      var n := |run| - 1;
      var s, before := Exec(c, Start(c, m), run[..n]), Stream(c, m, run[..n]);
      if run[n].AReset? then WithoutSuffix(before, Lost(s.ram, s.prod)) else before + Published(s, run[n])
  }

  /** All bytes the consumer has released, in order, less the releases that
      resets undid. */
  function Delivered(c: Config, m: Mem, run: seq<Action>): seq<u8>
    requires 0 < c.len && Legal(c, Start(c, m), run)
    decreases |run|
  {
    if run == [] then []
    else
      var n := |run| - 1;
      var s, before := Exec(c, Start(c, m), run[..n]), Delivered(c, m, run[..n]);
      if run[n].AReset? then WithoutSuffix(before, Redelivered(s.ram, s.cons)) else before + Released(s, run[n])
  }

  predicate EndsWith(bytes: seq<u8>, suffix: seq<u8>) {
    |suffix| <= |bytes| && bytes[|bytes| - |suffix|..] == suffix
  }

  function WithoutSuffix(bytes: seq<u8>, suffix: seq<u8>): seq<u8> {
    if |suffix| <= |bytes| then bytes[..|bytes| - |suffix|] else []
  }

  /** Whole-run conservation. For every run from any memory: what was delivered
      followed by what is in the queue is the stream. A reset undoes nothing but
      the end of the stream that an unflushed `write` put there, and the end of
      what an unflushed `release` delivered. */
  lemma {:induction false} RunConserves(c: Config, m: Mem, run: seq<Action>)
    requires ValidConfig(c) && AnyMemory(c, m) && Legal(c, Start(c, m), run)
    ensures var s := Exec(c, Start(c, m), run);
            && Delivered(c, m, run) + Content(c, s) == Stream(c, m, run)
            && EndsWith(Delivered(c, m, run), Redelivered(s.ram, s.cons))
            && EndsWith(Stream(c, m, run), Lost(s.ram, s.prod))
    decreases |run|
  {
    RunKeepsInv(c, m, run);
    var s' := Exec(c, Start(c, m), run);
    DeliveredSinceRecovery(c, m, run);
    if run != [] {
      var n := |run| - 1;
      var s, a := Exec(c, Start(c, m), run[..n]), run[n];
      RunConserves(c, m, run[..n]);
      RunKeepsInv(c, m, run[..n]);
      if a.AReset? {
        ResetConserves(c, s);
        UndoSuffixes(Delivered(c, m, run[..n]), Redelivered(s.ram, s.cons), Content(c, s),
                     Stream(c, m, run[..n]), Lost(s.ram, s.prod), DurableContent(c, s));
      } else {
        StepConserves(c, s, a);
        ExtendBoth(Delivered(c, m, run[..n]), Content(c, s), Released(s, a), Content(c, s'), Published(s, a));
      }
    }
    PendingAreSuffixes(c, s', Delivered(c, m, run), Stream(c, m, run));
  }

  lemma ExtendBoth(
    delivered: seq<u8>, content: seq<u8>, released: seq<u8>, content': seq<u8>, published: seq<u8>)
    requires released + content' == content + published
    ensures delivered + released + content' == delivered + content + published
  {
    assert delivered + released + content' == delivered + (released + content');
    assert delivered + (content + published) == delivered + content + published;
  }

  lemma UndoSuffixes(
    delivered: seq<u8>, redelivered: seq<u8>, content: seq<u8>, stream: seq<u8>, lost: seq<u8>, durable: seq<u8>)
    requires delivered + content == stream
    requires EndsWith(delivered, redelivered) && EndsWith(stream, lost)
    requires durable + lost == redelivered + content
    ensures WithoutSuffix(delivered, redelivered) + durable == WithoutSuffix(stream, lost)
  {
    var kept := WithoutSuffix(delivered, redelivered);
    assert delivered == kept + redelivered;
    assert kept + durable + lost == kept + (redelivered + content) == stream;
    assert (kept + durable + lost)[..|stream| - |lost|] == kept + durable;
  }

  /** What was released since the last recovery. */
  function ReleasedSince(k: Counters): seq<u8> {
    if k.first <= k.read <= |k.hist| then k.hist[k.first..k.read] else []
  }

  lemma NothingReleasedYet(c: Config, s: State, a: Action)
    requires ValidConfig(c) && !s.boot.BDone? && Enabled(c, s, a) && InBounds(c, s, a)
    requires Next(c, s, a).boot.BDone?
    ensures ReleasedSince(Next(c, s, a).counters) == []
  {
  }

  lemma ReleasedSinceGrows(k: Counters, k': Counters, released: seq<u8>, delivered: seq<u8>)
    requires k.first == k'.first <= k.read <= k'.read <= |k.hist| && k.hist <= k'.hist
    requires released == k.hist[k.read..k'.read]
    requires EndsWith(delivered, ReleasedSince(k))
    ensures EndsWith(delivered + released, ReleasedSince(k'))
  {
    assert ReleasedSince(k') == ReleasedSince(k) + released;
  }

  /** It is the end of what was delivered. */
  lemma {:induction false} DeliveredSinceRecovery(c: Config, m: Mem, run: seq<Action>)
    requires ValidConfig(c) && AnyMemory(c, m) && Legal(c, Start(c, m), run)
    ensures var s := Exec(c, Start(c, m), run);
            s.boot.BDone? ==> EndsWith(Delivered(c, m, run), ReleasedSince(s.counters))
    decreases |run|
  {
    if run != [] {
      var n := |run| - 1;
      var s, a := Exec(c, Start(c, m), run[..n]), run[n];
      DeliveredSinceRecovery(c, m, run[..n]);
      RunKeepsInv(c, m, run[..n]);
      if s.boot.BDone? && !a.AReset? {
        StepMovesCounters(c, s, a);
        FirstIsReleased(c, s);
        ReleasedSinceGrows(s.counters, Next(c, s, a).counters, Released(s, a), Delivered(c, m, run[..n]));
      } else if Next(c, s, a).boot.BDone? {
        NothingReleasedYet(c, s, a);
      }
    }
  }

  lemma FirstIsReleased(c: Config, s: State)
    requires ValidConfig(c) && ServiceInv(c, s)
    ensures s.counters.first <= s.counters.read <= |s.counters.hist|
  {
  }

  lemma SuffixOfSuffix(a: seq<u8>, b: seq<u8>, d: seq<u8>)
    requires EndsWith(a, b) && EndsWith(b, d)
    ensures EndsWith(a, d)
  {
  }

  lemma PendingAreSuffixes(c: Config, s: State, delivered: seq<u8>, stream: seq<u8>)
    requires ValidConfig(c) && Inv(c, s)
    requires delivered + Content(c, s) == stream
    requires s.boot.BDone? ==> EndsWith(delivered, ReleasedSince(s.counters))
    ensures EndsWith(delivered, Redelivered(s.ram, s.cons))
    ensures EndsWith(stream, Lost(s.ram, s.prod))
  {
    if s.boot.BDone? {
      var k := s.counters;
      FirstIsReleased(c, s);
      FirstIsDurable(c, s);
      PendingIsStream(c, s.ram, s.prod, s.cons, k);
      ContentIsStream(c, s);
      RedeliveredIsSuffix(delivered, k, DurableRead(s.ram, s.cons, k));
      LostIsSuffix(delivered, k, DurableWrite(s.ram, s.prod, k));
    }
  }

  lemma RedeliveredIsSuffix(delivered: seq<u8>, k: Counters, from: nat)
    requires k.first <= from <= k.read <= |k.hist| && EndsWith(delivered, ReleasedSince(k))
    ensures EndsWith(delivered, k.hist[from..k.read])
  {
    SuffixOfSuffix(delivered, ReleasedSince(k), k.hist[from..k.read]);
  }

  lemma LostIsSuffix(delivered: seq<u8>, k: Counters, from: nat)
    requires k.first <= k.read <= |k.hist| && k.first <= from <= |k.hist|
    requires EndsWith(delivered, ReleasedSince(k))
    ensures EndsWith(delivered + k.hist[k.read..], k.hist[from..])
  {
    StreamSinceRecovery(delivered, k);
    SuffixOfSuffix(delivered + k.hist[k.read..], k.hist[k.first..], k.hist[from..]);
  }

  lemma FirstIsDurable(c: Config, s: State)
    requires ValidConfig(c) && ServiceInv(c, s)
    ensures s.counters.first <= DurableRead(s.ram, s.cons, s.counters) <= DurableWrite(s.ram, s.prod, s.counters)
  {
  }

  lemma StreamSinceRecovery(delivered: seq<u8>, k: Counters)
    requires k.first <= k.read <= |k.hist| && EndsWith(delivered, ReleasedSince(k))
    ensures EndsWith(delivered + k.hist[k.read..], k.hist[k.first..])
  {
    var kept := delivered[..|delivered| - (k.read - k.first)];
    assert delivered + k.hist[k.read..] == kept + k.hist[k.first..];
  }
}
