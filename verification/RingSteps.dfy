/** Every step of the ring keeps the invariant. */
module RingSteps {
  import opened Words
  import opened RingIndex
  import opened RingSpec
  import opened EccRam
  import opened RingMachine
  import opened RingInvariant

  // ---------- recovery ----------

  /** A store that does not change what recovery arrives at changes neither what
      it arrives at from durable memory. */
  lemma RecoveryStoreIsHarmless(c: Config, ram: Ram, s: Store, target: Mem)
    requires ValidConfig(c) && Agree(c, ram)
    requires RecoverImage(c.magic, ram.durable) == RecoverImage(c.magic, ram.visible) == target
    requires RecoverImage(c.magic, Apply(ram.visible, s)) == target
    requires s.StoreRead? || s.StoreWrite?
    ensures RecoverImage(c.magic, Perform(c.cache, ram, s).durable) == target
  {
    IndexStoreFacts(c, ram, s);
  }

  lemma EntersService(c: Config, s: State)
    requires ValidConfig(c) && Agree(c, s.ram)
    requires Ready(c.magic, s.ram.visible)
    requires s.ram.durable.read == s.ram.visible.read && s.ram.durable.write == s.ram.visible.write
    requires s.ram.durable.data == s.ram.visible.data
    requires s.ram.durable.header != s.ram.visible.header ==> s.ram.visible.read == s.ram.visible.write
    ensures ServiceInv(c, EnterService(c, s))
  {
    var v := s.ram.visible;
    var q := Queue(v.data, v.read, v.write);
    var hist := Zeros(v.read) + q;
    CellAdd(c.len, v.read, |q|);
    forall p: nat | v.read <= p < |hist|
      ensures v.data[Cell(c.len, p)] == hist[p]
    {
      CellAdd(c.len, v.read, p - v.read);
    }
    assert QueueInv(c, v, hist, v.read, |hist|);
  }

  lemma FixWriteKeepsInv(c: Config, s: State)
    requires ValidConfig(c) && Agree(c, s.ram) && BootInv(c, s) && s.boot.BFixWrite?
    ensures Inv(c, BootStep(c, s))
  {
    assert AsU32(s.boot.read) == s.boot.read;
    PerformKeepsAgree(c, s.ram, StoreWrite(s.boot.read));
    RecoveryStoreIsHarmless(c, s.ram, StoreWrite(s.boot.read), s.target);
  }

  lemma FixReadKeepsInv(c: Config, s: State)
    requires ValidConfig(c) && Agree(c, s.ram) && BootInv(c, s) && s.boot.BFixRead?
    ensures Inv(c, BootStep(c, s))
  {
    assert AsU32(s.boot.write) == s.boot.write;
    PerformKeepsAgree(c, s.ram, StoreRead(s.boot.write));
    RecoveryStoreIsHarmless(c, s.ram, StoreRead(s.boot.write), s.target);
  }

  lemma ZeroStepKeepsInv(c: Config, s: State)
    requires ValidConfig(c) && Agree(c, s.ram) && BootInv(c, s)
    requires s.boot.BZeroRead? || s.boot.BZeroWrite?
    ensures Inv(c, BootStep(c, s))
  {
    var store := if s.boot.BZeroRead? then StoreRead(0) else StoreWrite(0);
    PerformKeepsAgree(c, s.ram, store);
    RecoveryStoreIsHarmless(c, s.ram, store, s.target);
  }

  lemma BootFlushKeepsInv(c: Config, s: State)
    requires ValidConfig(c) && Agree(c, s.ram) && BootInv(c, s) && s.boot.BFlush?
    ensures Inv(c, BootStep(c, s))
  {
    PerformKeepsAgree(c, s.ram, StoreFlush);
    FlushCommits(c, s.ram);
    if !s.boot.anew {
      EntersService(c, s.(ram := Perform(c.cache, s.ram, StoreFlush)));
    }
  }

  lemma BootStepKeepsInv(c: Config, s: State)
    requires ValidConfig(c) && Agree(c, s.ram) && BootInv(c, s) && !s.boot.BDone? && !s.boot.BHeader?
    ensures Inv(c, BootStep(c, s))
  {
    if s.boot.BFixWrite? {
      FixWriteKeepsInv(c, s);
    } else if s.boot.BFixRead? {
      FixReadKeepsInv(c, s);
    } else if s.boot.BZeroRead? || s.boot.BZeroWrite? {
      ZeroStepKeepsInv(c, s);
    } else if s.boot.BFlush? {
      BootFlushKeepsInv(c, s);
    }
  }

  lemma HeaderStoreFacts(c: Config, ram: Ram, i: nat)
    requires ValidConfig(c) && Agree(c, ram) && i < 4
    requires ram.visible.read == ram.visible.write == ram.durable.read == ram.durable.write == 0
    requires RecoverImage(c.magic, ram.durable) == RecoverImage(c.magic, ram.visible)
    ensures var ram' := Perform(c.cache, ram, StoreHeader(i, c.magic[i]));
            && ram'.durable.read == ram'.durable.write == 0
            && ram'.durable.data == ram'.visible.data == ram.visible.data
            && RecoverImage(c.magic, ram'.durable) == RecoverImage(c.magic, ram.visible)
  {
  }

  lemma HeaderStepKeepsInv(c: Config, s: State, i: nat)
    requires ValidConfig(c) && Agree(c, s.ram) && BootInv(c, s)
    requires s.boot.BHeader? && i in s.boot.left && i < |c.magic|
    ensures Inv(c, HeaderStep(c, s, i))
  {
    PerformKeepsAgree(c, s.ram, StoreHeader(i, c.magic[i]));
    HeaderStoreFacts(c, s.ram, i);
    var s' := s.(ram := Perform(c.cache, s.ram, StoreHeader(i, c.magic[i])));
    if s.boot.left - {i} == {} {
      assert s.boot.left == {i};
      assert s'.ram.visible.header == c.magic;
      EntersService(c, s');
    }
  }

  // ---------- the durable queue ----------

  /** Once everything is durable, the durable queue is the visible one. */
  lemma CommittedInv(c: Config, m: Mem, prod: Prod, cons: Cons, k: Counters)
    requires ValidConfig(c) && QueueInv(c, m, k.hist, k.read, |k.hist|) && k.first <= k.read
    ensures DurableInv(c, Ram(m, m, None), prod, cons, k)
  {
  }

  /** `DurableInv` does not depend on which word is held. */
  lemma HeldIsIrrelevant(c: Config, ram: Ram, ram': Ram, prod: Prod, cons: Cons, k: Counters)
    requires ValidConfig(c) && ram.durable == ram'.durable && ram.visible == ram'.visible
    requires DurableInv(c, ram, prod, cons, k)
    ensures DurableInv(c, ram', prod, cons, k)
  {
  }

  // ---------- steps that only flush ----------

  lemma FlushKeepsInv(c: Config, s: State, prod: Prod, cons: Cons)
    requires ValidConfig(c) && Agree(c, s.ram) && s.boot.BDone? && ServiceInv(c, s)
    requires ConsInv(c, cons, s.ram.visible, s.counters)
    requires ProdInv(c, prod, Ram(s.ram.visible, s.ram.visible, None), s.counters)
    ensures Inv(c, Flushed(c, s).(prod := prod, cons := cons))
  {
    var ram', v := Flushed(c, s).ram, s.ram.visible;
    PerformKeepsAgree(c, s.ram, StoreFlush);
    FlushCommits(c, s.ram);
    CommittedInv(c, v, prod, cons, s.counters);
    HeldIsIrrelevant(c, Ram(v, v, None), ram', prod, cons, s.counters);
  }

  lemma DrainKeepsInv(c: Config, s: State)
    requires ValidConfig(c) && Inv(c, s)
    ensures Inv(c, s.(ram := Drain(s.ram)))
  {
    if s.boot.BDone? {
      CommittedInv(c, s.ram.visible, s.prod, s.cons, s.counters);
    }
  }

  /** After a reset, the image that recovery aims at is fixed by what is durable. */
  lemma ResetKeepsInv(c: Config, s: State)
    requires ValidConfig(c) && Agree(c, s.ram)
    ensures Inv(c, PowerOn(c, LosePower(s.ram)))
  {
  }

  // ---------- producer: copying ----------

  /** The accepted bytes fit, also when the loaded `read` is an old one. */
  lemma AcceptedBytesFit(c: Config, v: Mem, k: Counters, n: nat)
    requires ValidConfig(c) && CountersInv(c, k) && v.write == Cell(c.len, |k.hist|)
    requires n <= Available(c.len, Cell(c.len, k.readSeen), v.write)
    ensures |k.hist| + n < k.readSeen + c.len
  {
    QueueLenOfCounters(c.len, k.readSeen, |k.hist|);
  }

  lemma LoadWriteKeepsInv(c: Config, s: State)
    requires ValidConfig(c) && Agree(c, s.ram) && ServiceInv(c, s) && s.prod.PLoaded?
    ensures s.ram.visible.write < c.len && Agree(c, LoadWriteStep(c, s).ram) && ServiceInv(c, LoadWriteStep(c, s))
  {
    var s' := LoadWriteStep(c, s);
    AcceptedBytesFit(c, s.ram.visible, s.counters, if s'.prod.PCopy? then |s'.prod.job.bytes| else 0);
    LoadingKeepsDurable(c, s.ram, s.prod, s'.prod, s.cons, s.counters);
  }

  lemma LoadingKeepsDurable(c: Config, ram: Ram, prod: Prod, prod': Prod, cons: Cons, k: Counters)
    requires ValidConfig(c) && DurableInv(c, ram, prod, cons, k)
    requires !prod.PFlushIndex? && !prod'.PFlushIndex?
    ensures DurableInv(c, ram, prod', cons, k)
  {
  }

  /** Byte `j` of the call goes to the cell of its stream position, and no
      other position from the one last seen released up to the end of the call
      lives in that cell. */
  lemma CopyTarget(c: Config, job: Job, v: Mem, k: Counters, j: nat)
    requires ValidConfig(c) && JobInv(c, job, v, k) && j < |job.bytes|
    requires k.readSeen <= |k.hist| && v.write == Cell(c.len, |k.hist|)
    ensures CopyCell(c.len, job.write, |job.bytes|, j) == Cell(c.len, |k.hist| + j)
    ensures forall p: nat | job.seen <= p < |k.hist| + |job.bytes| && p != |k.hist| + j ::
              Cell(c.len, p) != Cell(c.len, |k.hist| + j)
  {
    var w, n := |k.hist|, |job.bytes|;
    QueueLenOfCounters(c.len, job.seen, w);
    CopyCellWraps(c.len, Cell(c.len, job.seen), job.write, n, j);
    CellAdd(c.len, w, j);
    forall p: nat | job.seen <= p < w + n && p != w + j
      ensures Cell(c.len, p) != Cell(c.len, w + j)
    {
      if p < w + j {
        CellsDiffer(c.len, p, w + j);
      } else {
        CellsDiffer(c.len, w + j, p);
      }
    }
  }

  /** The copied byte changes no stored byte and no byte copied before it. */
  lemma CopyKeepsStream(c: Config, job: Job, left: set<nat>, v: Mem, k: Counters, j: nat, v': Mem)
    requires ValidConfig(c) && JobInv(c, job, v, k) && CountersInv(c, k) && j < |job.bytes|
    requires QueueInv(c, v, k.hist, k.read, |k.hist|) && Copied(c, job, left, v.data, |k.hist|)
    requires v' == v.(data := v.data[Cell(c.len, |k.hist| + j) := job.bytes[j]])
    ensures QueueInv(c, v', k.hist, k.read, |k.hist|)
    ensures Copied(c, job, left - {j}, v'.data, |k.hist|)
  {
    CopyTarget(c, job, v, k, j);
    forall i: nat | i < |job.bytes| && i !in left - {j}
      ensures v'.data[Cell(c.len, |k.hist| + i)] == job.bytes[i]
    {
      if i != j {
        assert Cell(c.len, |k.hist| + i) != Cell(c.len, |k.hist| + j);
      }
    }
  }

  lemma CopyKeepsDurable(c: Config, ram: Ram, ram': Ram, prod: Prod, prod': Prod, cons: Cons, k: Counters)
    requires ValidConfig(c) && AfterDataStore(ram, ram')
    requires prod.PCopy? && (prod'.PCopy? || prod'.PFlushData?)
    requires ram'.visible == ram.visible.(data := ram'.visible.data)
    requires QueueInv(c, ram.visible, k.hist, k.read, |k.hist|)
    requires QueueInv(c, ram'.visible, k.hist, k.read, |k.hist|)
    requires DurableInv(c, ram, prod, cons, k) && k.first <= k.read
    ensures DurableInv(c, ram', prod', cons, k)
  {
  }

  lemma CopyKeepsInv(c: Config, s: State, j: nat)
    requires ValidConfig(c) && Agree(c, s.ram) && ServiceInv(c, s) && s.prod.PCopy? && j in s.prod.left
    ensures 0 <= CopyCell(c.len, s.prod.job.write, |s.prod.job.bytes|, j) < c.len
    ensures Agree(c, CopyStep(c, s, j).ram) && ServiceInv(c, CopyStep(c, s, j))
  {
    var job, k, v := s.prod.job, s.counters, s.ram.visible;
    CopyTarget(c, job, v, k, j);
    var store := StoreData(Cell(c.len, |k.hist| + j), job.bytes[j]);
    PerformKeepsAgree(c, s.ram, store);
    DataStoreFacts(c, s.ram, store);
    var s' := CopyStep(c, s, j);
    CopyKeepsStream(c, job, s.prod.left, v, k, j, s'.ram.visible);
    CopyKeepsDurable(c, s.ram, s'.ram, s.prod, s'.prod, s.cons, k);
    assert JobInv(c, job, s'.ram.visible, k);
  }

  // ---------- producer: publishing ----------

  lemma PublishKeepsStream(c: Config, job: Job, v: Mem, k: Counters, data: seq<u8>, from: nat)
    requires ValidConfig(c) && JobInv(c, job, v, k)
    requires Copied(c, job, {}, data, |k.hist|)
    requires from <= |k.hist| && Holds(c, data, k.hist, from, |k.hist|)
    ensures Holds(c, data, k.hist + job.bytes, from, |k.hist| + |job.bytes|)
  {
    forall p: nat | from <= p < |k.hist| + |job.bytes|
      ensures data[Cell(c.len, p)] == (k.hist + job.bytes)[p]
    {
      if p >= |k.hist| {
        assert p == |k.hist| + (p - |k.hist|);
      }
    }
  }

  lemma PublishedIndex(c: Config, job: Job, v: Mem, k: Counters)
    requires ValidConfig(c) && JobInv(c, job, v, k) && CountersInv(c, k)
    requires v.write == Cell(c.len, |k.hist|)
    ensures NewWrite(c.len, job.write, |job.bytes|) == Cell(c.len, |k.hist| + |job.bytes|) != v.write
    ensures job.write + |job.bytes| < U32_RANGE
  {
    NewWriteWraps(c.len, job.write, |job.bytes|);
    CellAdd(c.len, |k.hist|, |job.bytes|);
    CellsDiffer(c.len, |k.hist|, |k.hist| + |job.bytes|);
  }

  lemma PublishKeepsDurable(c: Config, ram: Ram, ram': Ram, job: Job, cons: Cons, k: Counters, k': Counters)
    requires ValidConfig(c) && JobInv(c, job, ram.visible, k) && CountersInv(c, k)
    requires k' == k.(hist := k.hist + job.bytes)
    requires ram'.visible == ram.visible.(write := Cell(c.len, |k'.hist|))
    requires Cell(c.len, |k'.hist|) != ram.visible.write
    requires AfterIndexStore(ram, StoreWrite(Cell(c.len, |k'.hist|)), ram')
    requires ram.durable.data == ram.visible.data
    requires QueueInv(c, ram.visible, k.hist, k.read, |k.hist|)
    requires QueueInv(c, ram'.visible, k'.hist, k.read, |k'.hist|)
    requires DurableInv(c, ram, PStoreIndex(job), cons, k)
    ensures DurableInv(c, ram', PFlushIndex(job), cons, k')
  {
    if ram'.durable == ram.visible {
    } else if ram'.durable == ram'.visible {
    }
  }

  lemma PublishKeepsService(c: Config, ram: Ram, ram': Ram, job: Job, cons: Cons, k: Counters, k': Counters)
    requires ValidConfig(c) && InService(c, ram, PStoreIndex(job), cons, k)
    requires k' == k.(hist := k.hist + job.bytes) && |k'.hist| < k.readSeen + c.len
    requires ram'.visible == ram.visible.(write := Cell(c.len, |k'.hist|))
    requires Cell(c.len, |k'.hist|) != ram.visible.write
    requires AfterIndexStore(ram, StoreWrite(Cell(c.len, |k'.hist|)), ram')
    ensures InService(c, ram', PFlushIndex(job), cons, k')
  {
    PublishKeepsStream(c, job, ram.visible, k, ram.visible.data, k.read);
    PublishKeepsDurable(c, ram, ram', job, cons, k, k');
    PublishKeepsConsumer(c, cons, ram.visible, ram'.visible, k, k');
    assert k'.hist[|k'.hist| - |job.bytes|..] == job.bytes;
  }

  lemma PublishKeepsConsumer(c: Config, cons: Cons, v: Mem, v': Mem, k: Counters, k': Counters)
    requires ValidConfig(c) && ConsInv(c, cons, v, k)
    requires v'.read == v.read && k' == k.(hist := k'.hist) && k.hist <= k'.hist
    ensures ConsInv(c, cons, v', k')
  {
  }

  lemma StoreIndexKeepsInv(c: Config, s: State)
    requires ValidConfig(c) && Agree(c, s.ram) && ServiceInv(c, s) && s.prod.PStoreIndex?
    ensures Agree(c, StoreIndexStep(c, s).ram) && ServiceInv(c, StoreIndexStep(c, s))
  {
    var job, k, v := s.prod.job, s.counters, s.ram.visible;
    PublishedIndex(c, job, v, k);
    var store := StoreWrite(NewWrite(c.len, job.write, |job.bytes|));
    PerformKeepsAgree(c, s.ram, store);
    IndexStoreFacts(c, s.ram, store);
    PublishKeepsService(c, s.ram, Perform(c.cache, s.ram, store), job, s.cons, k, k.(hist := k.hist + job.bytes));
  }

  // ---------- consumer ----------

  lemma LoadReadKeepsInv(c: Config, s: State)
    requires ValidConfig(c) && Agree(c, s.ram) && ServiceInv(c, s) && s.cons.CLoaded?
    ensures s.ram.visible.read < c.len && Agree(c, LoadReadStep(c, s).ram) && ServiceInv(c, LoadReadStep(c, s))
  {
    var s' := LoadReadStep(c, s);
    assert DurableInv(c, s'.ram, s'.prod, s'.cons, s'.counters);
  }

  /** The two slices of a grant are the stream from the read counter up to the
      write counter that the consumer saw. */
  lemma GrantShowsStream(c: Config, s: State)
    requires ValidConfig(c) && s.cons.CGranted?
    requires QueueInv(c, s.ram.visible, s.counters.hist, s.counters.read, |s.counters.hist|)
    requires CountersInv(c, s.counters) && ConsInv(c, s.cons, s.ram.visible, s.counters)
    ensures GrantInBounds(s)
    ensures s.cons.len1 + s.cons.len2 == s.counters.writeSeen - s.counters.read
    ensures Slices(s).0 + Slices(s).1 == s.counters.hist[s.counters.read..s.counters.writeSeen]
  {
    var data, k := s.ram.visible.data, s.counters;
    var write := Cell(c.len, k.writeSeen);
    QueueLenOfCounters(c.len, k.read, k.writeSeen);
    SlicesAreQueue(data, s.cons.read, write);
    QueueIsStream(c, data, k.hist, k.read, k.writeSeen);
  }

  lemma QueueIsStream(c: Config, data: seq<u8>, hist: seq<u8>, from: nat, to: nat)
    requires ValidConfig(c) && from <= to < from + c.len && Holds(c, data, hist, from, to)
    ensures Queue(data, Cell(c.len, from), Cell(c.len, to)) == hist[from..to]
  {
    QueueLenOfCounters(c.len, from, to);
    var q := Queue(data, Cell(c.len, from), Cell(c.len, to));
    forall i | 0 <= i < |q|
      ensures q[i] == hist[from..to][i]
    {
      QueuedByte(c, data, hist, from, to, i);
    }
  }

  lemma QueuedByte(c: Config, data: seq<u8>, hist: seq<u8>, from: nat, to: nat, i: nat)
    requires ValidConfig(c) && Holds(c, data, hist, from, to) && i < to - from < c.len
    ensures 0 <= Wrap(c.len, Cell(c.len, from) + i) < c.len
    ensures data[Wrap(c.len, Cell(c.len, from) + i)] == hist[from + i]
  {
    CellAdd(c.len, from, i);
  }

  lemma ReleasedIndex(c: Config, s: State, used: nat)
    requires ValidConfig(c) && s.cons.CGranted?
    requires QueueInv(c, s.ram.visible, s.counters.hist, s.counters.read, |s.counters.hist|)
    requires CountersInv(c, s.counters) && ConsInv(c, s.cons, s.ram.visible, s.counters)
    ensures var newRead := NewRead(c.len, s.cons.read, Used(s, used), s.cons.len1);
            && newRead == Cell(c.len, s.counters.read + Used(s, used))
            && AsU32(newRead) == newRead
            && (Used(s, used) > 0 ==> newRead != s.cons.read)
    ensures s.cons.read + Used(s, used) < U32_RANGE
  {
    GrantIsCounters(c, s);
    NewReadOfCounters(c.len, s.counters.read, s.counters.writeSeen, Used(s, used));
    IndexFits(c, Cell(c.len, s.counters.read + Used(s, used)));
  }

  /** A grant is as long as the counters are apart. */
  lemma GrantIsCounters(c: Config, s: State)
    requires ValidConfig(c) && s.cons.CGranted?
    requires QueueInv(c, s.ram.visible, s.counters.hist, s.counters.read, |s.counters.hist|)
    requires CountersInv(c, s.counters) && ConsInv(c, s.cons, s.ram.visible, s.counters)
    ensures s.cons.read == Cell(c.len, s.counters.read)
    ensures s.cons.len1 == SliceLens(c.len, s.cons.read, Cell(c.len, s.counters.writeSeen)).0
    ensures s.cons.len1 + s.cons.len2 == s.counters.writeSeen - s.counters.read < c.len
  {
    QueueLenOfCounters(c.len, s.counters.read, s.counters.writeSeen);
  }

  lemma IndexFits(c: Config, index: nat)
    requires ValidConfig(c) && index < c.len
    ensures AsU32(index) == index
  {
  }

  lemma ReleaseKeepsDurable(
    c: Config, ram: Ram, ram': Ram, prod: Prod, cons: Cons, cons': Cons, k: Counters, k': Counters)
    requires ValidConfig(c) && CountersInv(c, k)
    requires cons.CGranted? && cons'.CFlush? && cons'.before == k.read && |cons'.bytes| == k'.read - k.read
    requires k' == k.(read := k'.read) && k.read <= k'.read <= |k.hist|
    requires ram'.visible == ram.visible.(read := Cell(c.len, k'.read))
    requires k.read < k'.read ==> Cell(c.len, k'.read) != ram.visible.read
    requires AfterIndexStore(ram, StoreRead(Cell(c.len, k'.read)), ram')
    requires QueueInv(c, ram.visible, k.hist, k.read, |k.hist|)
    requires QueueInv(c, ram'.visible, k.hist, k'.read, |k.hist|)
    requires DurableInv(c, ram, prod, cons, k)
    ensures DurableInv(c, ram', prod, cons', k')
  {
    if ram'.durable == ram.visible {
    } else if ram'.durable == ram'.visible {
    }
  }

  lemma ReleaseKeepsQueue(c: Config, v: Mem, hist: seq<u8>, read: nat, read': nat)
    requires ValidConfig(c) && QueueInv(c, v, hist, read, |hist|) && read <= read' <= |hist|
    ensures QueueInv(c, v.(read := Cell(c.len, read')), hist, read', |hist|)
  {
  }

  lemma ReleaseKeepsProducer(c: Config, prod: Prod, ram: Ram, ram': Ram, k: Counters, read': nat)
    requires ValidConfig(c) && ProdInv(c, prod, ram, k)
    requires ram'.visible == ram.visible.(read := ram'.visible.read)
    requires AfterIndexStore(ram, StoreRead(ram'.visible.read), ram')
    ensures ProdInv(c, prod, ram', k.(read := read'))
  {
  }

  lemma ReleaseKeepsService(
    c: Config, ram: Ram, ram': Ram, prod: Prod, cons: Cons, cons': Cons, k: Counters, k': Counters, bytes: seq<u8>)
    requires ValidConfig(c) && InService(c, ram, prod, cons, k) && cons.CGranted?
    requires k.read + |bytes| <= k.writeSeen && |bytes| < c.len
    requires bytes == k.hist[k.read..k.read + |bytes|]
    requires ram'.visible == ram.visible.(read := Cell(c.len, k.read + |bytes|))
    requires |bytes| > 0 ==> Cell(c.len, k.read + |bytes|) != ram.visible.read
    requires AfterIndexStore(ram, StoreRead(Cell(c.len, k.read + |bytes|)), ram')
    requires cons' == CFlush(bytes, k.read) && k' == k.(read := k.read + |bytes|)
    ensures InService(c, ram', prod, cons', k')
  {
    ReleaseKeepsQueue(c, ram.visible, k.hist, k.read, k'.read);
    ReleaseKeepsProducer(c, prod, ram, ram', k, k'.read);
    ReleaseKeepsDurable(c, ram, ram', prod, cons, cons', k, k');
  }

  lemma ReleaseToKeepsInv(c: Config, s: State, index: nat, bytes: seq<u8>, s': State)
    requires ValidConfig(c) && Agree(c, s.ram) && ServiceInv(c, s) && s.cons.CGranted?
    requires s.counters.read + |bytes| <= s.counters.writeSeen && |bytes| < c.len
    requires bytes == s.counters.hist[s.counters.read..s.counters.read + |bytes|]
    requires index == Cell(c.len, s.counters.read + |bytes|)
    requires |bytes| > 0 ==> index != s.ram.visible.read
    requires s' == ReleaseTo(c, s, index, bytes)
    ensures Agree(c, s'.ram) && ServiceInv(c, s')
  {
    IndexStored(c, s.ram, StoreRead(index), s'.ram);
    ReleaseKeepsService(c, s.ram, s'.ram, s.prod, s.cons, s'.cons, s.counters, s'.counters, bytes);
  }

  lemma IndexStored(c: Config, ram: Ram, store: Store, ram': Ram)
    requires ValidConfig(c) && Agree(c, ram) && (store.StoreRead? || store.StoreWrite?)
    requires ram' == Perform(c.cache, ram, store)
    ensures Agree(c, ram') && AfterIndexStore(ram, store, ram') && ram'.visible == Apply(ram.visible, store)
  {
    PerformKeepsAgree(c, ram, store);
    IndexStoreFacts(c, ram, store);
  }

  lemma ReleasedBytesAreStream(c: Config, s: State, used: nat)
    requires ValidConfig(c) && ServiceInv(c, s) && s.cons.CGranted?
    ensures GrantInBounds(s)
    ensures s.counters.read + Used(s, used) <= s.counters.writeSeen <= |s.counters.hist|
    ensures ReleasedBytes(s, used) == s.counters.hist[s.counters.read..s.counters.read + Used(s, used)]
  {
    var k := s.counters;
    GrantShowsStream(c, s);
    FrontOfSlice(k.hist, k.read, k.writeSeen, Used(s, used));
  }

  lemma FrontOfSlice(hist: seq<u8>, from: nat, to: nat, n: nat)
    requires from <= to <= |hist| && n <= to - from
    ensures hist[from..to][..n] == hist[from..from + n]
  {
  }

  lemma ReleaseKeepsInv(c: Config, s: State, used: nat)
    requires ValidConfig(c) && Agree(c, s.ram) && ServiceInv(c, s) && s.cons.CGranted?
    ensures GrantInBounds(s)
    ensures 0 <= NewRead(c.len, s.cons.read, Used(s, used), s.cons.len1) < c.len
    ensures Agree(c, ReleaseStep(c, s, used).ram) && ServiceInv(c, ReleaseStep(c, s, used))
  {
    ReleasedBytesAreStream(c, s, used);
    ReleasedIndex(c, s, used);
    GrantIsShort(c, s);
    var index := AsU32(NewRead(c.len, s.cons.read, Used(s, used), s.cons.len1));
    ReleaseToKeepsInv(c, s, index, ReleasedBytes(s, used), ReleaseStep(c, s, used));
  }

  lemma GrantIsShort(c: Config, s: State)
    requires ValidConfig(c) && s.cons.CGranted? && ConsInv(c, s.cons, s.ram.visible, s.counters)
    ensures s.cons.len1 + s.cons.len2 < c.len
  {
  }
}
