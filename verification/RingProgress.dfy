/** Calls return, and what they do on their way: left alone, every call in
    progress completes, and the steps of a whole call make exactly the stores
    that the methods of `RingBuffers` are proved to make. */
module RingProgress {
  import opened Words
  import opened RingIndex
  import opened RingSpec
  import opened EccRam
  import opened RingStores
  import opened RingMachine
  import opened RingInvariant
  import opened RingTheorems
  import opened RingConsequences
  import RingSteps
  import RingRefinement

  // ---------- calls return ----------

  predicate OfProducer(a: Action) {
    a.ACallWrite? || a.ALoadWrite? || a.ACopy? || a.AFlushData? || a.AStoreIndex? || a.AFlushIndex?
  }

  /** How many more steps a `write` takes at most. */
  function WriteStepsLeft(prod: Prod): nat {
    match prod
    case PIdle => 0
    case PLoaded(data, _) => |data| + 4
    case PCopy(_, left) => |left| + 3
    case PFlushData(_) => 3
    case PStoreIndex(_) => 2
    case PFlushIndex(_) => 1
  }

  lemma {:induction false} BelowSize(n: nat)
    ensures |Below(n)| == n
  {
    if n > 0 {
      BelowSize(n - 1);
    }
  }

  lemma LoadAdvances(c: Config, s: State)
    requires ValidConfig(c) && s.prod.PLoaded? && s.ram.visible.write < c.len
    ensures WriteStepsLeft(LoadWriteStep(c, s).prod) < WriteStepsLeft(s.prod)
  {
    var prod' := LoadWriteStep(c, s).prod;
    if prod'.PCopy? {
      BelowSize(|prod'.job.bytes|);
    }
  }

  lemma WriteAdvances(c: Config, s: State) returns (a: Action)
    requires ValidConfig(c) && Inv(c, s) && s.boot.BDone? && !s.prod.PIdle?
    ensures Enabled(c, s, a) && InBounds(c, s, a) && OfProducer(a) && !a.ACallWrite?
    ensures WriteStepsLeft(Next(c, s, a).prod) < WriteStepsLeft(s.prod)
  {
    match s.prod {
      case PLoaded(_, _) =>
        a := ALoadWrite;
        StepKeepsInv(c, s, a);
        LoadAdvances(c, s);
      case PCopy(_, left) =>
        var j :| j in left;
        a := ACopy(j);
        StepKeepsInv(c, s, a);
        assert |left - {j}| < |left|;
      case PFlushData(_) => a := AFlushData;
      case PStoreIndex(_) => a := AStoreIndex;
      case PFlushIndex(_) => a := AFlushIndex;
    }
  }

  /** Whatever the producer is doing, and whatever the consumer was doing in the
      meantime: left alone, the `write` in progress returns. */
  lemma {:induction false} WriteReturns(c: Config, m: Mem, run: seq<Action>) returns (more: seq<Action>)
    requires ValidConfig(c) && AnyMemory(c, m) && Legal(c, Start(c, m), run)
    requires Exec(c, Start(c, m), run).boot.BDone?
    ensures |more| <= WriteStepsLeft(Exec(c, Start(c, m), run).prod)
    ensures forall a | a in more :: OfProducer(a) && !a.ACallWrite?
    ensures Legal(c, Start(c, m), run + more) && Exec(c, Start(c, m), run + more).prod.PIdle?
    decreases WriteStepsLeft(Exec(c, Start(c, m), run).prod)
  {
    var s := Exec(c, Start(c, m), run);
    RunKeepsInv(c, m, run);
    if s.prod.PIdle? {
      more := [];
      assert run + [] == run;
    } else {
      var a := WriteAdvances(c, s);
      ExecSnoc(c, Start(c, m), run, a);
      StepMovesCounters(c, s, a);
      var rest := WriteReturns(c, m, run + [a]);
      more := [a] + rest;
      AppendAssociates(run, [a], rest);
    }
  }

  function ReadStepsLeft(cons: Cons): nat {
    match cons
    case CIdle => 0
    case CChecking(_) => 1
    case CLoaded(_) => 3
    case CGranted(_, _, _) => 2
    case CFlush(_, _) => 1
  }

  lemma ReadAdvances(c: Config, s: State, used: nat) returns (a: Action)
    requires ValidConfig(c) && Inv(c, s) && s.boot.BDone? && !s.cons.CIdle?
    ensures Enabled(c, s, a) && InBounds(c, s, a) && OfConsumer(a)
    ensures ReadStepsLeft(Next(c, s, a).cons) < ReadStepsLeft(s.cons)
    ensures s.cons.CGranted? ==> a == ARelease(used)
  {
    a := match s.cons
      case CChecking(_) => ACompare
      case CLoaded(_) => ALoadRead
      case CGranted(_, _, _) => ARelease(used)
      case CFlush(_, _) => AFlushRelease;
    StepKeepsInv(c, s, a);
  }

  /** The same for the consumer, which releases `used` bytes of its grant. */
  lemma {:induction false} ReadReturns(c: Config, m: Mem, run: seq<Action>, used: nat) returns (more: seq<Action>)
    requires ValidConfig(c) && AnyMemory(c, m) && Legal(c, Start(c, m), run)
    requires Exec(c, Start(c, m), run).boot.BDone?
    ensures |more| <= ReadStepsLeft(Exec(c, Start(c, m), run).cons)
    ensures forall a | a in more :: OfConsumer(a) && (a.ARelease? ==> a.used == used)
    ensures Legal(c, Start(c, m), run + more) && Exec(c, Start(c, m), run + more).cons.CIdle?
    decreases ReadStepsLeft(Exec(c, Start(c, m), run).cons)
  {
    var s := Exec(c, Start(c, m), run);
    RunKeepsInv(c, m, run);
    if s.cons.CIdle? {
      more := [];
      assert run + [] == run;
    } else {
      var a := ReadAdvances(c, s, used);
      ExecSnoc(c, Start(c, m), run, a);
      StepMovesCounters(c, s, a);
      var rest := ReadReturns(c, m, run + [a], used);
      more := [a] + rest;
      AppendAssociates(run, [a], rest);
    }
  }

  // ---------- whole calls ----------

  function DoStores(stores: seq<Store>): seq<Op> {
    seq(|stores|, i requires 0 <= i < |stores| => DoStore(stores[i]))
  }

  /** The RAM after `stores` went through the cache. */
  function Through(c: Cache, ram: Ram, stores: seq<Store>): Ram {
    Execute(c, ram, DoStores(stores))
  }

  lemma ThroughSnoc(c: Cache, ram: Ram, stores: seq<Store>, s: Store)
    ensures Through(c, ram, stores + [s]) == Perform(c, Through(c, ram, stores), s)
  {
    assert DoStores(stores + [s])[..|stores|] == DoStores(stores);
  }

  lemma {:induction false} ThroughConcat(c: Cache, ram: Ram, a: seq<Store>, b: seq<Store>)
    ensures Through(c, ram, a + b) == Through(c, Through(c, ram, a), b)
    decreases |b|
  {
    if b == [] {
      assert a + b == a;
    } else {
      var n := |b| - 1;
      assert b == b[..n] + [b[n]] && a + b == a + b[..n] + [b[n]];
      ThroughConcat(c, ram, a, b[..n]);
      ThroughSnoc(c, ram, a + b[..n], b[n]);
      ThroughSnoc(c, Through(c, ram, a), b[..n], b[n]);
    }
  }

  lemma ThroughOne(c: Cache, ram: Ram, s: Store)
    ensures Through(c, ram, [s]) == Perform(c, ram, s)
  {
    ThroughSnoc(c, ram, [], s);
    assert [] + [s] == [s];
  }

  lemma {:induction false} ThroughVisible(c: Cache, ram: Ram, stores: seq<Store>)
    ensures Through(c, ram, stores).visible == After(ram.visible, stores)
  {
    if stores != [] {
      var n := |stores| - 1;
      assert stores == stores[..n] + [stores[n]];
      ThroughVisible(c, ram, stores[..n]);
      ThroughSnoc(c, ram, stores[..n], stores[n]);
    }
  }

  predicate ByProducer(call: seq<Action>) {
    forall a | a in call :: OfProducer(a)
  }

  /** One more step of a call that began in `s0`. */
  lemma OneMore(c: Config, s0: State, call: seq<Action>, s: State, a: Action)
    returns (call': seq<Action>, s': State)
    requires ValidConfig(c) && Legal(c, s0, call) && Exec(c, s0, call) == s && Inv(c, s) && Enabled(c, s, a)
    ensures InBounds(c, s, a) && call' == call + [a]
    ensures Legal(c, s0, call') && s' == Next(c, s, a) == Exec(c, s0, call') && Inv(c, s')
  {
    StepKeepsInv(c, s, a);
    ExecSnoc(c, s0, call, a);
    call', s' := call + [a], Next(c, s, a);
  }

  lemma CopyMakesStore(c: Config, s: State, j: nat)
    requires ValidConfig(c) && Inv(c, s) && s.boot.BDone? && s.prod.PCopy? && j < |s.prod.job.bytes|
    ensures s.prod.job.write < c.len && |s.prod.job.bytes| <= c.len
    ensures CopyCell(c.len, s.prod.job.write, |s.prod.job.bytes|, j) == Wrap(c.len, s.prod.job.write + j)
    ensures CopyStores(c.len, s.prod.job.write, s.prod.job.bytes)[j]
         == StoreData(CopyCell(c.len, s.prod.job.write, |s.prod.job.bytes|, j), s.prod.job.bytes[j])
  {
    var job, k := s.prod.job, s.counters;
    IndicesInBuffer(c, s);
    RingRefinement.JobFits(c, job, s.ram.visible, k);
    QueueLenOfCounters(c.len, job.seen, |k.hist|);
    CopyCellWraps(c.len, Cell(c.len, job.seen), job.write, |job.bytes|, j);
  }

  lemma ThroughFirst(c: Cache, ram: Ram, stores: seq<Store>, j: nat)
    requires j < |stores|
    ensures Through(c, ram, stores[j..]) == Through(c, Perform(c, ram, stores[j]), stores[j + 1..])
  {
    assert stores[j..] == [stores[j]] + stores[j + 1..];
    ThroughConcat(c, ram, [stores[j]], stores[j + 1..]);
    ThroughOne(c, ram, stores[j]);
  }

  lemma CopyOne(c: Config, s: State, j: nat, store: Store, s': State)
    requires ValidConfig(c) && s.prod.PCopy? && j < |s.prod.job.bytes|
    requires 0 <= CopyCell(c.len, s.prod.job.write, |s.prod.job.bytes|, j)
    requires forall i: nat :: i in s.prod.left <==> j <= i < |s.prod.job.bytes|
    requires store == StoreData(CopyCell(c.len, s.prod.job.write, |s.prod.job.bytes|, j), s.prod.job.bytes[j])
    requires s' == CopyStep(c, s, j)
    ensures s'.prod.PFlushData? || s'.prod.PCopy?
    ensures s' == s.(prod := s'.prod, ram := Perform(c.cache, s.ram, store)) && s'.prod.job == s.prod.job
    ensures if j + 1 == |s.prod.job.bytes| then s'.prod.PFlushData?
            else s'.prod.PCopy? && forall i: nat :: i in s'.prod.left <==> j + 1 <= i < |s.prod.job.bytes|
  {
    if j + 1 == |s.prod.job.bytes| {
      assert s.prod.left - {j} == {};
    } else {
      assert j + 1 in s.prod.left - {j};
    }
  }

  lemma CopyNext(c: Config, s0: State, call: seq<Action>, s: State, j: nat, store: Store)
    returns (call': seq<Action>, s': State)
    requires ValidConfig(c) && Legal(c, s0, call) && Exec(c, s0, call) == s && Inv(c, s) && ByProducer(call)
    requires s.boot.BDone? && s.prod.PCopy? && j < |s.prod.job.bytes|
    requires forall i: nat :: i in s.prod.left <==> j <= i < |s.prod.job.bytes|
    requires s.prod.job.write < c.len && |s.prod.job.bytes| <= c.len
    requires store == CopyStores(c.len, s.prod.job.write, s.prod.job.bytes)[j]
    ensures Legal(c, s0, call') && Exec(c, s0, call') == s' && Inv(c, s') && ByProducer(call')
    ensures s'.prod.PFlushData? || s'.prod.PCopy?
    ensures s' == s.(prod := s'.prod, ram := Perform(c.cache, s.ram, store)) && s'.prod.job == s.prod.job
    ensures if j + 1 == |s.prod.job.bytes| then s'.prod.PFlushData?
            else s'.prod.PCopy? && forall i: nat :: i in s'.prod.left <==> j + 1 <= i < |s.prod.job.bytes|
  {
    CopyMakesStore(c, s, j);
    call', s' := OneMore(c, s0, call, s, ACopy(j));
    CopyOne(c, s, j, store, s');
  }

  lemma {:induction false} CopySteps(c: Config, s0: State, call: seq<Action>, s: State, j: nat, stores: seq<Store>)
    returns (call': seq<Action>, s': State)
    requires ValidConfig(c) && Legal(c, s0, call) && Exec(c, s0, call) == s && Inv(c, s) && ByProducer(call)
    requires s.boot.BDone? && s.prod.PCopy? && j < |s.prod.job.bytes|
    requires forall i: nat :: i in s.prod.left <==> j <= i < |s.prod.job.bytes|
    requires s.prod.job.write < c.len && |s.prod.job.bytes| <= c.len
    requires stores == CopyStores(c.len, s.prod.job.write, s.prod.job.bytes)
    ensures Legal(c, s0, call') && Exec(c, s0, call') == s' && Inv(c, s') && ByProducer(call')
    ensures s' == s.(prod := PFlushData(s.prod.job), ram := Through(c.cache, s.ram, stores[j..]))
    decreases |s.prod.job.bytes| - j
  {
    var call1, s1 := CopyNext(c, s0, call, s, j, stores[j]);
    ThroughFirst(c.cache, s.ram, stores, j);
    if j + 1 == |s.prod.job.bytes| {
      assert stores[j + 1..] == [];
      call', s' := call1, s1;
    } else {
      call', s' := CopySteps(c, s0, call1, s1, j + 1, stores);
    }
  }

  lemma PublishSteps(c: Config, s0: State, call: seq<Action>, s: State)
    returns (call': seq<Action>, s': State)
    requires ValidConfig(c) && Legal(c, s0, call) && Exec(c, s0, call) == s && Inv(c, s) && ByProducer(call)
    requires s.boot.BDone? && s.prod.PFlushData?
    ensures Legal(c, s0, call') && Exec(c, s0, call') == s' && Inv(c, s') && ByProducer(call')
    ensures var job, k := s.prod.job, s.counters;
            var stores := [StoreFlush, StoreWrite(NewWrite(c.len, job.write, |job.bytes|)), StoreFlush];
            s' == s.(prod := PIdle, ram := Through(c.cache, s.ram, stores), counters := k.(hist := k.hist + job.bytes))
  {
    var index := StoreWrite(NewWrite(c.len, s.prod.job.write, |s.prod.job.bytes|));
    var call1, s1 := OneMore(c, s0, call, s, AFlushData);
    var call2, s2 := OneMore(c, s0, call1, s1, AStoreIndex);
    call', s' := OneMore(c, s0, call2, s2, AFlushIndex);
    ThroughThree(c.cache, s.ram, StoreFlush, index, StoreFlush);
  }

  lemma PublishedThrough(c: Cache, ram: Ram, ram1: Ram, ram2: Ram, v: Mem, accepted: seq<u8>)
    requires v.write < |v.data| && |accepted| <= |v.data| && 2 * |v.data| <= U32_RANGE
    requires ram1 == Through(c, ram, CopyStores(|v.data|, v.write, accepted))
    requires ram2 == Through(c, ram1, [StoreFlush, StoreWrite(NewWrite(|v.data|, v.write, |accepted|)), StoreFlush])
    ensures ram2 == Through(c, ram, PublishStores(v, accepted))
  {
    NewWriteWraps(|v.data|, v.write, |accepted|);
    ThroughConcat(c, ram, CopyStores(|v.data|, v.write, accepted),
                  [StoreFlush, StoreWrite(Wrap(|v.data|, v.write + |accepted|)), StoreFlush]);
  }

  lemma CopyAndPublish(c: Config, s0: State, call: seq<Action>, s: State, v: Mem, accepted: seq<u8>)
    returns (call': seq<Action>, s': State)
    requires ValidConfig(c) && Legal(c, s0, call) && Exec(c, s0, call) == s && Inv(c, s) && ByProducer(call)
    requires s.boot.BDone? && v.write < |v.data| == c.len && 0 < |accepted| <= c.len
    requires s.prod.PCopy? && s.prod.job.bytes == accepted && s.prod.job.write == v.write
    requires s.prod.left == Below(|accepted|)
    ensures Legal(c, s0, call') && Exec(c, s0, call') == s' && Inv(c, s') && ByProducer(call')
    ensures s' == s.(prod := PIdle, ram := Through(c.cache, s.ram, PublishStores(v, accepted)),
                     counters := s.counters.(hist := s.counters.hist + accepted))
  {
    var copies := CopyStores(c.len, v.write, accepted);
    var call1, s1 := CopySteps(c, s0, call, s, 0, copies);
    assert copies[0..] == copies;
    call', s' := PublishSteps(c, s0, call1, s1);
    PublishedThrough(c.cache, s.ram, s1.ram, s'.ram, v, accepted);
  }

  /** What the call works with after its loads, if it saw the current index. */
  function AfterLoads(s: State, data: seq<u8>): State
    requires s.ram.visible.read < |s.ram.visible.data| && s.ram.visible.write < |s.ram.visible.data|
  {
    var v, k := s.ram.visible, s.counters;
    var n := Accepted(v, data);
    s.(prod := if n == 0 then PIdle else PCopy(Job(data[..n], v.write, k.read), Below(n)),
       counters := k.(readSeen := k.read))
  }

  lemma LoadedJob(c: Config, s: State, data: seq<u8>, s1: State)
    requires ValidConfig(c) && ServiceInv(c, s) && s.boot.BDone? && s.prod.PIdle?
    requires Enabled(c, s, ACallWrite(data, s.counters.read))
    requires s1 == Next(c, s, ACallWrite(data, s.counters.read))
    ensures s.ram.visible.read < |s.ram.visible.data| == c.len && s.ram.visible.write < c.len
    ensures Enabled(c, s1, ALoadWrite) && InBounds(c, s1, ALoadWrite)
    ensures Next(c, s1, ALoadWrite) == AfterLoads(s, data)
  {
    IndicesInBuffer(c, s);
    AvailableIsFreeSpace(c.len, s.ram.visible.read, s.ram.visible.write);
  }

  lemma LoadSteps(c: Config, s: State, data: seq<u8>) returns (call: seq<Action>, s': State)
    requires ValidConfig(c) && Inv(c, s) && s.boot.BDone? && s.prod.PIdle?
    ensures Legal(c, s, call) && Exec(c, s, call) == s' && Inv(c, s') && ByProducer(call)
    ensures s.ram.visible.read < |s.ram.visible.data| && s.ram.visible.write < |s.ram.visible.data| == c.len
    ensures s' == AfterLoads(s, data)
  {
    var called, s1 := OneMore(c, s, [], s, ACallWrite(data, s.counters.read));
    LoadedJob(c, s, data, s1);
    call, s' := OneMore(c, s, called, s1, ALoadWrite);
  }

  /** The state after a whole `write` of `data`. */
  function AfterWrite(c: Config, s: State, data: seq<u8>): State
    requires s.ram.visible.read < |s.ram.visible.data| && s.ram.visible.write < |s.ram.visible.data|
  {
    var v, k := s.ram.visible, s.counters;
    s.(ram := Through(c.cache, s.ram, WriteStores(v, data)),
       counters := k.(readSeen := k.read, hist := k.hist + data[..Accepted(v, data)]))
  }

  lemma WriteSteps(c: Config, s: State, data: seq<u8>) returns (call: seq<Action>)
    requires ValidConfig(c) && Inv(c, s) && s.boot.BDone? && s.prod.PIdle?
    ensures s.ram.visible.read < |s.ram.visible.data| && s.ram.visible.write < |s.ram.visible.data|
    ensures Legal(c, s, call) && ByProducer(call) && Exec(c, s, call) == AfterWrite(c, s, data)
  {
    var v, s' := s.ram.visible, s;
    call, s' := LoadSteps(c, s, data);
    var n := Accepted(v, data);
    if n == 0 {
      AppendNothing(s.counters.hist);
      assert data[..0] == [];
    } else {
      call, s' := CopyAndPublish(c, s, call, s', v, data[..n]);
    }
  }

  /** A whole `write`: its steps, run from any moment of service at which no
      other `write` is in progress, return, and make exactly the stores that
      `Producer.Write` is proved to make, through whatever cache there is. */
  lemma WholeWrite(c: Config, m: Mem, run: seq<Action>, data: seq<u8>) returns (call: seq<Action>)
    requires ValidConfig(c) && AnyMemory(c, m) && Legal(c, Start(c, m), run)
    requires Exec(c, Start(c, m), run).boot.BDone? && Exec(c, Start(c, m), run).prod.PIdle?
    ensures ByProducer(call) && Legal(c, Start(c, m), run + call)
    ensures var s, s' := Exec(c, Start(c, m), run), Exec(c, Start(c, m), run + call);
            && Ready(c.magic, s.ram.visible)
            && s' == AfterWrite(c, s, data)
            && s'.ram.visible == WriteImage(s.ram.visible, data)
  {
    var s := Exec(c, Start(c, m), run);
    RunKeepsInv(c, m, run);
    call := WriteSteps(c, s, data);
    RunsJoin(c, Start(c, m), run, call);
    ThroughVisible(c.cache, s.ram, WriteStores(s.ram.visible, data));
    WriteStoresWrite(s.ram.visible, data);
  }

  lemma {:induction false} RunsJoin(c: Config, s: State, run: seq<Action>, more: seq<Action>)
    requires 0 < c.len && Legal(c, s, run) && Legal(c, Exec(c, s, run), more)
    ensures Legal(c, s, run + more) && Exec(c, s, run + more) == Exec(c, Exec(c, s, run), more)
    decreases |more|
  {
    if more == [] {
      assert run + more == run;
    } else {
      var n := |more| - 1;
      var before, a := more[..n], more[n];
      assert more == before + [a];
      LastStep(c, Exec(c, s, run), before, a);
      RunsJoin(c, s, run, before);
      ExecSnoc(c, s, run + before, a);
      assert run + more == run + before + [a];
    }
  }

  // ---------- the consumer's calls ----------

  /** The state after a whole `release` of `used` bytes. */
  function AfterRelease(c: Config, s: State, used: nat): State
    requires s.ram.visible.read < |s.ram.visible.data| && s.ram.visible.write < |s.ram.visible.data|
    requires s.cons.CGranted?
    requires Used(s, used) <= QueueLen(|s.ram.visible.data|, s.ram.visible.read, s.ram.visible.write)
  {
    s.(ram := Through(c.cache, s.ram, ReleaseStores(s.ram.visible, Used(s, used))),
       cons := CIdle,
       counters := s.counters.(read := s.counters.read + Used(s, used)))
  }

  lemma ReleaseThrough(c: Cache, ram: Ram, used: nat, ram1: Ram, ram2: Ram)
    requires ram.visible.read < |ram.visible.data| && ram.visible.write < |ram.visible.data|
    requires used <= QueueLen(|ram.visible.data|, ram.visible.read, ram.visible.write)
    requires ram1 == Perform(c, ram, StoreRead(Wrap(|ram.visible.data|, ram.visible.read + used)))
    requires ram2 == Perform(c, ram1, StoreFlush)
    ensures ram2 == Through(c, ram, ReleaseStores(ram.visible, used))
  {
    var index := StoreRead(Wrap(|ram.visible.data|, ram.visible.read + used));
    ThroughOne(c, ram, index);
    ThroughSnoc(c, ram, [index], StoreFlush);
    assert [index] + [StoreFlush] == [index, StoreFlush];
  }

  lemma ReleaseStoresIndex(c: Config, s: State, used: nat, s': State)
    requires ValidConfig(c) && Inv(c, s) && s.boot.BDone? && s.cons.CGranted? && GrantInBounds(s)
    requires 0 <= NewRead(c.len, s.cons.read, Used(s, used), s.cons.len1) && s' == ReleaseStep(c, s, used)
    ensures var v := s.ram.visible;
            && v.read < |v.data| && v.write < |v.data| && Used(s, used) <= QueueLen(|v.data|, v.read, v.write)
            && 0 <= Wrap(|v.data|, v.read + Used(s, used))
            && s'.ram == Perform(c.cache, s.ram, StoreRead(Wrap(|v.data|, v.read + Used(s, used))))
            && s' == s.(ram := s'.ram, cons := s'.cons,
                        counters := s.counters.(read := s.counters.read + Used(s, used)))
            && s'.cons.CFlush?
  {
    RingRefinement.ReleaseStepImage(c, s, used);
    PerformKeepsAgree(c, s.ram, StoreRead(AsU32(NewRead(c.len, s.cons.read, Used(s, used), s.cons.len1))));
  }

  lemma ReleaseSteps(c: Config, s: State, used: nat) returns (call: seq<Action>, s': State)
    requires ValidConfig(c) && Inv(c, s) && s.boot.BDone? && s.cons.CGranted?
    ensures call == [ARelease(used), AFlushRelease] && Legal(c, s, call) && Exec(c, s, call) == s'
    ensures var v := s.ram.visible;
            && v.read < |v.data| && v.write < |v.data| && Used(s, used) <= QueueLen(|v.data|, v.read, v.write)
            && s' == AfterRelease(c, s, used)
  {
    var called, s1 := OneMore(c, s, [], s, ARelease(used));
    ReleaseStoresIndex(c, s, used, s1);
    ExecSnoc(c, s, called, AFlushRelease);
    call, s' := called + [AFlushRelease], Next(c, s1, AFlushRelease);
    ReleaseThrough(c.cache, s.ram, Used(s, used), s1.ram, s'.ram);
  }

  /** A whole `release`, in the same way. */
  lemma WholeRelease(c: Config, m: Mem, run: seq<Action>, used: nat) returns (call: seq<Action>)
    requires ValidConfig(c) && AnyMemory(c, m) && Legal(c, Start(c, m), run)
    requires Exec(c, Start(c, m), run).boot.BDone? && Exec(c, Start(c, m), run).cons.CGranted?
    ensures call == [ARelease(used), AFlushRelease] && Legal(c, Start(c, m), run + call)
    ensures var s, s' := Exec(c, Start(c, m), run), Exec(c, Start(c, m), run + call);
            var v := s.ram.visible;
            && Ready(c.magic, v) && GrantInBounds(s)
            && Used(s, used) == Min(used, |Granted(s)|) <= QueueLen(|v.data|, v.read, v.write)
            && s' == AfterRelease(c, s, used)
            && s'.ram.visible == ReleaseImage(v, Min(used, |Granted(s)|))
  {
    var s := Exec(c, Start(c, m), run);
    RunKeepsInv(c, m, run);
    var s';
    call, s' := ReleaseSteps(c, s, used);
    RunsJoin(c, Start(c, m), run, call);
    ThroughVisible(c.cache, s.ram, ReleaseStores(s.ram.visible, Used(s, used)));
    ReleaseStoresRelease(s.ram.visible, Used(s, used));
  }

  /** A whole `read` that sees the current write index grants the whole queue and
      touches nothing else. */
  lemma WholeRead(c: Config, m: Mem, run: seq<Action>, s: State) returns (call: seq<Action>, s': State)
    requires ValidConfig(c) && AnyMemory(c, m) && Legal(c, Start(c, m), run) && s == Exec(c, Start(c, m), run)
    requires s.boot.BDone? && s.cons.CIdle?
    ensures call == [ACallRead(|s.counters.hist|), ALoadRead]
    ensures Legal(c, Start(c, m), run + call) && Exec(c, Start(c, m), run + call) == s'
    ensures GrantInBounds(s') && Granted(s') == Content(c, s')
    ensures s' == s.(cons := s'.cons, counters := s.counters.(writeSeen := |s.counters.hist|))
  {
    RunKeepsInv(c, m, run);
    call, s' := ReadSteps(c, s);
    RunsJoin(c, Start(c, m), run, call);
  }

  lemma ReadSteps(c: Config, s: State) returns (call: seq<Action>, s': State)
    requires ValidConfig(c) && Inv(c, s) && s.boot.BDone? && s.cons.CIdle?
    ensures call == [ACallRead(|s.counters.hist|), ALoadRead] && Legal(c, s, call) && Exec(c, s, call) == s'
    ensures GrantInBounds(s') && Granted(s') == Content(c, s')
    ensures s' == s.(cons := s'.cons, counters := s.counters.(writeSeen := |s.counters.hist|))
  {
    var called, s1 := OneMore(c, s, [], s, ACallRead(|s.counters.hist|));
    call, s' := OneMore(c, s, called, s1, ALoadRead);
    GrantIsQueue(c, s');
  }

  lemma GrantIsQueue(c: Config, s: State)
    requires ValidConfig(c) && ServiceInv(c, s) && s.cons.CGranted? && s.counters.writeSeen == |s.counters.hist|
    ensures GrantInBounds(s) && Granted(s) == Content(c, s)
  {
    RingSteps.GrantShowsStream(c, s);
    ContentIsStream(c, s);
    assert s.counters.hist[s.counters.read..|s.counters.hist|] == s.counters.hist[s.counters.read..];
  }

  /** A grant that is dropped releases nothing: a `read` right after it grants the
      same bytes again, and what was published since. */
  lemma DroppedGrantComesBack(c: Config, m: Mem, run: seq<Action>, s: State)
    returns (more: seq<Action>, s': State)
    requires ValidConfig(c) && AnyMemory(c, m) && Legal(c, Start(c, m), run) && s == Exec(c, Start(c, m), run)
    requires s.boot.BDone? && s.cons.CGranted?
    ensures more == [ADropGrant, ACallRead(|s.counters.hist|), ALoadRead]
    ensures Legal(c, Start(c, m), run + more) && Exec(c, Start(c, m), run + more) == s'
    ensures GrantInBounds(s) && GrantInBounds(s') && Granted(s) <= Granted(s') == Content(c, s)
    ensures s'.ram == s.ram && s'.counters.read == s.counters.read
  {
    RunKeepsInv(c, m, run);
    GrantIsContent(c, s);
    ExecSnoc(c, Start(c, m), run, ADropGrant);
    var call;
    call, s' := WholeRead(c, m, run + [ADropGrant], Next(c, s, ADropGrant));
    more := [ADropGrant] + call;
    AppendAssociates(run, [ADropGrant], call);
  }

  /** A whole `is_empty` that sees the current write index answers whether the
      queue is empty, and leaves everything as it is. */
  lemma WholeIsEmpty(c: Config, m: Mem, run: seq<Action>, s: State) returns (asked: State, call: seq<Action>)
    requires ValidConfig(c) && AnyMemory(c, m) && Legal(c, Start(c, m), run) && s == Exec(c, Start(c, m), run)
    requires s.boot.BDone? && s.cons.CIdle?
    ensures call == [ACallIsEmpty(|s.counters.hist|), ACompare]
    ensures asked.cons.CChecking? && (Answer(c, asked) <==> Content(c, s) == [])
    ensures Legal(c, Start(c, m), run + call[..1]) && Exec(c, Start(c, m), run + call[..1]) == asked
    ensures Legal(c, Start(c, m), run + call)
    ensures Exec(c, Start(c, m), run + call) == s.(counters := s.counters.(writeSeen := |s.counters.hist|))
  {
    RunKeepsInv(c, m, run);
    var first, s';
    first, asked := OneMore(c, s, [], s, ACallIsEmpty(|s.counters.hist|));
    call, s' := OneMore(c, s, first, asked, ACompare);
    assert call[..1] == first;
    RunsJoin(c, Start(c, m), run, first);
    RunsJoin(c, Start(c, m), run, call);
    ContentIsStream(c, s);
    QueueLenOfCounters(c.len, s.counters.read, |s.counters.hist|);
  }

  // ---------- a whole recovery ----------

  lemma BootOnce(c: Config, s0: State, call: seq<Action>, s: State)
    returns (call': seq<Action>, s': State)
    requires ValidConfig(c) && Legal(c, s0, call) && Exec(c, s0, call) == s && Inv(c, s)
    requires !s.boot.BDone? && !s.boot.BHeader? && OnlyRecovery(call) && NoReset(call)
    ensures Legal(c, s0, call') && s' == BootStep(c, s) == Exec(c, s0, call') && Inv(c, s')
    ensures OnlyRecovery(call') && NoReset(call')
  {
    call', s' := OneMore(c, s0, call, s, ABoot);
  }

  lemma HeaderOne(c: Config, s: State, i: nat, s': State)
    requires ValidConfig(c) && s.boot.BHeader? && i < 4 && forall j: nat :: j in s.boot.left <==> i <= j < 4
    requires s' == HeaderStep(c, s, i)
    ensures s'.ram == Perform(c.cache, s.ram, HeaderStores(c.magic)[i])
    ensures if i == 3 then s'.boot.BDone?
            else s'.boot.BHeader? && forall j: nat :: j in s'.boot.left <==> i + 1 <= j < 4
  {
    if i == 3 {
      assert s.boot.left - {i} == {};
    } else {
      assert i + 1 in s.boot.left - {i};
    }
  }

  lemma {:induction false} HeaderSteps(c: Config, s0: State, call: seq<Action>, s: State, i: nat)
    returns (call': seq<Action>, s': State)
    requires ValidConfig(c) && Legal(c, s0, call) && Exec(c, s0, call) == s && Inv(c, s)
    requires OnlyRecovery(call) && NoReset(call)
    requires s.boot.BHeader? && i < 4 && forall j: nat :: j in s.boot.left <==> i <= j < 4
    ensures Legal(c, s0, call') && Exec(c, s0, call') == s' && s'.boot.BDone?
    ensures OnlyRecovery(call') && NoReset(call')
    ensures s'.ram == Through(c.cache, s.ram, HeaderStores(c.magic)[i..])
    decreases 4 - i
  {
    var call1, s1 := OneMore(c, s0, call, s, ABootHeader(i));
    ThroughFirst(c.cache, s.ram, HeaderStores(c.magic), i);
    HeaderOne(c, s, i, s1);
    if i == 3 {
      assert HeaderStores(c.magic)[4..] == [];
      call', s' := call1, s1;
    } else {
      call', s' := HeaderSteps(c, s0, call1, s1, i + 1);
    }
  }

  lemma NewQueueSteps(c: Config, m: Mem, call: seq<Action>, s: State) returns (call': seq<Action>, s': State)
    requires ValidConfig(c) && AnyMemory(c, m) && Legal(c, Start(c, m), call) && Exec(c, Start(c, m), call) == s
    requires Inv(c, s) && OnlyRecovery(call) && NoReset(call)
    requires s.boot == BZeroRead(true) && s.ram == Ram(m, m, None) && m.header != c.magic
    ensures Legal(c, Start(c, m), call') && Exec(c, Start(c, m), call') == s' && s'.boot.BDone?
    ensures OnlyRecovery(call') && NoReset(call')
    ensures s'.ram == Through(c.cache, Ram(m, m, None), RecoverStores(c.magic, m))
  {
    var call1, s1 := ZeroSteps(c, m, call, s);
    call', s' := HeaderSteps(c, Start(c, m), call1, s1, 0);
    NewQueueThrough(c, m, s1.ram, s'.ram);
  }

  lemma NewQueueThrough(c: Config, m: Mem, ram1: Ram, ram2: Ram)
    requires ValidConfig(c) && m.header != c.magic
    requires ram1 == Through(c.cache, Ram(m, m, None), [StoreRead(0), StoreWrite(0), StoreFlush])
    requires ram2 == Through(c.cache, ram1, HeaderStores(c.magic)[0..])
    ensures ram2 == Through(c.cache, Ram(m, m, None), RecoverStores(c.magic, m))
  {
    assert HeaderStores(c.magic)[0..] == HeaderStores(c.magic);
    ThroughConcat(c.cache, Ram(m, m, None), [StoreRead(0), StoreWrite(0), StoreFlush], HeaderStores(c.magic));
  }

  lemma ThroughThree(c: Cache, ram: Ram, a: Store, b: Store, d: Store)
    ensures Through(c, ram, [a, b]) == Perform(c, Perform(c, ram, a), b)
    ensures Through(c, ram, [a, b, d]) == Perform(c, Perform(c, Perform(c, ram, a), b), d)
  {
    ThroughOne(c, ram, a);
    ThroughSnoc(c, ram, [a], b);
    ThroughSnoc(c, ram, [a, b], d);
    assert [a] + [b] == [a, b] && [a, b] + [d] == [a, b, d];
  }

  lemma ZeroSteps(c: Config, m: Mem, call: seq<Action>, s: State) returns (call': seq<Action>, s': State)
    requires ValidConfig(c) && AnyMemory(c, m) && Legal(c, Start(c, m), call) && Exec(c, Start(c, m), call) == s
    requires Inv(c, s) && OnlyRecovery(call) && NoReset(call)
    requires s.boot.BZeroRead? && s.ram == Ram(m, m, None)
    ensures Legal(c, Start(c, m), call') && Exec(c, Start(c, m), call') == s' && Inv(c, s')
    ensures OnlyRecovery(call') && NoReset(call')
    ensures s'.ram == Through(c.cache, Ram(m, m, None), [StoreRead(0), StoreWrite(0), StoreFlush])
    ensures if s.boot.anew then s'.boot == BHeader({0, 1, 2, 3}) else s'.boot.BDone?
  {
    ThroughThree(c.cache, s.ram, StoreRead(0), StoreWrite(0), StoreFlush);
    var call1, s1 := BootOnce(c, Start(c, m), call, s);
    var call2, s2 := BootOnce(c, Start(c, m), call1, s1);
    call', s' := BootOnce(c, Start(c, m), call2, s2);
  }

  lemma FixSteps(c: Config, m: Mem, call: seq<Action>, s: State, fix: Store)
    returns (call': seq<Action>, s': State)
    requires ValidConfig(c) && AnyMemory(c, m) && Legal(c, Start(c, m), call) && Exec(c, Start(c, m), call) == s
    requires Inv(c, s) && OnlyRecovery(call) && NoReset(call) && s.ram == Ram(m, m, None)
    requires match s.boot
             case BFixWrite(read) => fix == StoreWrite(read)
             case BFixRead(write) => fix == StoreRead(write)
             case _ => false
    ensures Legal(c, Start(c, m), call') && Exec(c, Start(c, m), call') == s' && s'.boot.BDone?
    ensures OnlyRecovery(call') && NoReset(call')
    ensures s'.ram == Through(c.cache, Ram(m, m, None), [fix, StoreFlush])
  {
    ThroughThree(c.cache, s.ram, fix, StoreFlush, StoreFlush);
    RecoveryArithmetic(c, s);
    var call1, s1 := BootOnce(c, Start(c, m), call, s);
    call', s' := BootOnce(c, Start(c, m), call1, s1);
  }

  lemma OldQueueSteps(c: Config, m: Mem, call: seq<Action>, s: State) returns (call': seq<Action>, s': State)
    requires ValidConfig(c) && AnyMemory(c, m) && Legal(c, Start(c, m), call) && Exec(c, Start(c, m), call) == s
    requires Inv(c, s) && OnlyRecovery(call) && NoReset(call)
    requires s.boot == BLoadRead(m.write) && s.ram == Ram(m, m, None) && m.header == c.magic
    ensures Legal(c, Start(c, m), call') && Exec(c, Start(c, m), call') == s' && s'.boot.BDone?
    ensures OnlyRecovery(call') && NoReset(call')
    ensures s'.ram == Through(c.cache, Ram(m, m, None), RecoverStores(c.magic, m))
  {
    var call1, s1 := BootOnce(c, Start(c, m), call, s);
    match s1.boot {
      case BFlush(_) =>
        ThroughOne(c.cache, s.ram, StoreFlush);
        call', s' := BootOnce(c, Start(c, m), call1, s1);
      case BFixWrite(read) => call', s' := FixSteps(c, m, call1, s1, StoreWrite(read));
      case BFixRead(write) => call', s' := FixSteps(c, m, call1, s1, StoreRead(write));
      case BZeroRead(_) => call', s' := ZeroSteps(c, m, call1, s1);
    }
  }

  /** A whole recovery, from power-on with any memory: its steps return, and make
      exactly the stores that `RecoverOrReinitialize` is proved to make. */
  lemma WholeRecovery(c: Config, m: Mem) returns (call: seq<Action>)
    requires ValidConfig(c) && AnyMemory(c, m)
    ensures Legal(c, Start(c, m), call) && OnlyRecovery(call) && NoReset(call)
    ensures var s' := Exec(c, Start(c, m), call);
            && s'.boot.BDone?
            && s'.ram == Through(c.cache, Ram(m, m, None), RecoverStores(c.magic, m))
            && s'.ram.visible == RecoverImage(c.magic, m)
  {
    var s := Start(c, m);
    RunKeepsInv(c, m, []);
    var s';
    call, s' := BootOnce(c, s, [], s);
    if m.header != c.magic {
      call, s' := NewQueueSteps(c, m, call, s');
    } else {
      call, s' := BootOnce(c, s, call, s');
      call, s' := OldQueueSteps(c, m, call, s');
    }
    ThroughVisible(c.cache, Ram(m, m, None), RecoverStores(c.magic, m));
    RecoverStoresRecover(c.magic, m);
  }

  // ---------- what a reset takes back ----------

  /** The loss is real, and exactly this: behind a write-back cache, a `write`
      that has just stored its index would be undone by a reset, whole, and so
      would a `release`; with every other kind of RAM nothing would. */
  lemma UnflushedIndexIsLost(c: Config, m: Mem, run: seq<Action>, s: State, a: Action)
    requires ValidConfig(c) && AnyMemory(c, m) && Legal(c, Start(c, m), run) && s == Exec(c, Start(c, m), run)
    requires Enabled(c, s, a) && InBounds(c, s, a)
    ensures a.AStoreIndex? ==>
              Lost(Next(c, s, a).ram, Next(c, s, a).prod)
              == if c.cache.OneWord? && WriteBack(c.cache) then Published(s, a) else []
    ensures a.ARelease? ==>
              Redelivered(Next(c, s, a).ram, Next(c, s, a).cons)
              == if c.cache.OneWord? && WriteBack(c.cache) then Released(s, a) else []
  {
    RunKeepsInv(c, m, run);
    if a.AStoreIndex? {
      IndexStaysCached(c, s.ram, StoreWrite(NewWrite(c.len, s.prod.job.write, |s.prod.job.bytes|)));
      RingSteps.PublishedIndex(c, s.prod.job, s.ram.visible, s.counters);
    } else if a.ARelease? {
      var index := NewRead(c.len, s.cons.read, Used(s, a.used), s.cons.len1);
      IndexStaysCached(c, s.ram, StoreRead(AsU32(index)));
      RingSteps.ReleasedIndex(c, s, a.used);
    }
  }

  lemma IndexStaysCached(c: Config, ram: Ram, store: Store)
    requires ValidConfig(c) && Agree(c, ram)
    requires if store.StoreWrite? then ram.durable.write == ram.visible.write
             else store.StoreRead? && ram.durable.read == ram.visible.read
    ensures var ram', cached := Perform(c.cache, ram, store), c.cache.OneWord? && WriteBack(c.cache);
            if store.StoreWrite? then
              && ram'.visible.write == store.index
              && ram'.durable.write == if cached then ram.visible.write else store.index
            else
              && ram'.visible.read == store.index
              && ram'.durable.read == if cached then ram.visible.read else store.index
  {
  }

  /** A reset is possible at every moment, and begins a run of its own from what
      was durable; and the cache may commit its word at every moment. */
  lemma ResetAnywhere(c: Config, m: Mem, run: seq<Action>)
    requires ValidConfig(c) && AnyMemory(c, m) && Legal(c, Start(c, m), run)
    ensures AnyMemory(c, Exec(c, Start(c, m), run).ram.durable)
    ensures Legal(c, Start(c, m), run + [AReset]) && Legal(c, Start(c, m), run + [ADrain])
    ensures Exec(c, Start(c, m), run + [AReset]) == Start(c, Exec(c, Start(c, m), run).ram.durable)
    ensures var s, s' := Exec(c, Start(c, m), run), Exec(c, Start(c, m), run + [ADrain]);
            s' == s.(ram := s'.ram) && s'.ram.durable == s'.ram.visible == s.ram.visible
  {
    RunKeepsInv(c, m, run);
    ExecSnoc(c, Start(c, m), run, AReset);
    ExecSnoc(c, Start(c, m), run, ADrain);
  }

  // ---------- old index values ----------

  lemma {:induction false} CountersOnlyGrow(c: Config, s: State, later: seq<Action>)
    requires ValidConfig(c) && Inv(c, s) && s.boot.BDone? && Legal(c, s, later) && NoReset(later)
    ensures var s' := Exec(c, s, later);
            && Inv(c, s') && s'.boot.BDone?
            && s.counters.read <= s'.counters.read && |s.counters.hist| <= |s'.counters.hist|
            && ((forall a | a in later :: !a.ACallWrite?) ==> s'.counters.readSeen == s.counters.readSeen)
            && ((forall a | a in later :: !a.ACallRead? && !a.ACallIsEmpty?) ==>
                  s'.counters.writeSeen == s.counters.writeSeen)
    decreases |later|
  {
    if later != [] {
      var n := |later| - 1;
      CountersOnlyGrow(c, s, later[..n]);
      StepOnlyGrows(c, Exec(c, s, later[..n]), later[n], Exec(c, s, later));
      assert later[n] in later;
    }
  }

  lemma StepOnlyGrows(c: Config, s: State, a: Action, s': State)
    requires ValidConfig(c) && Inv(c, s) && s.boot.BDone? && !a.AReset?
    requires Enabled(c, s, a) && InBounds(c, s, a) && s' == Next(c, s, a)
    ensures Inv(c, s') && s'.boot.BDone?
    ensures s.counters.read <= s'.counters.read && |s.counters.hist| <= |s'.counters.hist|
    ensures !a.ACallWrite? ==> s'.counters.readSeen == s.counters.readSeen
    ensures !a.ACallRead? && !a.ACallIsEmpty? ==> s'.counters.writeSeen == s.counters.writeSeen
  {
    StepMovesCounters(c, s, a);
    StepKeepsInv(c, s, a);
  }

  /** A load may return any value the index has had since this side loaded it
      last: whatever the read counter was at some moment, a `write` that begins
      later may work with it, unless another one loaded a newer one; and so with
      the write counter and the consumer. */
  lemma OldIndexCanBeLoaded(c: Config, m: Mem, run: seq<Action>, later: seq<Action>, data: seq<u8>)
    requires ValidConfig(c) && AnyMemory(c, m) && Legal(c, Start(c, m), run + later) && NoReset(later)
    requires Legal(c, Start(c, m), run) && Exec(c, Start(c, m), run).boot.BDone?
    ensures var k, s := Exec(c, Start(c, m), run).counters, Exec(c, Start(c, m), run + later);
            && (s.prod.PIdle? && (forall a | a in later :: !a.ACallWrite?) ==>
                  Enabled(c, s, ACallWrite(data, k.read)))
            && (s.cons.CIdle? && (forall a | a in later :: !a.ACallRead? && !a.ACallIsEmpty?) ==>
                  Enabled(c, s, ACallRead(|k.hist|)) && Enabled(c, s, ACallIsEmpty(|k.hist|)))
  {
    RunKeepsInv(c, m, run);
    RunGoesOn(c, Start(c, m), run, later);
    CountersOnlyGrow(c, Exec(c, Start(c, m), run), later);
  }
}
