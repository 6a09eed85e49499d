/** The invariant of the step system, and that every step keeps it. */
module RingInvariant {
  import opened Words
  import opened RingIndex
  import opened RingSpec
  import opened EccRam
  import opened RingMachine

  // ---------- the cache ----------

  function ReadWord(c: Config): nat
    requires c.cache.OneWord?
  {
    WordOf(c.cache.width, StoreRead(0))
  }

  function WriteWord(c: Config): nat
    requires c.cache.OneWord?
  {
    WordOf(c.cache.width, StoreWrite(0))
  }

  function FlushWord(c: Config): nat
    requires c.cache.OneWord?
  {
    WordOf(c.cache.width, StoreFlush)
  }

  /** Durable and visible memory differ only in the word that is held. */
  predicate Agree(c: Config, ram: Ram) {
    var d, v := ram.durable, ram.visible;
    && |d.header| == |v.header| == 4
    && |d.data| == |v.data| == c.len
    && (c.cache.NoCache? || ram.held.None? ==> d == v)
    && (c.cache.OneWord? && ram.held.Some? ==>
          var word := ram.held.value;
          && (word < ReadWord(c) || d.header == v.header)
          && (word == ReadWord(c) || d.read == v.read)
          && (word == WriteWord(c) || d.write == v.write)
          && (word > FlushWord(c) || d.data == v.data)
          && (c.cache.fullWordsPass && c.cache.width == 4 ==>
                d.header == v.header && d.read == v.read && d.write == v.write))
  }

  lemma HeaderStoreKeepsAgree(c: Config, ram: Ram, i: nat, word: u32)
    requires ValidConfig(c) && Agree(c, ram)
    ensures Agree(c, Perform(c.cache, ram, StoreHeader(i, word)))
  {
  }

  lemma IndexStoreKeepsAgree(c: Config, ram: Ram, s: Store)
    requires ValidConfig(c) && Agree(c, ram) && (s.StoreRead? || s.StoreWrite?)
    ensures Agree(c, Perform(c.cache, ram, s))
  {
  }

  lemma ByteStoreKeepsAgree(c: Config, ram: Ram, s: Store)
    requires ValidConfig(c) && Agree(c, ram) && (s.StoreFlush? || s.StoreData?)
    ensures Agree(c, Perform(c.cache, ram, s))
  {
  }

  /** One store leaves the two images in agreement. */
  lemma PerformKeepsAgree(c: Config, ram: Ram, s: Store)
    requires ValidConfig(c) && Agree(c, ram)
    ensures Agree(c, Perform(c.cache, ram, s))
    ensures Perform(c.cache, ram, s).visible == Apply(ram.visible, s)
  {
    match s
    case StoreHeader(i, word) => HeaderStoreKeepsAgree(c, ram, i, word);
    case StoreRead(_) => IndexStoreKeepsAgree(c, ram, s);
    case StoreWrite(_) => IndexStoreKeepsAgree(c, ram, s);
    case StoreFlush => ByteStoreKeepsAgree(c, ram, s);
    case StoreData(_, _) => ByteStoreKeepsAgree(c, ram, s);
  }

  lemma FlushCommits(c: Config, ram: Ram)
    requires ValidConfig(c) && Agree(c, ram)
    ensures var ram' := Perform(c.cache, ram, StoreFlush);
            ram'.durable == ram'.visible == ram.visible
  {
  }

  /** What is durable after a byte was copied: everything up to the byte before,
      or everything, or the byte joined bytes that are still held. */
  predicate AfterDataStore(ram: Ram, ram': Ram) {
    var d, v := ram.durable, ram.visible;
    || ram'.durable == v
    || ram'.durable == ram'.visible
    || (ram'.durable == d && d.header == v.header && d.read == v.read && d.write == v.write)
  }

  lemma DataStoreFacts(c: Config, ram: Ram, s: Store)
    requires ValidConfig(c) && Agree(c, ram) && s.StoreData?
    ensures AfterDataStore(ram, Perform(c.cache, ram, s))
  {
  }

  /** What is durable after an index was stored: everything before, everything,
      the index joined the other index in the held word, or the index passed by
      bytes that are still held. */
  predicate AfterIndexStore(ram: Ram, s: Store, ram': Ram) {
    var d, v := ram.durable, ram.visible;
    || ram'.durable == v
    || ram'.durable == ram'.visible
    || (ram'.durable == d && d.header == v.header && d.data == v.data)
    || (ram'.durable == Apply(d, s) && d.header == v.header && d.read == v.read && d.write == v.write)
  }

  lemma IndexStoreFacts(c: Config, ram: Ram, s: Store)
    requires ValidConfig(c) && Agree(c, ram) && (s.StoreRead? || s.StoreWrite?)
    ensures AfterIndexStore(ram, s, Perform(c.cache, ram, s))
  {
  }

  // ---------- recovery ----------

  predicate BootFacts(c: Config, boot: Boot, d: Mem, v: Mem) {
    match boot
    case BCheck => d == v
    case BLoadWrite => v.header == c.magic
    case BLoadRead(write) => v.header == c.magic && write == v.write
    case BFixWrite(read) => v.header == c.magic && read == v.read < c.len <= v.write
    case BFixRead(write) => v.header == c.magic && write == v.write < c.len <= v.read
    case BZeroRead(anew) =>
      if anew then v.header != c.magic
      else v.header == c.magic && c.len <= v.read && c.len <= v.write
    case BZeroWrite(anew) =>
      v.read == 0 && if anew then v.header != c.magic else v.header == c.magic && c.len <= v.write
    case BFlush(anew) =>
      if anew then v.header != c.magic && v.read == 0 && v.write == 0 else Ready(c.magic, v)
    case BHeader(left) =>
      && left != {} && left <= {0, 1, 2, 3}
      && v.read == v.write == d.read == d.write == 0
      && forall i | 0 <= i < 4 && i !in left :: i < |v.header| && i < |c.magic| && v.header[i] == c.magic[i]
    case BDone => false
  }

  /** Whatever recovery has done so far, and whatever of it is durable, a
      recovery started now would arrive at the same image. */
  predicate BootInv(c: Config, s: State) {
    && s.prod.PIdle? && s.cons.CIdle?
    && RecoverImage(c.magic, s.ram.durable) == s.target
    && RecoverImage(c.magic, s.ram.visible) == s.target
    && BootFacts(c, s.boot, s.ram.durable, s.ram.visible)
  }

  // ---------- in service ----------

  /** Memory holds the stream between two positions. */
  predicate Holds(c: Config, data: seq<u8>, hist: seq<u8>, from: nat, to: nat)
    requires ValidConfig(c)
  {
    && |data| == c.len
    && to <= |hist|
    && forall p: nat {:trigger hist[p]} | from <= p < to :: data[Cell(c.len, p)] == hist[p]
  }

  /** Memory holds a queue: the stream between the two counters. */
  predicate QueueInv(c: Config, m: Mem, hist: seq<u8>, read: nat, write: nat)
    requires ValidConfig(c)
  {
    && m.read == Cell(c.len, read)
    && m.write == Cell(c.len, write)
    && read <= write < read + c.len
    && Holds(c, m.data, hist, read, write)
  }

  predicate CountersInv(c: Config, k: Counters) {
    && k.first <= k.read
    && k.recovered <= k.writeSeen
    && k.readSeen <= k.read <= k.writeSeen <= |k.hist| < k.readSeen + c.len
  }

  /** The bytes of the call fit in front of every position the producer has not
      seen released. */
  predicate JobInv(c: Config, job: Job, v: Mem, k: Counters) {
    && 0 < |job.bytes|
    && job.write == v.write
    && job.seen == k.readSeen
    && |k.hist| + |job.bytes| < job.seen + c.len
  }

  predicate Copied(c: Config, job: Job, left: set<nat>, data: seq<u8>, from: nat)
    requires ValidConfig(c)
  {
    && |data| == c.len
    && forall j: nat | j < |job.bytes| && j !in left :: data[Cell(c.len, from + j)] == job.bytes[j]
  }

  predicate ProdInv(c: Config, prod: Prod, ram: Ram, k: Counters)
    requires ValidConfig(c)
  {
    var v := ram.visible;
    match prod
    case PIdle => true
    case PLoaded(_, seen) => seen == k.readSeen
    case PCopy(job, left) =>
      JobInv(c, job, v, k) && Copied(c, job, left, v.data, |k.hist|)
      && left != {} && forall j | j in left :: j < |job.bytes|
    case PFlushData(job) => JobInv(c, job, v, k) && Copied(c, job, {}, v.data, |k.hist|)
    case PStoreIndex(job) =>
      JobInv(c, job, v, k) && Copied(c, job, {}, v.data, |k.hist|) && ram.durable.data == v.data
    case PFlushIndex(job) =>
      0 < |job.bytes| < c.len && |job.bytes| <= |k.hist|
      && k.hist[|k.hist| - |job.bytes|..] == job.bytes
  }

  predicate ConsInv(c: Config, cons: Cons, v: Mem, k: Counters)
    requires ValidConfig(c)
  {
    match cons
    case CIdle => true
    case CChecking(seen) => seen == k.writeSeen
    case CLoaded(seen) => seen == k.writeSeen
    case CGranted(read, len1, len2) =>
      read == v.read < c.len && (len1, len2) == SliceLens(c.len, read, Cell(c.len, k.writeSeen))
    case CFlush(bytes, before) =>
      before + |bytes| == k.read <= |k.hist| && |bytes| < c.len && bytes == k.hist[before..k.read]
  }

  /** The counters a reset now goes back to. */
  function DurableRead(ram: Ram, cons: Cons, k: Counters): int {
    k.read - |Redelivered(ram, cons)|
  }

  function DurableWrite(ram: Ram, prod: Prod, k: Counters): int {
    |k.hist| - |Lost(ram, prod)|
  }

  predicate DurableInv(c: Config, ram: Ram, prod: Prod, cons: Cons, k: Counters)
    requires ValidConfig(c)
  {
    var d, v := ram.durable, ram.visible;
    && (d.read != v.read ==> cons.CFlush?)
    && (d.write != v.write ==> prod.PFlushIndex?)
    && (d.header != v.header ==> k.read == |k.hist|)
    && k.first <= DurableRead(ram, cons, k) <= DurableWrite(ram, prod, k)
    && QueueInv(c, d, k.hist, DurableRead(ram, cons, k), DurableWrite(ram, prod, k))
  }

  predicate InService(c: Config, ram: Ram, prod: Prod, cons: Cons, k: Counters)
    requires ValidConfig(c)
  {
    && ram.visible.header == c.magic
    && QueueInv(c, ram.visible, k.hist, k.read, |k.hist|)
    && CountersInv(c, k)
    && ProdInv(c, prod, ram, k)
    && ConsInv(c, cons, ram.visible, k)
    && DurableInv(c, ram, prod, cons, k)
  }

  predicate ServiceInv(c: Config, s: State)
    requires ValidConfig(c)
  {
    match s
    case State(ram, _, prod, cons, k, _) => InService(c, ram, prod, cons, k)
  }

  predicate Inv(c: Config, s: State)
    requires ValidConfig(c)
  {
    && Agree(c, s.ram)
    && if s.boot.BDone? then ServiceInv(c, s) else BootInv(c, s)
  }
}
