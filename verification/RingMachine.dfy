/** The ring as a step system: one step for every load, copied byte, index
    store, header word and flush. The producer's and the consumer's steps
    interleave freely, a reset may strike before any step, also inside
    recovery, and recovery runs again after each reset.

    Indices are loaded by position: a load of `read` that returns an older
    value is a load of the counter value that was current then. */
module RingMachine {
  import opened Words
  import opened RingIndex
  import opened RingSpec
  import opened EccRam

  datatype Config = Config(len: nat, magic: seq<u32>, cache: Cache)

  predicate ValidConfig(c: Config) {
    && 1 <= c.len < I32_MAX / 4
    && |c.magic| == 4
    && ValidCache(c.cache)
  }

  /** Where recovery is. `anew` says that the header was not the magic one. */
  datatype Boot =
    | BCheck
    | BLoadWrite
    | BLoadRead(write: nat)
    | BFixWrite(read: nat)
    | BFixRead(write: nat)
    | BZeroRead(anew: bool)
    | BZeroWrite(anew: bool)
    | BFlush(anew: bool)
    | BHeader(left: set<nat>)
    | BDone

  /** What a `write` call works with once it has loaded both indices: the
      accepted bytes and where they go. `seen` is the read counter it saw. */
  datatype Job = Job(bytes: seq<u8>, write: nat, seen: nat)

  /** Where the producer is. `left` holds the bytes that are still to be copied,
      which may happen in any order. */
  datatype Prod =
    | PIdle
    | PLoaded(data: seq<u8>, seen: nat)
    | PCopy(job: Job, left: set<nat>)
    | PFlushData(job: Job)
    | PStoreIndex(job: Job)
    | PFlushIndex(job: Job)

  /** Where the consumer is: in `CChecking` inside `is_empty`, in `CLoaded` inside
      `read`, in both with the write index loaded. In `CFlush`, `bytes` were just
      released and `before` was the read counter until then. */
  datatype Cons =
    | CIdle
    | CChecking(seen: nat)
    | CLoaded(seen: nat)
    | CGranted(read: nat, len1: nat, len2: nat)
    | CFlush(bytes: seq<u8>, before: nat)

  /** Absolute counters for reasoning; no step decides on them. `hist` holds a
      byte for every stream position published so far, `read` counts released
      positions, and `readSeen`/`writeSeen` are the newest counters that the
      producer and the consumer have loaded. `first` and `recovered` are the
      read and write counters at the end of recovery. */
  datatype Counters = Counters(
    hist: seq<u8>, read: nat, readSeen: nat, writeSeen: nat, first: nat, recovered: nat)

  /** `target` is the image the current recovery is to arrive at. */
  datatype State = State(
    ram: Ram, boot: Boot, prod: Prod, cons: Cons, counters: Counters, target: Mem)

  function PowerOn(c: Config, ram: Ram): State {
    State(ram, BCheck, PIdle, CIdle, Counters([], 0, 0, 0, 0, 0), RecoverImage(c.magic, ram.durable))
  }

  function Start(c: Config, m: Mem): State {
    PowerOn(c, Ram(m, m, None))
  }

  datatype Action =
    | ABoot
    | ABootHeader(i: nat)
    | ACallWrite(data: seq<u8>, seen: nat)
    | ALoadWrite
    | ACopy(j: nat)
    | AFlushData
    | AStoreIndex
    | AFlushIndex
    | ACallIsEmpty(seen: nat)
    | ACompare
    | ACallRead(seen: nat)
    | ALoadRead
    | ARelease(used: nat)
    | ADropGrant
    | AFlushRelease
    | ADrain
    | AReset

  predicate Enabled(c: Config, s: State, a: Action) {
    match a
    case ABoot => !s.boot.BDone? && !s.boot.BHeader?
    case ABootHeader(i) => s.boot.BHeader? && i in s.boot.left && i < |c.magic|
    case ACallWrite(_, seen) =>
      s.boot.BDone? && s.prod.PIdle? && s.counters.readSeen <= seen <= s.counters.read
    case ALoadWrite => s.boot.BDone? && s.prod.PLoaded?
    case ACopy(j) => s.boot.BDone? && s.prod.PCopy? && j in s.prod.left && j < |s.prod.job.bytes|
    case AFlushData => s.boot.BDone? && s.prod.PFlushData?
    case AStoreIndex => s.boot.BDone? && s.prod.PStoreIndex?
    case AFlushIndex => s.boot.BDone? && s.prod.PFlushIndex?
    case ACallIsEmpty(seen) =>
      s.boot.BDone? && s.cons.CIdle? && s.counters.writeSeen <= seen <= |s.counters.hist|
    case ACompare => s.boot.BDone? && s.cons.CChecking?
    case ACallRead(seen) =>
      s.boot.BDone? && s.cons.CIdle? && s.counters.writeSeen <= seen <= |s.counters.hist|
    case ALoadRead => s.boot.BDone? && s.cons.CLoaded?
    case ARelease(_) => s.boot.BDone? && s.cons.CGranted?
    case ADropGrant => s.boot.BDone? && s.cons.CGranted?
    case AFlushRelease => s.boot.BDone? && s.cons.CFlush?
    case ADrain => true
    case AReset => true
  }

  // ---------- recovery ----------

  function Zeros(n: nat): (z: seq<u8>)
    ensures |z| == n
  {
    seq(n, _ => 0 as u8)
  }

  /** Recovery has returned: the two ends of the queue go into use. */
  function EnterService(c: Config, s: State): State {
    var m := s.ram.visible;
    var hist := Zeros(m.read) + RecoveredContent(c.magic, m);
    s.(boot := BDone, prod := PIdle, cons := CIdle,
       counters := Counters(hist, m.read, m.read, |hist|, m.read, |hist|))
  }

  function BootStep(c: Config, s: State): State
    requires !s.boot.BDone? && !s.boot.BHeader?
  {
    var m := s.ram.visible;
    match s.boot
    case BCheck => s.(boot := if m.header != c.magic then BZeroRead(true) else BLoadWrite)
    case BLoadWrite => s.(boot := BLoadRead(m.write))
    case BLoadRead(write) =>
      s.(boot :=
        match (m.read < c.len, write < c.len)
        case (true, true) => BFlush(false)
        case (true, false) => BFixWrite(m.read)
        case (false, true) => BFixRead(write)
        case (false, false) => BZeroRead(false))
    case BFixWrite(read) =>
      s.(ram := Perform(c.cache, s.ram, StoreWrite(AsU32(read))), boot := BFlush(false))
    case BFixRead(write) =>
      s.(ram := Perform(c.cache, s.ram, StoreRead(AsU32(write))), boot := BFlush(false))
    case BZeroRead(anew) => s.(ram := Perform(c.cache, s.ram, StoreRead(0)), boot := BZeroWrite(anew))
    case BZeroWrite(anew) => s.(ram := Perform(c.cache, s.ram, StoreWrite(0)), boot := BFlush(anew))
    case BFlush(anew) =>
      var s' := s.(ram := Perform(c.cache, s.ram, StoreFlush));
      if anew then s'.(boot := BHeader({0, 1, 2, 3})) else EnterService(c, s')
  }

  /** The 128-bit header is stored word by word, in any order. */
  function HeaderStep(c: Config, s: State, i: nat): State
    requires s.boot.BHeader? && i < |c.magic|
  {
    var s' := s.(ram := Perform(c.cache, s.ram, StoreHeader(i, c.magic[i])));
    var left := s.boot.left - {i};
    if left == {} then EnterService(c, s') else s'.(boot := BHeader(left))
  }

  // ---------- producer ----------

  function Below(n: nat): (js: set<nat>)
    ensures forall j: nat :: j in js <==> j < n
  {
    if n == 0 then {} else Below(n - 1) + {n - 1}
  }

  function LoadWriteStep(c: Config, s: State): State
    requires 0 < c.len && s.prod.PLoaded? && s.ram.visible.write < c.len
  {
    var read, write := Cell(c.len, s.prod.seen), s.ram.visible.write;
    var n := Min(|s.prod.data|, Available(c.len, read, write));
    if n == 0 then s.(prod := PIdle)
    else s.(prod := PCopy(Job(s.prod.data[..n], write, s.prod.seen), Below(n)))
  }

  function CopyStep(c: Config, s: State, j: nat): State
    requires s.prod.PCopy? && j < |s.prod.job.bytes|
    requires 0 <= CopyCell(c.len, s.prod.job.write, |s.prod.job.bytes|, j)
  {
    var job := s.prod.job;
    var left := s.prod.left - {j};
    s.(ram := Perform(c.cache, s.ram,
         StoreData(CopyCell(c.len, job.write, |job.bytes|, j), job.bytes[j])),
       prod := if left == {} then PFlushData(job) else PCopy(job, left))
  }

  function StoreIndexStep(c: Config, s: State): State
    requires 0 < c.len && s.prod.PStoreIndex?
  {
    var job := s.prod.job;
    s.(ram := Perform(c.cache, s.ram, StoreWrite(NewWrite(c.len, job.write, |job.bytes|))),
       prod := PFlushIndex(job),
       counters := s.counters.(hist := s.counters.hist + job.bytes))
  }

  // ---------- consumer ----------

  /** The answer of `is_empty`: the two indices as loaded are equal. */
  function Answer(c: Config, s: State): bool
    requires 0 < c.len && s.cons.CChecking?
  {
    Cell(c.len, s.cons.seen) == s.ram.visible.read
  }

  function LoadReadStep(c: Config, s: State): State
    requires 0 < c.len && s.cons.CLoaded? && s.ram.visible.read < c.len
  {
    var read, write := s.ram.visible.read, Cell(c.len, s.cons.seen);
    var (len1, len2) := SliceLens(c.len, read, write);
    s.(cons := CGranted(read, len1, len2))
  }

  /** The slices of the grant lie inside the buffer. */
  predicate GrantInBounds(s: State) {
    && s.cons.CGranted?
    && s.cons.read + s.cons.len1 <= |s.ram.visible.data|
    && s.cons.len2 <= |s.ram.visible.data|
  }

  /** The bytes under the two slices of the grant, as memory holds them now. */
  function Slices(s: State): (seq<u8>, seq<u8>)
    requires GrantInBounds(s)
  {
    var data := s.ram.visible.data;
    (data[s.cons.read..s.cons.read + s.cons.len1], data[..s.cons.len2])
  }

  /** How many bytes a release marks as consumed when asked for `used`. */
  function Used(s: State, used: nat): nat
    requires s.cons.CGranted?
  {
    Min(used, s.cons.len1 + s.cons.len2)
  }

  function ReleasedBytes(s: State, used: nat): seq<u8>
    requires GrantInBounds(s)
  {
    (Slices(s).0 + Slices(s).1)[..Used(s, used)]
  }

  function ReleaseTo(c: Config, s: State, index: nat, bytes: seq<u8>): State {
    s.(ram := Perform(c.cache, s.ram, StoreRead(index)),
       cons := CFlush(bytes, s.counters.read),
       counters := s.counters.(read := s.counters.read + |bytes|))
  }

  function ReleaseStep(c: Config, s: State, used: nat): State
    requires GrantInBounds(s)
    requires 0 <= NewRead(c.len, s.cons.read, Used(s, used), s.cons.len1)
  {
    ReleaseTo(c, s, AsU32(NewRead(c.len, s.cons.read, Used(s, used), s.cons.len1)), ReleasedBytes(s, used))
  }

  function Flushed(c: Config, s: State): State {
    s.(ram := Perform(c.cache, s.ram, StoreFlush))
  }

  // ---------- all steps ----------

  /** Every index that step `a` uses lies in the buffer and no difference it
      computes is negative. A run would get stuck where this fails; it never
      does (`RingTheorems.NoBadAccess`). */
  predicate InBounds(c: Config, s: State, a: Action)
    requires Enabled(c, s, a)
  {
    match a
    case ALoadWrite => s.ram.visible.write < c.len
    case ACopy(j) => 0 <= CopyCell(c.len, s.prod.job.write, |s.prod.job.bytes|, j) < |s.ram.visible.data|
    case ALoadRead => s.ram.visible.read < c.len
    case ARelease(used) =>
      GrantInBounds(s) && 0 <= NewRead(c.len, s.cons.read, Used(s, used), s.cons.len1)
    case _ => true
  }

  function Next(c: Config, s: State, a: Action): State
    requires 0 < c.len && Enabled(c, s, a) && InBounds(c, s, a)
  {
    match a
    case ABoot => BootStep(c, s)
    case ABootHeader(i) => HeaderStep(c, s, i)
    case ACallWrite(data, seen) =>
      s.(prod := PLoaded(data, seen), counters := s.counters.(readSeen := seen))
    case ALoadWrite => LoadWriteStep(c, s)
    case ACopy(j) => CopyStep(c, s, j)
    case AFlushData => Flushed(c, s).(prod := PStoreIndex(s.prod.job))
    case AStoreIndex => StoreIndexStep(c, s)
    case AFlushIndex => Flushed(c, s).(prod := PIdle)
    case ACallIsEmpty(seen) => s.(cons := CChecking(seen), counters := s.counters.(writeSeen := seen))
    case ACompare => s.(cons := CIdle)
    case ACallRead(seen) => s.(cons := CLoaded(seen), counters := s.counters.(writeSeen := seen))
    case ALoadRead => LoadReadStep(c, s)
    case ARelease(used) => ReleaseStep(c, s, used)
    case ADropGrant => s.(cons := CIdle)
    case AFlushRelease => Flushed(c, s).(cons := CIdle)
    case ADrain => s.(ram := Drain(s.ram))
    case AReset => PowerOn(c, LosePower(s.ram))
  }

  // ---------- runs ----------

  /** The state after `run`, and whether each of its actions was enabled. */
  function Exec(c: Config, s: State, run: seq<Action>): State
    requires 0 < c.len && Legal(c, s, run)
    decreases |run|, 1
  {
    if run == [] then s
    else Next(c, Exec(c, s, run[..|run| - 1]), run[|run| - 1])
  }

  predicate Legal(c: Config, s: State, run: seq<Action>)
    requires 0 < c.len
    decreases |run|, 0
  {
    run == [] ||
    var before := run[..|run| - 1];
    && Legal(c, s, before)
    && Enabled(c, Exec(c, s, before), run[|run| - 1])
    && InBounds(c, Exec(c, s, before), run[|run| - 1])
  }

  // ---------- what an observer sees ----------

  /** The queue in memory, as loads see it. */
  function Content(c: Config, s: State): seq<u8> {
    RecoveredContent(c.magic, s.ram.visible)
  }

  /** The queue that a recovery would find after a reset now. */
  function DurableContent(c: Config, s: State): seq<u8> {
    RecoveredContent(c.magic, s.ram.durable)
  }

  function Published(s: State, a: Action): seq<u8> {
    if a.AStoreIndex? && s.prod.PStoreIndex? then s.prod.job.bytes else []
  }

  function Released(s: State, a: Action): seq<u8> {
    if a.ARelease? && GrantInBounds(s) then ReleasedBytes(s, a.used) else []
  }

  /** Bytes whose publication a reset now undoes: at most those of a `write`
      that has stored its index but not flushed it yet. */
  function Lost(ram: Ram, prod: Prod): seq<u8> {
    if prod.PFlushIndex? && ram.durable.write != ram.visible.write then prod.job.bytes else []
  }

  /** Bytes whose release a reset now undoes: at most those of a `release` that
      has stored its index but not flushed it yet. */
  function Redelivered(ram: Ram, cons: Cons): seq<u8> {
    if cons.CFlush? && ram.durable.read != ram.visible.read then cons.bytes else []
  }
}
