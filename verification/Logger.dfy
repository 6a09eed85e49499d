/** The global logger: a depth counter in front of a critical section, and the
    encoder's chunks on their way into the ring and the RTT channel. What the
    encoder emits for a call is a parameter, because the encoder is not part of
    this model. */
module Loggers {
  import opened Words
  import opened RingSpec
  import RingBuffers
  import AtomicWakers
  import Rtt

  class LoggerState {
    const cpu: AtomicWakers.Cpu
    const waker: AtomicWakers.AtomicWaker
    const channel: Rtt.Channel
    const host: Rtt.Host
    var producer: RingBuffers.Producer?
    var csState: bool
    var initialized: bool
    var depth: nat

    constructor (cpu: AtomicWakers.Cpu, waker: AtomicWakers.AtomicWaker, channel: Rtt.Channel, host: Rtt.Host)
      requires waker.cpu == cpu && channel.Valid()
      ensures this.cpu == cpu && this.waker == waker && this.channel == channel && this.host == host
      ensures !initialized && depth == 0 && Valid()
    {
      this.cpu, this.waker, this.channel, this.host := cpu, waker, channel, host;
      producer, csState, initialized, depth := null, false, false, 0;
    }

    /** The memory that log calls write to. */
    ghost function Memory(): set<object>
      reads this
    {
      {channel, channel.buffer, host} +
      if producer == null then {} else {producer.ring, producer.ring.buf}
    }

    ghost predicate Valid()
      reads this, Memory()
    {
      && waker.cpu == cpu
      && channel.Valid()
      && (initialized <==> producer != null)
      && (initialized ==> producer.ring.Valid() && producer.ring.buf != channel.buffer)
    }

    /** The ring's image, once there is one. */
    ghost function Image(): (m: Mem)
      reads this, Memory()
      requires Valid() && initialized
      ensures m.read < |m.data| && m.write < |m.data|
    {
      producer.ring.Image()
    }

    /** What the host has read or can still read. */
    ghost function Sent(): seq<u8>
      reads this, Memory()
      requires Valid()
    {
      host.taken + channel.Unread()
    }

    /** The outputs as far as they matter to the chunks. */
    ghost function Now(): (now: Outputs)
      reads this, Memory()
      requires Valid()
    {
      Outputs(if initialized then Some(producer.ring.Image()) else None,
              Sent(), channel.Free(), channel.HostIsConnected())
    }

    /** The chunks, and nothing else, reached the outputs. */
    twostate predicate PassedOn(chunks: seq<seq<u8>>)
      reads this, Memory()
      requires old(Valid()) && Valid()
    {
      Since(chunks, old(Now()), Now())
    }

    /** Nothing reaches either. */
    twostate predicate OutputsNothing()
      reads this, Memory()
      requires old(Valid()) && Valid()
    {
      && (initialized == old(initialized) && initialized ==> Image() == old(Image()))
      && Sent() == old(Sent())
    }

    /** Makes the ring available to the logger. */
    method Initialize(p: RingBuffers.Producer)
      requires waker.cpu == cpu && channel.Valid()
      requires p.ring.Valid() && p.ring.buf != channel.buffer
      modifies this`producer, this`initialized
      ensures Valid() && initialized && producer == p
    {
      producer := p;
      initialized := true;
    }

    /** Writes to the ring once there is one. */
    method WriteToRing(data: seq<u8>)
      requires Valid()
      modifies if producer == null then {} else {producer.ring, producer.ring.buf}
      ensures Valid()
      ensures initialized ==> Image() == WriteImage(old(Image()), data)
    {
      if initialized {
        producer.Write(data);
      }
    }

    /** Writes to the ring and to the RTT channel. */
    method WriteAll(data: seq<u8>)
      requires Valid() && cpu.masked
      modifies Memory(), cpu`trace
      ensures Valid() && Takes(data, old(Now()), Now())
      ensures cpu.trace == old(cpu.trace) + [AtomicWakers.Output(data)]
    {
      ghost var before := Now();
      WriteToRing(data);
      ghost var stored := channel.WriteAll(data, host);
      cpu.trace := cpu.trace + [AtomicWakers.Output(data)];
      assert Now().sent == before.sent + data[..stored];
      assert stored == |data| ==> data[..stored] == data;
    }

    /** The encoder passes its chunks on, one after the other. */
    method PassOn(chunks: seq<seq<u8>>)
      requires Valid() && cpu.masked
      modifies Memory(), cpu`trace
      ensures Valid() && PassedOn(chunks) && Memory() == old(Memory())
      ensures cpu.trace == old(cpu.trace) + Trace(chunks)
      decreases |chunks|
    {
      ghost var n0, t0 := Now(), cpu.trace;
      if chunks == [] {
        return;
      }
      WriteAll(chunks[0]);
      ghost var n1, t1 := Now(), cpu.trace;
      PassOn(chunks[1..]);
      assert Takes(chunks[0], n0, n1) && Since(chunks[1..], n1, Now());
      TraceFirst(chunks, t0, t1, cpu.trace);
    }

    /** Begins a log call. Only a call that finds the depth at 0 gets to the
        critical section and the encoder. */
    method Acquire(startChunks: seq<seq<u8>>)
      requires Valid()
      modifies this`depth, this`csState, cpu, Memory()
      ensures Valid() && depth == old(depth) + 1
      ensures old(depth) == 0 ==> cpu.masked && csState == old(cpu.masked) && PassedOn(startChunks)
      ensures old(depth) == 0 ==> cpu.trace == old(cpu.trace) + [AtomicWakers.Entered] + Trace(startChunks)
      ensures old(depth) > 0 ==> cpu.masked == old(cpu.masked) && csState == old(csState) && OutputsNothing()
      ensures old(depth) > 0 ==> cpu.trace == old(cpu.trace)
      ensures waker.waker == old(waker.waker) && (waker.waker != null ==> waker.waker.calls == old(waker.waker.calls))
      ensures Memory() == old(Memory())
    {
      var wasDepth := depth;
      depth := depth + 1;
      if wasDepth > 0 {
        return;
      }
      BeginFrame(startChunks);
    }

    /** Enters the critical section, saves the interrupt state and begins a frame. */
    method BeginFrame(startChunks: seq<seq<u8>>)
      requires Valid()
      modifies this`csState, cpu, Memory()
      ensures Valid() && PassedOn(startChunks) && Memory() == old(Memory())
      ensures cpu.masked && csState == old(cpu.masked)
      ensures cpu.trace == old(cpu.trace) + [AtomicWakers.Entered] + Trace(startChunks)
    {
      var restore := cpu.EnterCs();
      csState := restore;
      PassOn(startChunks);
    }

    /** Logs a part of a frame. */
    method Write(bodyChunks: seq<seq<u8>>)
      requires Valid() && (depth == 1 ==> cpu.masked)
      modifies Memory(), cpu`trace
      ensures Valid() && cpu.masked == old(cpu.masked)
      ensures depth == 1 ==> PassedOn(bodyChunks) && cpu.trace == old(cpu.trace) + Trace(bodyChunks)
      ensures depth != 1 ==> OutputsNothing() && cpu.trace == old(cpu.trace)
      ensures waker.waker == old(waker.waker) && (waker.waker != null ==> waker.waker.calls == old(waker.waker.calls))
      ensures Memory() == old(Memory())
    {
      if depth != 1 {
        return;
      }
      PassOn(bodyChunks);
    }

    /** Waits until a connected host has read everything. */
    method Flush()
      requires Valid() && (depth == 1 ==> cpu.masked)
      modifies channel`read, host
      ensures Valid() && OutputsNothing()
      ensures depth == 1 && channel.HostIsConnected() ==> channel.Unread() == []
      ensures depth != 1 ==> host.taken == old(host.taken)
    {
      if depth != 1 {
        return;
      }
      channel.Flush(host);
    }

    /** Closes the frame and leaves the critical section. */
    method CloseFrame(endChunks: seq<seq<u8>>)
      requires Valid() && cpu.masked
      modifies cpu, Memory()
      ensures Valid() && PassedOn(endChunks) && cpu.masked == csState
      ensures cpu.trace == old(cpu.trace) + Trace(endChunks) + [AtomicWakers.Left(csState)]
    {
      PassOn(endChunks);
      cpu.LeaveCs(csState);
    }

    /** Ends a log call. The call that owns the frame closes it, then puts the
        interrupt state back, and then wakes the consumer. */
    method Release(endChunks: seq<seq<u8>>)
      requires Valid() && depth > 0 && (depth == 1 ==> cpu.masked)
      modifies this`depth, cpu, waker`waker, Memory(), if waker.waker == null then {} else {waker.waker}
      ensures Valid() && depth == old(depth) - 1 && csState == old(csState) && Memory() == old(Memory())
      ensures old(depth) == 1 ==> cpu.masked == csState && waker.waker == null && PassedOn(endChunks)
      ensures old(depth) == 1 ==>
                cpu.trace == old(cpu.trace) + Trace(endChunks) + Closing(csState, old(waker.waker) != null)
      ensures old(depth) == 1 && old(waker.waker) != null ==>
                old(waker.waker).calls == old(waker.waker.calls) + 1
      ensures old(depth) > 1 ==>
                && cpu.masked == old(cpu.masked) && cpu.trace == old(cpu.trace)
                && waker.waker == old(waker.waker) && OutputsNothing()
                && (waker.waker != null ==> waker.waker.calls == old(waker.waker.calls))
    {
      var wasDepth := depth;
      depth := depth - 1;
      if wasDepth != 1 {
        return;
      }
      ghost var t0, registered := cpu.trace, waker.waker != null;
      CloseFrame(endChunks);
      ghost var t1 := cpu.trace;
      waker.Wake();
      TraceCloses(t0, t1, cpu.trace, endChunks, csState, registered);
    }

    /** One whole log call while nobody else is logging: the ring gets the frame as
        if it were written in one piece, the host gets the front of each chunk and
        all of the frame if it is connected, everything is passed on inside the
        critical section, the consumer is woken behind it, and depth and interrupt
        state are back where they were. */
    method LogFrame(startChunks: seq<seq<u8>>, bodyChunks: seq<seq<u8>>, endChunks: seq<seq<u8>>)
      requires Valid() && depth == 0
      modifies this`depth, this`csState, cpu, waker`waker, Memory(),
               if waker.waker == null then {} else {waker.waker}
      ensures Valid() && depth == 0 && cpu.masked == old(cpu.masked) && Memory() == old(Memory())
      ensures PassedOn(startChunks + bodyChunks + endChunks)
      ensures channel.HostIsConnected() ==>
                Sent() == old(Sent()) + Flatten(startChunks + bodyChunks + endChunks)
      ensures initialized ==> Image() == WriteImage(old(Image()), Flatten(startChunks + bodyChunks + endChunks))
      ensures cpu.trace == old(cpu.trace) + [AtomicWakers.Entered] + Trace(startChunks + bodyChunks + endChunks)
                           + Closing(cpu.masked, old(waker.waker) != null)
      ensures waker.waker == null
      ensures old(waker.waker) != null ==> old(waker.waker).calls == old(waker.waker.calls) + 1
    {
      ghost var n0, t0 := Now(), cpu.trace;
      ghost var all := startChunks + bodyChunks + endChunks;
      LogOpenFrame(startChunks, bodyChunks);
      ghost var n1, t1, registered := Now(), cpu.trace, waker.waker != null;
      Release(endChunks);
      ghost var n2 := Now();
      FrameArrives(startChunks + bodyChunks, endChunks, n0, n1, n2);
      assert Since(all, n0, n2);
      TraceParts(t0, t1, cpu.trace, startChunks + bodyChunks, endChunks, Closing(csState, registered));
    }

    /** The first two parts of such a call. */
    method LogOpenFrame(startChunks: seq<seq<u8>>, bodyChunks: seq<seq<u8>>)
      requires Valid() && depth == 0
      modifies this`depth, this`csState, cpu, Memory()
      ensures Valid() && depth == 1 && cpu.masked && csState == old(cpu.masked)
      ensures PassedOn(startChunks + bodyChunks)
      ensures waker.waker == old(waker.waker) && (waker.waker != null ==> waker.waker.calls == old(waker.waker.calls))
      ensures Memory() == old(Memory())
      ensures cpu.trace == old(cpu.trace) + [AtomicWakers.Entered] + Trace(startChunks + bodyChunks)
    {
      ghost var n0, t0 := Now(), cpu.trace;
      Acquire(startChunks);
      ghost var n1, t1 := Now(), cpu.trace;
      Write(bodyChunks);
      SinceTwice(startChunks, bodyChunks, n0, n1, Now());
      TraceGoesOn(t0, t1, cpu.trace, startChunks, bodyChunks);
    }

    /** One whole log call while somebody else is logging leaves no trace. */
    method LogNested(startChunks: seq<seq<u8>>, bodyChunks: seq<seq<u8>>, endChunks: seq<seq<u8>>)
      requires Valid() && depth > 0
      modifies this`depth, this`csState, cpu, waker`waker, Memory(),
               if waker.waker == null then {} else {waker.waker}
      ensures Valid() && depth == old(depth) && csState == old(csState) && OutputsNothing()
      ensures cpu.masked == old(cpu.masked) && cpu.trace == old(cpu.trace)
      ensures waker.waker == old(waker.waker)
      ensures waker.waker != null ==> waker.waker.calls == old(waker.waker.calls)
    {
      Acquire(startChunks);
      Write(bodyChunks);
      Release(endChunks);
    }
  }

  // ---------- what the core did ----------

  /** The chunks as they are passed on. */
  function Trace(chunks: seq<seq<u8>>): seq<AtomicWakers.CoreEvent> {
    if chunks == [] then [] else [AtomicWakers.Output(chunks[0])] + Trace(chunks[1..])
  }

  /** The end of a log call: out of the critical section, and then into that of
      the waker cell and out again, and then the wake-up. */
  function Closing(masked: bool, registered: bool): seq<AtomicWakers.CoreEvent> {
    [AtomicWakers.Left(masked), AtomicWakers.Entered, AtomicWakers.Left(masked)]
    + if registered then [AtomicWakers.Woke] else []
  }

  lemma {:induction false} TraceConcat(a: seq<seq<u8>>, b: seq<seq<u8>>)
    ensures Trace(a + b) == Trace(a) + Trace(b)
    decreases |a|
  {
    if a == [] {
      assert a + b == b;
    } else {
      assert (a + b)[0] == a[0] && (a + b)[1..] == a[1..] + b;
      TraceConcat(a[1..], b);
    }
  }

  lemma TraceFirst(
    chunks: seq<seq<u8>>, t0: seq<AtomicWakers.CoreEvent>, t1: seq<AtomicWakers.CoreEvent>,
    t2: seq<AtomicWakers.CoreEvent>)
    requires chunks != [] && t1 == t0 + [AtomicWakers.Output(chunks[0])] && t2 == t1 + Trace(chunks[1..])
    ensures t2 == t0 + Trace(chunks)
  {
  }

  lemma TraceCloses(
    t0: seq<AtomicWakers.CoreEvent>, t1: seq<AtomicWakers.CoreEvent>, t2: seq<AtomicWakers.CoreEvent>,
    chunks: seq<seq<u8>>, masked: bool, registered: bool)
    requires t1 == t0 + Trace(chunks) + [AtomicWakers.Left(masked)]
    requires t2 == t1 + [AtomicWakers.Entered, AtomicWakers.Left(masked)]
                   + if registered then [AtomicWakers.Woke] else []
    ensures t2 == t0 + Trace(chunks) + Closing(masked, registered)
  {
  }

  lemma TraceGoesOn(
    t0: seq<AtomicWakers.CoreEvent>, t1: seq<AtomicWakers.CoreEvent>, t2: seq<AtomicWakers.CoreEvent>,
    a: seq<seq<u8>>, b: seq<seq<u8>>)
    requires t1 == t0 + [AtomicWakers.Entered] + Trace(a) && t2 == t1 + Trace(b)
    ensures t2 == t0 + [AtomicWakers.Entered] + Trace(a + b)
  {
    TraceConcat(a, b);
  }

  lemma TraceParts(
    t0: seq<AtomicWakers.CoreEvent>, t1: seq<AtomicWakers.CoreEvent>, t2: seq<AtomicWakers.CoreEvent>,
    a: seq<seq<u8>>, b: seq<seq<u8>>, closing: seq<AtomicWakers.CoreEvent>)
    requires t1 == t0 + [AtomicWakers.Entered] + Trace(a) && t2 == t1 + Trace(b) + closing
    ensures t2 == t0 + [AtomicWakers.Entered] + Trace(a + b) + closing
  {
    TraceConcat(a, b);
  }

  // ---------- what the host gets ----------

  /** `parts` are front parts of the chunks, each with at least what fits into
      the free space that the ones before it leave. */
  predicate AreFronts(chunks: seq<seq<u8>>, parts: seq<seq<u8>>, free: int) {
    && |parts| == |chunks|
    && forall i | 0 <= i < |chunks| ::
         parts[i] <= chunks[i] && Min(|chunks[i]|, free - |Flatten(parts[..i])|) <= |parts[i]|
  }

  /** `out` consists of such parts, in order. */
  ghost predicate Fronts(chunks: seq<seq<u8>>, out: seq<u8>, free: int) {
    exists parts :: AreFronts(chunks, parts, free) && out == Flatten(parts)
  }

  lemma AreFrontsConcat(
    a: seq<seq<u8>>, pa: seq<seq<u8>>, free: int, b: seq<seq<u8>>, pb: seq<seq<u8>>, free': int)
    requires AreFronts(a, pa, free) && AreFronts(b, pb, free') && free' >= free - |Flatten(pa)|
    ensures AreFronts(a + b, pa + pb, free)
  {
    forall i | 0 <= i < |a + b|
      ensures (pa + pb)[i] <= (a + b)[i]
      ensures Min(|(a + b)[i]|, free - |Flatten((pa + pb)[..i])|) <= |(pa + pb)[i]|
    {
      if i < |a| {
        assert (pa + pb)[..i] == pa[..i];
      } else {
        assert (pa + pb)[..i] == pa + pb[..i - |a|];
        FlattenConcat(pa, pb[..i - |a|]);
      }
    }
  }

  lemma FrontsConcat(
    a: seq<seq<u8>>, x: seq<u8>, free: int, b: seq<seq<u8>>, y: seq<u8>, free': int)
    requires Fronts(a, x, free) && Fronts(b, y, free') && free' >= free - |x|
    ensures Fronts(a + b, x + y, free)
  {
    var pa :| AreFronts(a, pa, free) && x == Flatten(pa);
    var pb :| AreFronts(b, pb, free') && y == Flatten(pb);
    AreFrontsConcat(a, pa, free, b, pb, free');
    FlattenConcat(pa, pb);
  }

  lemma OneFront(chunk: seq<u8>, k: nat, free: int)
    requires k <= |chunk| && Min(|chunk|, free) <= k
    ensures Fronts([chunk], chunk[..k], free)
  {
    var parts := [chunk[..k]];
    assert parts[..0] == [] && parts[1..] == [];
    AppendNothing(chunk[..k]);
    assert Flatten(parts) == chunk[..k];
    assert AreFronts([chunk], parts, free);
  }

  /** What the host has read or can read grew from `s0` to `s1` by the fronts of
      `chunks`, and the free space shrank from `f0` by no more than that. */
  ghost predicate SentSince(
    chunks: seq<seq<u8>>, s0: seq<u8>, f0: int, s1: seq<u8>, f1: int, connected: bool)
  {
    && s0 <= s1
    && Fronts(chunks, s1[|s0|..], f0)
    && f1 >= f0 - (|s1| - |s0|)
    && (connected ==> s1 == s0 + Flatten(chunks))
  }

  lemma SentNothing(s: seq<u8>, f: int, connected: bool)
    ensures SentSince([], s, f, s, f, connected)
  {
    AppendNothing(s);
    assert AreFronts([], [], f) && s[|s|..] == Flatten<u8>([]);
  }

  lemma SentTwice(
    a: seq<seq<u8>>, b: seq<seq<u8>>, s0: seq<u8>, f0: int, s1: seq<u8>, f1: int, s2: seq<u8>, f2: int, connected: bool)
    requires SentSince(a, s0, f0, s1, f1, connected) && SentSince(b, s1, f1, s2, f2, connected)
    ensures SentSince(a + b, s0, f0, s2, f2, connected)
  {
    assert s1[|s0|..] + s2[|s1|..] == s2[|s0|..];
    FrontsConcat(a, s1[|s0|..], f0, b, s2[|s1|..], f1);
    FlattenConcat(a, b);
    AppendAssociates(s0, Flatten(a), Flatten(b));
  }

  lemma FlattenOne(chunk: seq<u8>)
    ensures Flatten([chunk]) == chunk
  {
    assert [chunk][1..] == [];
    AppendNothing(chunk);
  }

  lemma {:induction false} FlattenConcat(a: seq<seq<u8>>, b: seq<seq<u8>>)
    ensures Flatten(a + b) == Flatten(a) + Flatten(b)
    decreases |a|
  {
    if a == [] {
      assert a + b == b;
      AppendNothing(Flatten(b));
    } else {
      assert (a + b)[0] == a[0] && (a + b)[1..] == a[1..] + b;
      FlattenConcat(a[1..], b);
      AppendAssociates(a[0], Flatten(a[1..]), Flatten(b));
    }
  }

  lemma NothingWritten(m: Mem)
    requires m.read < |m.data| && m.write < |m.data|
    ensures WriteImage(m, []) == m
  {
    assert WriteImage(m, []).data == m.data;
  }

  // ---------- both outputs ----------

  /** The ring's image, if there is one yet; what the host has read or can read;
      the channel's free space; whether a host is connected. */
  datatype Outputs = Outputs(image: Option<Mem>, sent: seq<u8>, free: int, connected: bool)

  /** One chunk reaches the outputs: the ring takes what fits, and so does the
      channel, or more if the host makes room, or all if a host is connected. */
  ghost predicate Takes(chunk: seq<u8>, before: Outputs, now: Outputs) {
    && now.connected == before.connected
    && now.free >= before.free - (|now.sent| - |before.sent|)
    && (exists k: nat | k <= |chunk| ::
          && now.sent == before.sent + chunk[..k]
          && Min(|chunk|, before.free) <= k
          && (now.connected ==> k == |chunk|))
    && match before.image
       case None => now.image == None
       case Some(m) =>
         m.read < |m.data| && m.write < |m.data| && now.image == Some(WriteImage(m, chunk))
  }

  /** The chunks reach the outputs one after the other. */
  ghost predicate Since(chunks: seq<seq<u8>>, before: Outputs, now: Outputs)
    decreases |chunks|
  {
    if chunks == [] then now == before
    else exists next :: Takes(chunks[0], before, next) && Since(chunks[1..], next, now)
  }

  lemma {:induction false} SinceTwice(a: seq<seq<u8>>, b: seq<seq<u8>>, n0: Outputs, n1: Outputs, n2: Outputs)
    requires Since(a, n0, n1) && Since(b, n1, n2)
    ensures Since(a + b, n0, n2)
    decreases |a|
  {
    if a == [] {
      assert a + b == b;
    } else {
      var next :| Takes(a[0], n0, next) && Since(a[1..], next, n1);
      SinceTwice(a[1..], b, next, n1, n2);
      assert (a + b)[0] == a[0] && (a + b)[1..] == a[1..] + b;
    }
  }

  /** What that comes to: the ring takes the chunks as `WriteChunks` says, the
      host gets fronts of all chunks in order, and all bytes if it is connected. */
  ghost predicate Arrived(chunks: seq<seq<u8>>, before: Outputs, now: Outputs) {
    && now.connected == before.connected
    && SentSince(chunks, before.sent, before.free, now.sent, now.free, now.connected)
    && match before.image
       case None => now.image == None
       case Some(m) =>
         m.read < |m.data| && m.write < |m.data| && now.image == Some(WriteChunks(m, chunks))
  }

  predicate Usable(now: Outputs) {
    now.image.Some? ==>
      now.image.value.read < |now.image.value.data| && now.image.value.write < |now.image.value.data|
  }

  lemma {:induction false} ChunksArrive(chunks: seq<seq<u8>>, before: Outputs, now: Outputs)
    requires Since(chunks, before, now) && Usable(before)
    ensures Arrived(chunks, before, now)
    decreases |chunks|
  {
    if chunks == [] {
      SentNothing(now.sent, now.free, now.connected);
    } else {
      var next :| Takes(chunks[0], before, next) && Since(chunks[1..], next, now);
      var k: nat :| k <= |chunks[0]| && next.sent == before.sent + chunks[0][..k]
                    && Min(|chunks[0]|, before.free) <= k && (next.connected ==> k == |chunks[0]|);
      ChunksArrive(chunks[1..], next, now);
      SentFirst(chunks[0], k, before, next);
      SentTwice([chunks[0]], chunks[1..], before.sent, before.free, next.sent, next.free,
                now.sent, now.free, now.connected);
      assert [chunks[0]] + chunks[1..] == chunks;
    }
  }

  lemma SentFirst(chunk: seq<u8>, k: nat, before: Outputs, now: Outputs)
    requires k <= |chunk| && now.sent == before.sent + chunk[..k] && Min(|chunk|, before.free) <= k
    requires now.free >= before.free - (|now.sent| - |before.sent|) && (now.connected ==> k == |chunk|)
    ensures SentSince([chunk], before.sent, before.free, now.sent, now.free, now.connected)
  {
    OneFront(chunk, k, before.free);
    assert now.sent[|before.sent|..] == chunk[..k];
    FlattenOne(chunk);
    assert k == |chunk| ==> chunk[..k] == chunk;
  }

  /** A frame in parts arrives as a whole; in the ring it is one write. */
  lemma FrameArrives(a: seq<seq<u8>>, b: seq<seq<u8>>, n0: Outputs, n1: Outputs, n2: Outputs)
    requires Since(a, n0, n1) && Since(b, n1, n2) && Usable(n0)
    ensures Since(a + b, n0, n2)
    ensures n2.connected ==> n2.sent == n0.sent + Flatten(a + b)
    ensures n0.image.Some? ==> n2.image == Some(WriteImage(n0.image.value, Flatten(a + b)))
  {
    SinceTwice(a, b, n0, n1, n2);
    ChunksArrive(a + b, n0, n2);
    if n0.image.Some? {
      if a + b == [] {
        NothingWritten(n0.image.value);
      } else {
        ChunkingIndependence(n0.image.value, a + b);
      }
    }
  }
}
