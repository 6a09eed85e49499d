/** Initialization: the checks on the memory region, the one-shot guard, the
    hand-over of the producer to the logger, and the recovered length. */
module Init {
  import opened Words
  import opened RingIndex
  import opened RingSpec
  import opened RingBuffers
  import EccRam
  import Loggers

  datatype InitError = AlreadyInitialized | BadAlignment | TooSmall | TooLarge

  datatype Result<+T, +E> = Success(value: T) | Failure(error: E)

  /** Size of the header fields with the `ecc` layout. */
  const HEADER_SIZE: nat := 32

  /** The buffer begins right behind the header fields. */
  lemma BufferBehindHeader(i: nat, byte: u8, s: EccRam.Store)
    requires EccRam.InRegion(s)
    ensures EccRam.Address(EccRam.StoreData(i, byte)) == HEADER_SIZE + i
    ensures !s.StoreData? ==> EccRam.Address(s) + EccRam.Size(s) <= HEADER_SIZE
  {
  }

  /** `Range::len`. */
  function RangeLen(start: nat, end: nat): nat {
    Max(0, end - start)
  }

  /** What is wrong with the region, in the order the checks are made. */
  function RegionError(start: nat, end: nat, align: nat): (e: Result<nat, InitError>)
    requires 0 < align
    // the bounds that all index arithmetic rests on
    ensures e.Success? ==> 1 <= e.value < BUF_LIMIT && 2 * e.value <= U32_RANGE && AsU32(e.value) == e.value
    ensures e.Success? <==>
              start % align == 0 && HEADER_SIZE + 1 <= end - start < HEADER_SIZE + I32_MAX / 4
    ensures e.Success? ==> e.value == end - start - HEADER_SIZE
    // the refusals
    ensures e == Failure(BadAlignment) <==> start % align != 0
    ensures e == Failure(TooSmall) <==> start % align == 0 && end - start <= HEADER_SIZE
    ensures e == Failure(TooLarge) <==> start % align == 0 && end - start >= HEADER_SIZE + I32_MAX / 4
    ensures e != Failure(AlreadyInitialized)
  {
    if start % align != 0 then Failure(BadAlignment)
    else if RangeLen(start, end) <= HEADER_SIZE then Failure(TooSmall)
    else
      var bufLen := RangeLen(start, end) - HEADER_SIZE;
      if bufLen >= I32_MAX / 4 then Failure(TooLarge)
      else Success(bufLen)
  }

  datatype ConsumerAndMetadata = ConsumerAndMetadata(consumer: Consumer, recoveredLogsLen: nat)

  /** The queue after recovery and a few writes starts with what was recovered. */
  lemma InitialQueue(m: Mem, chunks: seq<seq<u8>>)
    requires 0 < |m.data|
    ensures Ready(MAGIC, RecoverImage(MAGIC, m))
    ensures var m' := WriteChunks(RecoverImage(MAGIC, m), chunks);
            RecoveredContent(MAGIC, m) <= Queue(m'.data, m'.read, m'.write)
    ensures chunks == [] ==> WriteChunks(RecoverImage(MAGIC, m), chunks) == RecoverImage(MAGIC, m)
    ensures var m' := RecoverImage(MAGIC, m);
            Queue(m'.data, m'.read, m'.write) == RecoveredContent(MAGIC, m)
  {
    RecoverImageIsQueue(MAGIC, m);
    ChunksOnlyAppend(RecoverImage(MAGIC, m), chunks);
  }

  /** The program's statics that `Init` works with. */
  class Statics {
    var initialized: bool
    const logger: Loggers.LoggerState

    constructor (logger: Loggers.LoggerState)
      ensures !initialized && this.logger == logger
    {
      this.initialized, this.logger := false, logger;
    }

    /** Recovers the ring and makes it available to the logger. */
    method HandOver(memory: RingBuffer, preempting: seq<seq<u8>>) returns (c: Consumer)
      requires logger.Valid() && !logger.initialized
      requires 0 < memory.buf.Length < BUF_LIMIT && memory.buf != logger.channel.buffer
      modifies logger.cpu, logger`producer, logger`initialized, memory, memory.buf,
               logger.channel, logger.channel.buffer, logger.host
      ensures memory.Valid() && logger.Valid() && logger.initialized
      ensures logger.producer.ring == memory && c.ring == memory
      ensures logger.cpu.masked == old(logger.cpu.masked)
      ensures memory.Image() == WriteChunks(RecoverImage(MAGIC, old(memory.Image())), preempting)
      ensures RecoveredContent(MAGIC, old(memory.Image())) <= memory.Contents()
      ensures preempting == [] ==> memory.Contents() == RecoveredContent(MAGIC, old(memory.Image()))
    {
      InitialQueue(memory.Image(), preempting);
      var p;
      p, c := memory.RecoverOrReinitialize();
      logger.Initialize(p);
      LogMeanwhile(preempting);
    }

    /** Logging contexts come in between, in critical sections of their own. */
    method LogMeanwhile(chunks: seq<seq<u8>>)
      requires logger.Valid() && logger.initialized
      modifies logger.cpu, logger.Memory()
      ensures logger.Valid() && logger.cpu.masked == old(logger.cpu.masked)
      ensures logger.Image() == WriteChunks(old(logger.Image()), chunks)
    {
      var restore := logger.cpu.EnterCs();
      ghost var before := logger.Now();
      logger.PassOn(chunks);
      Loggers.ChunksArrive(chunks, before, logger.Now());
      logger.cpu.LeaveCs(restore);
    }

    /** `memory` is the region `start..end` looked at as a ring buffer.
        `preempting` are the chunks that logging contexts write between the
        moment the logger gets the producer and the sampling of the length. */
    method Init(start: nat, end: nat, align: nat, memory: RingBuffer, preempting: seq<seq<u8>>)
      returns (r: Result<ConsumerAndMetadata, InitError>)
      requires 0 < align && logger.Valid()
      requires memory.buf != logger.channel.buffer
      requires !initialized ==> !logger.initialized
      requires RangeLen(start, end) > HEADER_SIZE ==> memory.buf.Length == RangeLen(start, end) - HEADER_SIZE
      modifies this`initialized, logger.cpu, logger`producer, logger`initialized, memory, memory.buf,
               logger.channel, logger.channel.buffer, logger.host
      ensures initialized && logger.cpu.masked == old(logger.cpu.masked)
      // failures: the guard first, then the region; nothing is touched
      ensures r == Failure(AlreadyInitialized) <==> old(initialized)
      ensures r.Failure? <==> old(initialized) || RegionError(start, end, align).Failure?
      ensures r.Failure? && !old(initialized) ==> r.error == RegionError(start, end, align).error
      ensures r.Failure? ==> memory.Image() == old(memory.Image()) && logger.initialized == old(logger.initialized)
      // success: the logger writes to the queue that the consumer reads
      ensures r.Success? ==>
                && memory.Valid() && logger.Valid() && logger.initialized
                && logger.producer.ring == memory && r.value.consumer.ring == memory
      // the queue is what was recovered, then what this run logged
      ensures r.Success? ==>
                && memory.Image() == WriteChunks(RecoverImage(MAGIC, old(memory.Image())), preempting)
                && RecoveredContent(MAGIC, old(memory.Image())) <= memory.Contents()
      // the length covers the recovered part, and nothing else if nobody logged
      ensures r.Success? ==>
                && |RecoveredContent(MAGIC, old(memory.Image()))| <= r.value.recoveredLogsLen
                && r.value.recoveredLogsLen == |memory.Contents()|
                && (preempting == [] ==>
                      && memory.Contents() == RecoveredContent(MAGIC, old(memory.Image()))
                      && r.value.recoveredLogsLen == |RecoveredContent(MAGIC, old(memory.Image()))|)
    {
      var already := initialized;
      initialized := true;
      if already {
        return Failure(AlreadyInitialized);
      }
      var region := RegionError(start, end, align);
      if region.Failure? {
        return Failure(region.error);
      }
      var c := HandOver(memory, preempting);
      var grant := c.Read();
      var buf1, buf2 := grant.Bufs();
      return Success(ConsumerAndMetadata(c, |buf1| + |buf2|));
    }
  }
}
