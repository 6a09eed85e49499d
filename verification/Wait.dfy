/** One poll of `wait_for_data`. */
module Wait {
  import opened Words
  import RingBuffers
  import AtomicWakers
  import Loggers

  datatype Poll = Ready | Pending

  /** A log call that may come between the two steps of a poll. */
  datatype Meanwhile = Nothing | Call(starts: seq<seq<u8>>, bodies: seq<seq<u8>>, ends: seq<seq<u8>>)

  /** Registers the task's waker first and looks at the queue second, so that a
      log call that comes in between finds the waker: a pending task is either
      registered or has been woken already. */
  method PollForData(
    consumer: RingBuffers.Consumer, logger: Loggers.LoggerState, waker: AtomicWakers.Waker, meanwhile: Meanwhile)
    returns (poll: Poll)
    requires logger.Valid() && logger.depth == 0
    requires logger.initialized && logger.producer.ring == consumer.ring
    modifies logger`depth, logger`csState, logger.cpu, logger.waker`waker, logger.Memory(), waker
    ensures logger.Valid() && logger.cpu.masked == old(logger.cpu.masked) && consumer.ring.Valid()
    ensures poll.Ready? <==> consumer.ring.Contents() != []
    ensures logger.waker.waker == waker || waker.calls > old(waker.calls)
    ensures meanwhile.Nothing? ==>
              logger.waker.waker == waker && consumer.ring.Contents() == old(consumer.ring.Contents())
  {
    logger.waker.Register(waker);
    match meanwhile {
      case Nothing =>
      case Call(starts, bodies, ends) => logger.LogFrame(starts, bodies, ends);
    }
    var empty := consumer.IsEmpty();
    poll := if empty then Pending else Ready;
  }
}
