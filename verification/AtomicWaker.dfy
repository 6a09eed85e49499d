/** The waker cell shared by the consumer task and the logging contexts, and the
    interrupt mask behind its critical sections. */
module AtomicWakers {
  import opened Words

  /** What the core does, as far as its order matters: it enters and leaves
      critical sections, passes a chunk on to the outputs, and wakes a task. */
  datatype CoreEvent = Entered | Left(masked: bool) | Output(bytes: seq<u8>) | Woke

  /** The core's interrupt mask. Entering a critical section returns the state
      that leaving it puts back. */
  class Cpu {
    var masked: bool
    ghost var trace: seq<CoreEvent>

    constructor ()
      ensures !masked && trace == []
    {
      masked, trace := false, [];
    }

    method EnterCs() returns (restore: bool)
      modifies this
      ensures masked && restore == old(masked) && trace == old(trace) + [Entered]
    {
      restore := masked;
      masked := true;
      trace := trace + [Entered];
    }

    method LeaveCs(restore: bool)
      modifies this
      ensures masked == restore && trace == old(trace) + [Left(restore)]
    {
      masked := restore;
      trace := trace + [Left(restore)];
    }
  }

  /** A task's waker; `calls` counts how often it was woken. */
  class Waker {
    var calls: nat

    constructor ()
      ensures calls == 0
    {
      calls := 0;
    }

    method Wake(cpu: Cpu)
      modifies this, cpu`trace
      ensures calls == old(calls) + 1 && cpu.trace == old(cpu.trace) + [Woke]
    {
      calls := calls + 1;
      cpu.trace := cpu.trace + [Woke];
    }
  }

  class AtomicWaker {
    const cpu: Cpu
    var waker: Waker?

    constructor (cpu: Cpu)
      ensures this.cpu == cpu && waker == null
    {
      this.cpu := cpu;
      this.waker := null;
    }

    // The cell is touched in critical sections only.

    method Replace(newWaker: Waker)
      requires cpu.masked
      modifies this`waker
      ensures waker == newWaker
    {
      waker := newWaker;
    }

    method Take() returns (taken: Waker?)
      requires cpu.masked
      modifies this`waker
      ensures waker == null && taken == old(waker)
    {
      taken := waker;
      waker := null;
    }

    /** Registers a waker in place of the previous one. */
    method Register(newWaker: Waker)
      modifies this`waker, cpu
      ensures waker == newWaker && cpu.masked == old(cpu.masked)
      ensures cpu.trace == old(cpu.trace) + [Entered, Left(old(cpu.masked))]
    {
      var restore := cpu.EnterCs();
      Replace(newWaker);
      cpu.LeaveCs(restore);
    }

    /** Wakes the registered waker once, if there is one, after leaving the
        critical section again. */
    method Wake()
      modifies this`waker, cpu, if waker == null then {} else {waker}
      ensures waker == null && cpu.masked == old(cpu.masked)
      ensures old(waker) != null ==> old(waker).calls == old(waker.calls) + 1
      ensures cpu.trace
           == old(cpu.trace) + [Entered, Left(old(cpu.masked))] + if old(waker) != null then [Woke] else []
    {
      var restore := cpu.EnterCs();
      var taken := Take();
      cpu.LeaveCs(restore);
      if taken != null {
        taken.Wake(cpu);
      }
    }
  }
}
