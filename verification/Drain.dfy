/** The two documented ways to empty the queue. */
module Drain {
  import opened Words
  import opened RingBuffers

  /** A serial port that sends everything it is given. */
  class Uart {
    var sent: seq<u8>

    constructor ()
      ensures sent == []
    {
      sent := [];
    }

    method WriteBytes(bytes: seq<u8>)
      modifies this
      ensures sent == old(sent) + bytes
    {
      sent := sent + bytes;
    }
  }

  /** Sends the whole queue, once and in order, and leaves it empty. */
  method DrainToUart(consumer: Consumer, uart: Uart)
    requires consumer.ring.Valid()
    modifies consumer.ring`read, consumer.ring`eccFlush, consumer.ring`stores, uart
    ensures consumer.ring.Valid() && consumer.ring.Contents() == []
    ensures uart.sent == old(uart.sent) + old(consumer.ring.Contents())
  {
    var ring := consumer.ring;
    ghost var all := ring.Contents();
    ghost var before := uart.sent;
    var empty := consumer.IsEmpty();
    while !empty
      invariant ring.Valid() && (empty <==> ring.Contents() == [])
      invariant uart.sent + ring.Contents() == before + all
      decreases |ring.Contents()|
    {
      var data := consumer.Read();
      var buf1, buf2 := data.Bufs();
      ghost var sent, granted := uart.sent, data.Granted();
      uart.WriteBytes(buf1);
      uart.WriteBytes(buf2);
      AppendAssociates(sent, buf1, buf2);
      data.ReleaseAll();
      AppendNothing(uart.sent);
      empty := consumer.IsEmpty();
    }
    AppendNothing(uart.sent);
  }

  /** A link that may send less than it is offered, also nothing, but not nothing
      forever: `patience` bounds how often in a row. */
  class Link {
    var sent: seq<u8>
    var patience: nat

    constructor ()
      ensures sent == []
    {
      sent, patience := [], 0;
    }

    method Transmit(buf1: seq<u8>, buf2: seq<u8>) returns (len: nat)
      modifies this
      ensures len <= |buf1| + |buf2| && sent == old(sent) + (buf1 + buf2)[..len]
      ensures len == 0 < |buf1| + |buf2| ==> patience < old(patience)
    {
      var total := |buf1| + |buf2|;
      var least := if total > 0 && patience == 0 then 1 else 0;
      len :| least <= len <= total;
      sent := sent + (buf1 + buf2)[..len];
      if len > 0 {
        var renewed: nat := *;
        patience := renewed;
      } else if total > 0 {
        patience := patience - 1;
      }
    }
  }

  /** Releases after each round what was really sent. Nothing is lost, repeated
      or reordered, however the link cuts the rounds. */
  method DrainPartially(consumer: Consumer, link: Link)
    requires consumer.ring.Valid()
    modifies consumer.ring`read, consumer.ring`eccFlush, consumer.ring`stores, link
    ensures consumer.ring.Valid() && consumer.ring.Contents() == []
    ensures link.sent == old(link.sent) + old(consumer.ring.Contents())
  {
    var ring := consumer.ring;
    ghost var all := ring.Contents();
    ghost var before := link.sent;
    var empty := consumer.IsEmpty();
    while !empty
      invariant ring.Valid() && (empty <==> ring.Contents() == [])
      invariant link.sent + ring.Contents() == before + all
      decreases |ring.Contents()|, link.patience
    {
      var grant := consumer.Read();
      var buf1, buf2 := grant.Bufs();
      ghost var sent, granted := link.sent, grant.Granted();
      var len := link.Transmit(buf1, buf2);
      grant.Release(len as usize);
      MoveAcross(sent, granted, len);
      empty := consumer.IsEmpty();
    }
    AppendNothing(link.sent);
  }

  lemma MoveAcross(sent: seq<u8>, granted: seq<u8>, len: nat)
    requires len <= |granted|
    ensures sent + granted[..len] + granted[len..] == sent + granted
  {
  }
}
