/** The RTT up channel: a second ring with the same index scheme, written in a
    retry loop while a debugger on the host moves the read index. */
module Rtt {
  import opened Words
  import opened RingIndex
  import RingBuffers

  const MODE_MASK: u32 := 3
  const MODE_NON_BLOCKING_TRIM: u32 := 1
  const MODE_BLOCK_IF_FULL: u32 := 2

  /** The debugger: the bytes it has read so far, and how many more looks in a
      row it may leave unread bytes alone. `left` records how many unread bytes
      each look left. */
  class Host {
    var taken: seq<u8>
    var patience: nat
    ghost var left: seq<nat>

    constructor ()
      ensures taken == [] && left == []
    {
      taken, patience, left := [], 0, [];
    }

    /** The host looks at the channel. It reads any number of unread bytes, but
        not forever none while there are any. */
    method Look(ch: Channel)
      requires ch.Valid()
      modifies this, ch`read
      ensures ch.Valid() && old(taken) <= taken
      ensures taken + ch.Unread() == old(taken + ch.Unread())
      ensures |ch.Unread()| <= |old(ch.Unread())|
      ensures |ch.Unread()| == |old(ch.Unread())| > 0 ==> patience < old(patience)
      ensures left == old(left) + [|ch.Unread()|]
    {
      var unread := Queue(ch.buffer[..], ch.read as int, ch.write as int);
      var total := |unread|;
      var least := if total > 0 && patience == 0 then 1 else 0;
      var n: nat :| least <= n <= total;
      ghost var before := taken;
      DropQueue(ch.buffer[..], ch.read as int, ch.write as int, n);
      ch.read := Wrap(ch.buffer.Length, ch.read as int + n) as u32;
      taken := taken + unread[..n];
      if n > 0 {
        var renewed: nat := *;
        patience := renewed;
      } else if total > 0 {
        patience := patience - 1;
      }
      assert ch.Unread() == unread[n..];
      left := left + [|ch.Unread()|];
      SplitTaken(before, unread, n);
    }
  }

  lemma SplitTaken(before: seq<u8>, unread: seq<u8>, n: nat)
    requires n <= |unread|
    ensures before + unread[..n] + unread[n..] == before + unread
    ensures before <= before + unread[..n]
  {
  }

  lemma StoredMore(before: seq<u8>, bytes: seq<u8>, stored: nat, consumed: nat)
    requires stored + consumed <= |bytes|
    ensures before + bytes[..stored] + bytes[stored..][..consumed] == before + bytes[..stored + consumed]
    ensures bytes[stored..][consumed..] == bytes[stored + consumed..]
  {
  }

  /** The number of bytes that the channel can still take. */
  function AvailableBufferSize(size: usize, readCursor: usize, writeCursor: usize): (n: usize)
    requires readCursor < size && writeCursor < size
    ensures n as int == size as int - 1 - QueueLen(size as int, readCursor as int, writeCursor as int)
  {
    if readCursor > writeCursor then
      readCursor - writeCursor - 1
    else
      size - writeCursor - 1 + readCursor
  }

  class Channel {
    const buffer: array<u8>
    var write: u32
    var read: u32
    var flags: u32

    constructor (buffer: array<u8>)
      requires 32 <= buffer.Length <= I32_MAX
      ensures Valid() && this.buffer == buffer && Unread() == []
      ensures flags == 1 && !HostIsConnected()
    {
      this.buffer, write, read, flags := buffer, 0, 0, MODE_NON_BLOCKING_TRIM;
    }

    ghost predicate Valid()
      reads this
    {
      32 <= buffer.Length <= I32_MAX && read as int < buffer.Length && write as int < buffer.Length
    }

    /** The bytes that the host has not read yet. */
    ghost function Unread(): seq<u8>
      reads this, buffer
      requires Valid()
    {
      Queue(buffer[..], read as int, write as int)
    }

    ghost function Free(): int
      reads this, buffer
      requires Valid()
    {
      buffer.Length - 1 - |Unread()|
    }

    /** Blocking mode means that a host is there to read: of the two mode bits,
        the upper one is set and the lower one is not. */
    predicate HostIsConnected()
      reads this
      ensures HostIsConnected() <==> flags / 2 % 2 == 1 && flags % 2 == 0
    {
      flags % (MODE_MASK + 1) == MODE_BLOCK_IF_FULL
    }

    /** Copies as much as fits and moves the write index past it. The host may
        read on while this is going on. */
    method WriteImpl(bytes: seq<u8>, cursor: usize, available: usize, host: Host) returns (consumed: usize)
      requires Valid() && cursor as int == write as int && available as int <= Free()
      modifies this`write, this`read, buffer, host
      ensures Valid() && consumed as int == Min(|bytes|, available as int)
      ensures host.taken + Unread() == old(host.taken + Unread()) + bytes[..consumed]
      ensures old(host.taken) <= host.taken
      ensures old(host.left) <= host.left && |host.left| == |old(host.left)| + 1
    {
      var len := Min(|bytes|, available as int) as usize;
      ghost var stored := bytes[..len];
      ghost var unread := Unread();
      OverlayBesideQueue(buffer[..], read as int, write as int, stored);
      OverlayTwice(buffer[..], write as int, stored);
      RingBuffers.CopyAround(buffer, cursor, bytes[..len]);
      host.Look(this);
      AppendQueue(buffer[..], read as int, write as int, stored);
      AppendAssociates(host.taken, Unread(), stored);
      NewWriteWraps(buffer.Length, cursor as int, len as int);
      write := NewWrite(buffer.Length, cursor as int, len as int) as u32;
      consumed := len;
    }

    /** One attempt in blocking mode. */
    method BlockingWrite(bytes: seq<u8>, host: Host) returns (consumed: usize)
      requires Valid()
      modifies this`write, this`read, buffer, host
      ensures Valid() && consumed as int == Min(|bytes|, old(Free()))
      ensures host.taken + Unread() == old(host.taken + Unread()) + bytes[..consumed]
      ensures old(host.taken) <= host.taken
      ensures consumed == 0 ==> host.patience == old(host.patience)
      ensures old(host.left) <= host.left && |host.left| <= |old(host.left)| + 1
    {
      if |bytes| == 0 {
        AppendNothing(host.taken + Unread());
        return 0;
      }
      var read := this.read as usize;
      var write := this.write as usize;
      var available := AvailableBufferSize(buffer.Length as usize, read, write);
      if available == 0 {
        AppendNothing(host.taken + Unread());
        return 0;
      }
      consumed := WriteImpl(bytes, write, available, host);
    }

    /** One attempt in non-blocking mode. */
    method NonblockingWrite(bytes: seq<u8>, host: Host) returns (consumed: usize)
      requires Valid()
      modifies this`write, this`read, buffer, host
      ensures Valid() && consumed as int == Min(|bytes|, old(Free()))
      ensures host.taken + Unread() == old(host.taken + Unread()) + bytes[..consumed]
      ensures old(host.taken) <= host.taken
      ensures old(host.left) <= host.left && |host.left| <= |old(host.left)| + 1
    {
      var read := this.read as usize;
      var write := this.write as usize;
      var available := AvailableBufferSize(buffer.Length as usize, read, write);
      consumed := WriteImpl(bytes, write, available, host);
    }

    /** One attempt in the mode that was found at the beginning. */
    method Attempt(hostConnected: bool, bytes: seq<u8>, host: Host) returns (consumed: usize)
      requires Valid()
      modifies this`write, this`read, buffer, host
      ensures Valid() && consumed as int == Min(|bytes|, old(Free()))
      ensures host.taken + Unread() == old(host.taken + Unread()) + bytes[..consumed]
      ensures old(host.taken) <= host.taken
      ensures hostConnected && consumed == 0 ==> host.patience == old(host.patience)
      ensures old(host.left) <= host.left && |host.left| <= |old(host.left)| + 1
    {
      if hostConnected {
        consumed := BlockingWrite(bytes, host);
      } else {
        consumed := NonblockingWrite(bytes, host);
      }
    }

    /** Stores a prefix of `bytes` behind what was stored before, whatever the
        host reads in the meantime: all of them in blocking mode, else at least
        what fits right away, and it gives up only when the host leaves the
        channel full. Terminates in all modes, as long as a host that is waited
        for does not stop reading for good. */
    method WriteAll(bytes: seq<u8>, host: Host) returns (ghost stored: nat)
      requires Valid()
      modifies this`write, this`read, buffer, host
      ensures Valid() && stored <= |bytes|
      ensures host.taken + Unread() == old(host.taken + Unread()) + bytes[..stored]
      ensures old(host.taken) <= host.taken
      ensures stored >= Min(|bytes|, old(Free()))
      // in blocking mode nothing is lost
      ensures flags / 2 % 2 == 1 && flags % 2 == 0 ==> stored == |bytes|
      // in every other mode nobody waits, and only a full channel loses anything
      ensures !(flags / 2 % 2 == 1 && flags % 2 == 0) ==>
                && old(host.left) <= host.left
                && |host.left| <= |old(host.left)| + 2 * (stored + 1)
                && (stored < |bytes| ==> buffer.Length - 1 in host.left[|old(host.left)|..])
    {
      var hostConnected := HostIsConnected();
      var rest := bytes;
      stored := 0;
      AppendNothing(host.taken + Unread());
      while rest != []
        invariant Valid() && stored <= |bytes| && rest == bytes[stored..]
        invariant host.taken + Unread() == old(host.taken + Unread()) + bytes[..stored]
        invariant old(host.taken) <= host.taken
        invariant if stored == 0 then Free() >= old(Free()) else stored >= Min(|bytes|, old(Free()))
        invariant !hostConnected ==> old(host.left) <= host.left && |host.left| <= |old(host.left)| + 2 * stored
        decreases |rest|, host.patience
      {
        host.Look(this);
        ghost var last := |host.left| - 1;
        assert host.left[last] == |Unread()|;
        var consumed := Attempt(hostConnected, rest, host);
        StoredMore(old(host.taken + Unread()), bytes, stored, consumed as int);
        stored := stored + consumed as int;
        if consumed != 0 {
          rest := rest[consumed..];
        } else if !hostConnected {
          assert host.left[|old(host.left)|..][last - |old(host.left)|] == buffer.Length - 1;
          break;
        }
      }
    }

    /** Waits, in blocking mode, until the host has read everything; in every other
        mode returns at once. */
    method Flush(host: Host)
      requires Valid()
      modifies this`read, host
      ensures Valid() && host.taken + Unread() == old(host.taken + Unread())
      ensures flags / 2 % 2 == 1 && flags % 2 == 0 ==> Unread() == []
      ensures !(flags / 2 % 2 == 1 && flags % 2 == 0) ==> host.taken == old(host.taken) && host.left == old(host.left)
    {
      if !HostIsConnected() {
        return;
      }
      while read != write
        invariant Valid() && host.taken + Unread() == old(host.taken + Unread())
        decreases |Unread()|, host.patience
      {
        host.Look(this);
      }
    }
  }
}
