/** The ring buffer as the code has it: objects whose methods store into the
    header fields and the buffer. Every index is a machine integer, so the
    verifier also checks that no expression overflows or underflows. */
module RingBuffers {
  import opened Words
  import opened RingIndex
  import opened RingSpec
  import opened EccRam
  import opened RingStores

  /** `init` admits only buffers with `1 <= len < i32::MAX / 4`. */
  const BUF_LIMIT: int := I32_MAX / 4

  /** The header fields of the region together with the buffer behind them.
      `stores` records what was stored, in order. */
  class RingBuffer {
    var header: seq<u32>
    var read: u32
    var write: u32
    var eccFlush: u8
    const buf: array<u8>
    ghost var stores: seq<Store>

    /** A view of memory that may hold anything. */
    constructor (header: seq<u32>, read: u32, write: u32, buf: array<u8>)
      ensures this.header == header && this.read == read && this.write == write && this.buf == buf
      ensures stores == []
    {
      this.header, this.read, this.write, this.eccFlush, this.buf := header, read, write, 0, buf;
      stores := [];
    }

    ghost function Image(): Mem
      reads this, buf
    {
      Mem(header, read as nat, write as nat, buf[..])
    }

    ghost predicate Valid()
      reads this, buf
    {
      1 <= buf.Length < BUF_LIMIT && Ready(MAGIC, Image())
    }

    ghost function Contents(): seq<u8>
      reads this, buf
      requires Valid()
    {
      Queue(buf[..], read as nat, write as nat)
    }

    method StoreReadIndex(index: u32)
      modifies this`read, this`stores
      ensures read == index && stores == old(stores) + [StoreRead(index as nat)]
    {
      read := index;
      stores := stores + [StoreRead(index as nat)];
    }

    method StoreWriteIndex(index: u32)
      modifies this`write, this`stores
      ensures write == index && stores == old(stores) + [StoreWrite(index as nat)]
    {
      write := index;
      stores := stores + [StoreWrite(index as nat)];
    }

    method StoreMagic()
      modifies this`header, this`stores
      ensures header == MAGIC && stores == old(stores) + HeaderStores(MAGIC)
    {
      header := MAGIC;
      stores := stores + HeaderStores(MAGIC);
    }

    method FlushEcc()
      modifies this`eccFlush, this`stores
      ensures eccFlush == 0 && stores == old(stores) + [StoreFlush]
    {
      eccFlush := 0;
      stores := stores + [StoreFlush];
    }

    method StoreBytes(at: usize, data: seq<u8>)
      requires at as int < buf.Length && |data| < buf.Length <= I32_MAX
      modifies buf, this`stores
      ensures buf[..] == Overlay(old(buf[..]), at as int, data)
      ensures stores == old(stores) + CopyStores(buf.Length, at as int, data)
    {
      CopyAround(buf, at, data);
      stores := stores + CopyStores(buf.Length, at as int, data);
    }

    /** Creates a queue, or recovers the one the memory holds. */
    method RecoverOrReinitialize() returns (p: Producer, c: Consumer)
      requires 1 <= buf.Length < BUF_LIMIT
      modifies this
      ensures Valid() && p.ring == this && c.ring == this
      ensures Image() == RecoverImage(MAGIC, old(Image()))
      ensures Contents() == RecoveredContent(MAGIC, old(Image()))
      ensures stores == old(stores) + RecoverStores(MAGIC, old(Image()))
    {
      RecoverImageIsQueue(MAGIC, Image());
      if header != MAGIC {
        StoreReadIndex(0);
        StoreWriteIndex(0);
        FlushEcc();
        StoreMagic();
      } else {
        var w := write as usize;
        var r := read as usize;
        var readOk := r < buf.Length as usize;
        var writeOk := w < buf.Length as usize;
        match (readOk, writeOk) {
          case (true, true) =>
          case (true, false) => StoreWriteIndex(r as u32);
          case (false, true) => StoreReadIndex(w as u32);
          case (false, false) =>
            StoreReadIndex(0);
            StoreWriteIndex(0);
        }
        FlushEcc();
      }
      p := new Producer(this);
      c := new Consumer(this);
    }
  }

  /** Copies `src` over `dst[at..at + |src|]`. */
  method CopyNonoverlapping(src: seq<u8>, dst: array<u8>, at: usize)
    requires at as int + |src| <= dst.Length
    modifies dst
    ensures dst[..] == old(dst[..at as int]) + src + old(dst[at as int + |src|..])
  {
    var k := 0;
    while k < |src|
      invariant 0 <= k <= |src|
      invariant forall i | 0 <= i < dst.Length ::
        dst[i] == if at as int <= i < at as int + k then src[i - at as int] else old(dst[i])
    {
      dst[at as int + k] := src[k];
      k := k + 1;
    }
  }

  /** Copies `data` into the ring from cell `write` on: in one piece, or in two
      pieces across the end of the buffer. */
  method CopyAround(buf: array<u8>, write: usize, data: seq<u8>)
    requires write as int < buf.Length && |data| < buf.Length <= I32_MAX
    modifies buf
    ensures buf[..] == Overlay(old(buf[..]), write as int, data)
  {
    var len := |data| as usize;
    if write + len > buf.Length as usize {
      var pivot := buf.Length as usize - write;
      OverlayWraps(buf[..], write as int, data);
      CopyNonoverlapping(data[..pivot], buf, write);
      CopyNonoverlapping(data[pivot..], buf, 0);
    } else {
      OverlayFits(buf[..], write as int, data);
      CopyNonoverlapping(data, buf, write);
    }
  }

  class Producer {
    const ring: RingBuffer

    constructor (ring: RingBuffer)
      ensures this.ring == ring
    {
      this.ring := ring;
    }

    /** The number of bytes that a `write` can still take. */
    function Available(read: usize, write: usize): (n: usize)
      requires ring.buf.Length < BUF_LIMIT
      requires read as int < ring.buf.Length && write as int < ring.buf.Length
      ensures n as int == ring.buf.Length - 1 - QueueLen(ring.buf.Length, read as int, write as int)
    {
      if read > write then
        read - write - 1
      else
        ring.buf.Length as usize - write - 1 + read
    }

    /** Appends `data`; what does not fit is discarded from its end. */
    method Write(data: seq<u8>)
      requires ring.Valid()
      modifies ring`write, ring`eccFlush, ring`stores, ring.buf
      ensures ring.Valid()
      ensures ring.Image() == WriteImage(old(ring.Image()), data)
      ensures ring.Contents()
           == old(ring.Contents()) + data[..Min(|data|, ring.buf.Length - 1 - |old(ring.Contents())|)]
      ensures ring.stores == old(ring.stores) + WriteStores(old(ring.Image()), data)
    {
      ghost var before := ring.Image();
      WriteAppends(before, data);
      var buf := ring.buf;
      var read := ring.read as usize;
      var write := ring.write as usize;
      var len := Min(|data|, Available(read, write) as int) as usize;
      assert len as int == Accepted(before, data);
      if len == 0 {
        OverlayNothing(buf[..], write as int);
        assert data[..0] == [];
        return;
      }
      NewWriteWraps(buf.Length, write as int, len as int);
      ring.StoreBytes(write, data[..len]);
      ring.FlushEcc();
      ring.StoreWriteIndex(NewWrite(buf.Length, write as int, len as int) as u32);
      ring.FlushEcc();
      assert ring.Image() == WriteImage(before, data);
    }
  }

  class Consumer {
    const ring: RingBuffer

    constructor (ring: RingBuffer)
      ensures this.ring == ring
    {
      this.ring := ring;
    }

    /** Is there nothing to read? */
    method IsEmpty() returns (empty: bool)
      requires ring.Valid()
      ensures empty <==> ring.Contents() == []
    {
      var write := ring.write as usize;
      var read := ring.read as usize;
      empty := write == read;
    }

    /** Hands out everything that is stored, in two slices. */
    method Read() returns (grant: GrantR)
      requires ring.Valid()
      ensures fresh(grant) && grant.ring == ring && grant.Valid()
      ensures grant.Granted() == ring.Contents()
    {
      var write := ring.write as usize;
      var read := ring.read as usize;
      var len1, len2: usize;
      if write < read {
        len1, len2 := ring.buf.Length as usize - read, write;
      } else {
        len1, len2 := write - read, 0;
      }
      SlicesAreQueue(ring.buf[..], read as int, write as int);
      grant := new GrantR(ring, read, len1, len2);
    }
  }

  /** Access to `buf[originalRead..][..len1]` and `buf[..len2]`. The slices are
      views: they show the bytes the buffer holds at the time of looking. */
  class GrantR {
    const ring: RingBuffer
    const originalRead: usize
    const len1: usize
    const len2: usize

    constructor (ring: RingBuffer, originalRead: usize, len1: usize, len2: usize)
      ensures this.ring == ring && this.originalRead == originalRead
      ensures this.len1 == len1 && this.len2 == len2
    {
      this.ring, this.originalRead, this.len1, this.len2 := ring, originalRead, len1, len2;
    }

    /** The grant covers a front part of the queue. It stays valid when the
        producer appends. */
    ghost predicate Valid()
      reads this, ring, ring.buf
    {
      && ring.Valid()
      && originalRead as int == ring.read as int
      && len1 as int + len2 as int <= |ring.Contents()|
      && originalRead as int + len1 as int <= ring.buf.Length
      && (len2 > 0 ==> originalRead as int + len1 as int == ring.buf.Length)
    }

    ghost function Granted(): seq<u8>
      reads this, ring, ring.buf
      requires Valid()
    {
      ring.Contents()[..len1 as int + len2 as int]
    }

    /** The granted bytes. */
    method Bufs() returns (slice1: seq<u8>, slice2: seq<u8>)
      requires Valid()
      ensures |slice1| == len1 as int && |slice2| == len2 as int
      ensures slice1 + slice2 == Granted()
    {
      slice1 := ring.buf[originalRead..originalRead as int + len1 as int];
      slice2 := ring.buf[..len2];
    }

    /** Marks `used` bytes (at most the whole grant) as consumed. */
    method Release(used: usize)
      requires Valid()
      modifies ring`read, ring`eccFlush, ring`stores
      ensures ring.Valid()
      ensures ring.Contents() == old(ring.Contents())[Min(used as int, len1 as int + len2 as int)..]
      ensures ring.Image() == ReleaseImage(old(ring.Image()), Min(used as int, len1 as int + len2 as int))
      ensures ring.stores
           == old(ring.stores) + ReleaseStores(old(ring.Image()), Min(used as int, len1 as int + len2 as int))
    {
      var used' := if used < len1 + len2 then used else len1 + len2;
      DropQueue(ring.buf[..], originalRead as int, ring.write as int, used' as int);
      var read := originalRead;
      var newRead := if read + used' < ring.buf.Length as usize then read + used' else used' - len1;
      ring.StoreReadIndex(newRead as u32);
      ring.FlushEcc();
    }

    /** Marks the whole grant as consumed. */
    method ReleaseAll()
      requires Valid()
      modifies ring`read, ring`eccFlush, ring`stores
      ensures ring.Valid()
      ensures ring.Contents() == old(ring.Contents())[len1 as int + len2 as int..]
      ensures ring.Image() == ReleaseImage(old(ring.Image()), len1 as int + len2 as int)
      ensures ring.stores == old(ring.stores) + ReleaseStores(old(ring.Image()), len1 as int + len2 as int)
    {
      Release(0xffff_ffff);
    }
  }

  /** While a grant is out, a write changes none of its bytes and the grant
      still covers the front of the queue. */
  method WriteUnderGrant(p: Producer, grant: GrantR, data: seq<u8>)
    requires grant.Valid() && p.ring == grant.ring
    modifies p.ring`write, p.ring`eccFlush, p.ring`stores, p.ring.buf
    ensures grant.Valid() && grant.Granted() == old(grant.Granted())
    ensures var at := grant.originalRead as int;
            p.ring.buf[at..at + grant.len1 as int] == old(p.ring.buf[at..at + grant.len1 as int])
    ensures p.ring.buf[..grant.len2] == old(p.ring.buf[..grant.len2])
  {
    p.Write(data);
  }
}
