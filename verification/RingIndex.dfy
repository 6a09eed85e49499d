/** Index arithmetic of the ring: the expressions the code evaluates, branch by
    branch, and what they mean on positions taken around the ring.

    `len` is the buffer length. Indices lie in `[0, len)`; the ring stores at
    most `len - 1` bytes, so equal indices mean an empty ring. */
module RingIndex {
  import opened Words

  // ---------- what the code computes ----------

  /** Free space seen by the producer. */
  function Available(len: nat, read: nat, write: nat): nat
    requires read < len && write < len
  {
    if read > write then read - write - 1 else len - write - 1 + read
  }

  /** Lengths of the two slices of a grant. */
  function SliceLens(len: nat, read: nat, write: nat): (nat, nat)
    requires read < len && write < len
  {
    if write < read then (len - read, write) else (write - read, 0)
  }

  /** The read index stored by a release of `used` bytes out of a grant whose
      first slice holds `len1` bytes. */
  function NewRead(len: nat, read: nat, used: nat, len1: nat): int {
    if read + used < len then read + used else used - len1
  }

  /** The write index stored after `n` accepted bytes. */
  function NewWrite(len: nat, write: nat, n: nat): nat
    requires 0 < len
  {
    AsU32(WrappingAdd(write, n) % len)
  }

  /** The cell that receives byte `j` of `n` accepted bytes: one copy when they
      fit before the end of the ring, else two copies split at the pivot. */
  function CopyCell(len: nat, write: nat, n: nat, j: nat): int {
    if write + n > len then
      var pivot := len - write;
      if j < pivot then write + j else j - pivot
    else
      write + j
  }

  // ---------- what it means ----------

  /** One step past the end of the ring starts again at cell 0. */
  function Wrap(len: nat, x: nat): int {
    if x < len then x else x - len
  }

  function QueueLen(len: nat, read: nat, write: nat): nat
    requires read < len && write < len
  {
    if write < read then len - read + write else write - read
  }

  /** The bytes stored in the ring, oldest first. */
  function Queue<T>(data: seq<T>, read: nat, write: nat): (q: seq<T>)
    requires read < |data| && write < |data|
    ensures |q| == QueueLen(|data|, read, write) < |data|
    ensures forall i | 0 <= i < |q| :: q[i] == data[Wrap(|data|, read + i)]
  {
    seq(QueueLen(|data|, read, write),
        i requires 0 <= i < QueueLen(|data|, read, write) => data[Wrap(|data|, read + i)])
  }

  /** How far cell `i` lies ahead of cell `start`, going around the ring. */
  function Offset(len: nat, start: nat, i: nat): (k: nat)
    requires start < len && i < len
    ensures k < len && Wrap(len, start + k) == i
  {
    if start <= i then i - start else i + len - start
  }

  /** `data` with `bytes` laid around the ring from cell `start` on. */
  function Overlay<T>(data: seq<T>, start: nat, bytes: seq<T>): (d: seq<T>)
    requires start < |data| && |bytes| <= |data|
    ensures |d| == |data|
  {
    seq(|data|, i requires 0 <= i < |data| =>
      var offset := Offset(|data|, start, i);
      if offset < |bytes| then bytes[offset] else data[i])
  }

  // ---------- the two agree ----------

  lemma AvailableIsFreeSpace(len: nat, read: nat, write: nat)
    requires read < len && write < len
    ensures Available(len, read, write) == len - 1 - QueueLen(len, read, write)
  {
  }

  lemma QuotientIsUnique(q: nat, m: nat, d: nat, n: nat, len: nat)
    requires q * len + m == d * len + n && m < len && n < len
    ensures m == n
  {
    if d < q {
      MulAtLeast(q - d, len);
    } else if q < d {
      MulAtLeast(d - q, len);
    }
  }

  lemma MulAtLeast(k: nat, len: nat)
    requires 0 < k
    ensures k * len >= len
  {
  }

  lemma ModIsUnique(a: nat, q: nat, len: nat, m: nat)
    requires a == q * len + m && m < len
    ensures a % len == m
  {
    var d, n := a / len, a % len;
    assert d * len + n == a;
    QuotientIsUnique(q, m, d, n, len);
  }

  /** For an index that ran at most one ring too far, `%` is one subtraction. */
  lemma ModIsWrap(len: nat, x: nat)
    requires x < 2 * len
    ensures x % len == Wrap(len, x)
  {
    if x < len {
      ModIsUnique(x, 0, len, x);
    } else {
      ModIsUnique(x, 1, len, x - len);
    }
  }

  /** Nothing is lost in the 32-bit conversions, and the stored write index is
      `write + n` taken around the ring. */
  lemma NewWriteWraps(len: nat, write: nat, n: nat)
    requires write < len && n <= len && 2 * len <= U32_RANGE
    ensures write + n < U32_RANGE
    ensures NewWrite(len, write, n) == Wrap(len, write + n) < len
  {
    ModIsWrap(len, write + n);
  }

  /** The branch of `release` neither underflows nor leaves the ring: it is
      `read + used` taken around the ring. */
  lemma NewReadWraps(len: nat, read: nat, write: nat, used: nat)
    requires read < len && write < len
    requires used <= QueueLen(len, read, write)
    ensures read + used >= len ==> used >= SliceLens(len, read, write).0
    ensures NewRead(len, read, used, SliceLens(len, read, write).0) == Wrap(len, read + used)
    ensures 0 <= Wrap(len, read + used) < len
  {
  }

  /** Both copies of a write stay inside the ring and go around it in order. */
  lemma CopyCellWraps(len: nat, read: nat, write: nat, n: nat, j: nat)
    requires read < len && write < len
    requires j < n <= Available(len, read, write)
    ensures CopyCell(len, write, n, j) == Wrap(len, write + j)
    ensures 0 <= Wrap(len, write + j) < len
  {
  }

  lemma SlicesAreQueue<T>(data: seq<T>, read: nat, write: nat)
    requires read < |data| && write < |data|
    ensures var (len1, len2) := SliceLens(|data|, read, write);
            read + len1 <= |data| && len2 <= |data| && len1 + len2 == |Queue(data, read, write)|
            && data[read..read + len1] + data[..len2] == Queue(data, read, write)
  {
  }

  /** Overlay in one piece, when it ends before the end of the ring. */
  lemma OverlayFits<T>(data: seq<T>, start: nat, bytes: seq<T>)
    requires start < |data| && start + |bytes| <= |data|
    ensures Overlay(data, start, bytes) == data[..start] + bytes + data[start + |bytes|..]
  {
  }

  /** Overlay in two pieces, split at the end of the ring. */
  lemma OverlayWraps<T>(data: seq<T>, start: nat, bytes: seq<T>)
    requires start < |data| && |bytes| <= |data| < start + |bytes|
    ensures
      var pivot := |data| - start;
      Overlay(data, start, bytes) == bytes[pivot..] + data[|bytes| - pivot..start] + bytes[..pivot]
  {
  }

  lemma OverlayNothing<T>(data: seq<T>, start: nat)
    requires start < |data|
    ensures Overlay(data, start, []) == data
  {
  }

  lemma OverlayAt<T>(data: seq<T>, start: nat, bytes: seq<T>, j: nat)
    requires start < |data| && |bytes| <= |data| && j < |data|
    ensures 0 <= Wrap(|data|, start + j) < |data|
    ensures Overlay(data, start, bytes)[Wrap(|data|, start + j)]
         == if j < |bytes| then bytes[j] else data[Wrap(|data|, start + j)]
  {
  }

  /** Appending: bytes laid in the free space extend the queue by exactly
      those bytes. Full is never confused with empty because the free space is
      one short of the ring. */
  lemma AppendQueue<T>(data: seq<T>, read: nat, write: nat, bytes: seq<T>)
    requires read < |data| && write < |data|
    requires |bytes| <= Available(|data|, read, write)
    ensures 0 <= Wrap(|data|, write + |bytes|) < |data|
    ensures Queue(Overlay(data, write, bytes), read, Wrap(|data|, write + |bytes|))
         == Queue(data, read, write) + bytes
  {
    var q := Queue(data, read, write);
    var q' := Queue(Overlay(data, write, bytes), read, Wrap(|data|, write + |bytes|));
    assert |q'| == |q| + |bytes|;
    forall i | 0 <= i < |q'|
      ensures q'[i] == (q + bytes)[i]
    {
      if i >= |q| {
        assert Wrap(|data|, read + i) == Wrap(|data|, write + (i - |q|));
        OverlayAt(data, write, bytes, i - |q|);
      }
    }
  }

  /** Bytes laid in the free space are not part of the queue yet. */
  lemma OverlayBesideQueue<T>(data: seq<T>, read: nat, write: nat, bytes: seq<T>)
    requires read < |data| && write < |data|
    requires |bytes| <= Available(|data|, read, write)
    ensures Queue(Overlay(data, write, bytes), read, write) == Queue(data, read, write)
  {
  }

  lemma OverlayTwice<T>(data: seq<T>, start: nat, bytes: seq<T>)
    requires start < |data| && |bytes| <= |data|
    ensures Overlay(Overlay(data, start, bytes), start, bytes) == Overlay(data, start, bytes)
  {
  }

  /** Releasing drops bytes from the front. */
  lemma DropQueue<T>(data: seq<T>, read: nat, write: nat, used: nat)
    requires read < |data| && write < |data|
    requires used <= QueueLen(|data|, read, write)
    ensures 0 <= Wrap(|data|, read + used) < |data|
    ensures Queue(data, Wrap(|data|, read + used), write) == Queue(data, read, write)[used..]
  {
  }

  /** Two adjacent overlays are one overlay of the concatenation. */
  lemma OverlayConcat<T>(data: seq<T>, start: nat, a: seq<T>, b: seq<T>)
    requires start < |data| && |a| + |b| <= |data| && |a| < |data|
    ensures 0 <= Wrap(|data|, start + |a|) < |data|
    ensures Overlay(Overlay(data, start, a), Wrap(|data|, start + |a|), b)
         == Overlay(data, start, a + b)
  {
  }

  // ---------- absolute positions ----------

  /** The cell of the byte at absolute position `p` of the stream. */
  function Cell(len: nat, p: nat): (c: nat)
    requires 0 < len
    ensures c < len
    decreases p
  {
    if p < len then p else Cell(len, p - len)
  }

  lemma {:induction false} CellIsMod(len: nat, p: nat)
    requires 0 < len
    ensures Cell(len, p) == p % len
    decreases p
  {
    if p < len {
      ModIsUnique(p, 0, len, p);
    } else {
      CellIsMod(len, p - len);
      var q := (p - len) / len;
      assert p == (q + 1) * len + (p - len) % len;
      ModIsUnique(p, q + 1, len, (p - len) % len);
    }
  }

  /** Moving `k` positions on moves `k` cells around the ring. */
  lemma {:induction false} CellAdd(len: nat, p: nat, k: nat)
    requires 0 < len && k <= len
    ensures Cell(len, p + k) == Wrap(len, Cell(len, p) + k)
    decreases p
  {
    if p >= len {
      CellAdd(len, p - len, k);
      assert p + k - len == p - len + k;
    } else if p + k >= len && p + k - len >= len {
      assert false;
    }
  }

  /** Positions less than a ring apart live in different cells. */
  lemma CellsDiffer(len: nat, p: nat, q: nat)
    requires 0 < len && p < q < p + len
    ensures Cell(len, p) != Cell(len, q)
  {
    CellAdd(len, p, q - p);
  }

  /** Counters less than a ring apart are determined by their indices. */
  lemma QueueLenOfCounters(len: nat, r: nat, w: nat)
    requires 0 < len && r <= w < r + len
    ensures QueueLen(len, Cell(len, r), Cell(len, w)) == w - r
  {
    CellAdd(len, r, w - r);
  }

  /** The branch of `release`, on counters. */
  lemma NewReadOfCounters(len: nat, r: nat, w: nat, used: nat)
    requires 0 < len && r <= w < r + len && used <= w - r
    ensures NewRead(len, Cell(len, r), used, SliceLens(len, Cell(len, r), Cell(len, w)).0) == Cell(len, r + used)
    ensures used > 0 ==> Cell(len, r + used) != Cell(len, r)
  {
    QueueLenOfCounters(len, r, w);
    NewReadWraps(len, Cell(len, r), Cell(len, w), used);
    CellAdd(len, r, used);
  }
}
