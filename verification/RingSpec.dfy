/** What the ring operations do to a memory image, stated on values. The class
    in RingBuffer.dfy is proved to compute these images, and the step system in
    RingMachine.dfy is proved to arrive at them. */
module RingSpec {
  import opened Words
  import opened RingIndex

  /** The persisted region: the 128-bit header as its four words (least
      significant first), the two indices and the buffer. */
  datatype Mem = Mem(header: seq<u32>, read: nat, write: nat, data: seq<u8>)

  /** Header value of the layout with the `ecc` feature, as words. */
  const MAGIC: seq<u32> := [0x69cd_3c6c, 0xa194_1013, 0x27b9_f2b4, 0x1dff_2060]

  lemma MagicIsHeader()
    ensures |MAGIC| == 4
    ensures MAGIC[0] as int
            + U32_RANGE * (MAGIC[1] as int + U32_RANGE * (MAGIC[2] as int + U32_RANGE * MAGIC[3] as int))
         == 0x1dff_2060_27b9_f2b4_a194_1013_69cd_3c6c
  {
  }

  /** The memory promises a queue: right header, both indices in the buffer. */
  predicate Ready(magic: seq<u32>, m: Mem) {
    m.header == magic && m.read < |m.data| && m.write < |m.data|
  }

  /** The bytes a recovery from this memory is to hand to the consumer. */
  function RecoveredContent(magic: seq<u32>, m: Mem): seq<u8> {
    if Ready(magic, m) then Queue(m.data, m.read, m.write) else []
  }

  /** The memory a completed, uninterrupted recovery leaves. */
  function RecoverImage(magic: seq<u32>, m: Mem): Mem {
    if m.header != magic then m.(header := magic, read := 0, write := 0)
    else
      match (m.read < |m.data|, m.write < |m.data|)
      case (true, true) => m
      case (true, false) => m.(write := m.read)
      case (false, true) => m.(read := m.write)
      case (false, false) => m.(read := 0, write := 0)
  }

  /** A recovered region is a queue holding exactly the promised bytes, the
      buffer is left alone, and recovering again changes nothing. */
  lemma RecoverImageIsQueue(magic: seq<u32>, m: Mem)
    requires 0 < |m.data|
    ensures var m' := RecoverImage(magic, m);
            && Ready(magic, m')
            && m'.data == m.data
            && Queue(m'.data, m'.read, m'.write) == RecoveredContent(magic, m)
            && RecoverImage(magic, m') == m'
            && (Ready(magic, m) ==> m' == m)
  {
  }

  /** How many of the bytes are accepted. */
  function Accepted(m: Mem, bytes: seq<u8>): (n: nat)
    requires m.read < |m.data| && m.write < |m.data|
    ensures n <= |bytes| && n < |m.data|
  {
    Min(|bytes|, |m.data| - 1 - QueueLen(|m.data|, m.read, m.write))
  }

  /** The memory a `write` leaves: the accepted bytes are laid around the ring
      from the write index on and the index moves past them. */
  function WriteImage(m: Mem, bytes: seq<u8>): (m': Mem)
    requires m.read < |m.data| && m.write < |m.data|
    ensures m'.read < |m'.data| && m'.write < |m'.data| && |m'.data| == |m.data|
  {
    var n := Accepted(m, bytes);
    m.(data := Overlay(m.data, m.write, bytes[..n]), write := Wrap(|m.data|, m.write + n))
  }

  /** The memory a `release` leaves. */
  function ReleaseImage(m: Mem, used: nat): (m': Mem)
    requires m.read < |m.data| && m.write < |m.data|
    requires used <= QueueLen(|m.data|, m.read, m.write)
    ensures m'.read < |m'.data| && m'.write < |m'.data|
  {
    m.(read := Wrap(|m.data|, m.read + used))
  }

  /** `write` appends as much as fits, and no cell outside the accepted range
      changes. */
  lemma WriteAppends(m: Mem, bytes: seq<u8>)
    requires m.read < |m.data| && m.write < |m.data|
    ensures var m', n, len := WriteImage(m, bytes), Accepted(m, bytes), |m.data|;
            && Queue(m'.data, m'.read, m'.write) == Queue(m.data, m.read, m.write) + bytes[..n]
            && n == Min(|bytes|, len - 1 - |Queue(m.data, m.read, m.write)|)
            && forall i | 0 <= i < len && n <= Offset(len, m.write, i) :: m'.data[i] == m.data[i]
  {
    var n := Accepted(m, bytes);
    AppendQueue(m.data, m.read, m.write, bytes[..n]);
  }

  /** `release` drops from the front. */
  lemma ReleaseDrops(m: Mem, used: nat)
    requires m.read < |m.data| && m.write < |m.data|
    requires used <= QueueLen(|m.data|, m.read, m.write)
    ensures var m' := ReleaseImage(m, used);
            Queue(m'.data, m'.read, m'.write) == Queue(m.data, m.read, m.write)[used..]
  {
    DropQueue(m.data, m.read, m.write, used);
  }

  // ---------- chunking ----------

  function WriteChunks(m: Mem, chunks: seq<seq<u8>>): (m': Mem)
    requires m.read < |m.data| && m.write < |m.data|
    ensures m'.read < |m'.data| && m'.write < |m'.data| && |m'.data| == |m.data|
    decreases |chunks|
  {
    if chunks == [] then m else WriteChunks(WriteImage(m, chunks[0]), chunks[1..])
  }

  /** Two writes in a row are one write of the concatenation, also when the
      buffer fills part-way. */
  lemma WriteTwice(m: Mem, a: seq<u8>, b: seq<u8>)
    requires m.read < |m.data| && m.write < |m.data|
    ensures WriteImage(WriteImage(m, a), b) == WriteImage(m, a + b)
  {
    var na := Accepted(m, a);
    var m1 := WriteImage(m, a);
    var nb := Accepted(m1, b);
    WriteAppends(m, a);
    assert nb == Min(|b|, |m.data| - 1 - QueueLen(|m.data|, m.read, m.write) - na);
    assert Accepted(m, a + b) == na + nb;
    assert (a + b)[..na + nb] == a[..na] + b[..nb];
    OverlayConcat(m.data, m.write, a[..na], b[..nb]);
  }

  /** Any split of the data into chunks leaves the same memory as one write. */
  lemma {:induction false} ChunkingIndependence(m: Mem, chunks: seq<seq<u8>>)
    requires m.read < |m.data| && m.write < |m.data|
    ensures chunks != [] ==> WriteChunks(m, chunks) == WriteImage(m, Flatten(chunks))
    decreases |chunks|
  {
    if |chunks| == 1 {
      assert chunks[1..] == [] && chunks[0] + [] == chunks[0];
    } else if chunks != [] {
      ChunkingIndependence(WriteImage(m, chunks[0]), chunks[1..]);
      WriteTwice(m, chunks[0], Flatten(chunks[1..]));
    }
  }

  // ---------- releasing in two rounds ----------

  /** Release `a`, let the producer publish, read again, release `b`: the read
      index is the one a single release of `a + b` stores, and what is left is
      the rest of the first grant followed by what was published. */
  lemma SplitRelease(m: Mem, a: nat, published: seq<seq<u8>>, b: nat)
    requires m.read < |m.data| && m.write < |m.data|
    requires a + b <= QueueLen(|m.data|, m.read, m.write)
    ensures var m1 := WriteChunks(ReleaseImage(m, a), published);
            && b <= QueueLen(|m1.data|, m1.read, m1.write)
            && ReleaseImage(m1, b).read == ReleaseImage(m, a + b).read
            && var rest := Queue(m.data, m.read, m.write)[a + b..];
               rest <= Queue(m1.data, ReleaseImage(m1, b).read, m1.write)
  {
    var m0 := ReleaseImage(m, a);
    var m1 := WriteChunks(m0, published);
    ReleaseDrops(m, a);
    ChunksOnlyAppend(m0, published);
    ReleaseDrops(m1, b);
    var q := Queue(m.data, m.read, m.write);
    assert q[a..][b..] == q[a + b..];
  }

  lemma {:induction false} ChunksOnlyAppend(m: Mem, chunks: seq<seq<u8>>)
    requires m.read < |m.data| && m.write < |m.data|
    ensures var m' := WriteChunks(m, chunks);
            && m'.read == m.read
            && Queue(m.data, m.read, m.write) <= Queue(m'.data, m'.read, m'.write)
    decreases |chunks|
  {
    if chunks != [] {
      WriteAppends(m, chunks[0]);
      ChunksOnlyAppend(WriteImage(m, chunks[0]), chunks[1..]);
    }
  }
}
