/** The stores that each ring operation makes, in order. The objects in
    RingBuffer.dfy are proved to make exactly these, and the step system in
    RingMachine.dfy to make the same ones through the write cache. */
module RingStores {
  import opened Words
  import opened RingIndex
  import opened RingSpec
  import opened EccRam

  function HeaderStores(magic: seq<u32>): seq<Store>
    requires |magic| == 4
  {
    [StoreHeader(0, magic[0]), StoreHeader(1, magic[1]), StoreHeader(2, magic[2]), StoreHeader(3, magic[3])]
  }

  /** Recovery makes the indices harmless before it vouches for them, and stores
      `read` before `write` while `write` is still out of bounds. */
  function RecoverStores(magic: seq<u32>, m: Mem): seq<Store>
    requires |magic| == 4
  {
    if m.header != magic then [StoreRead(0), StoreWrite(0), StoreFlush] + HeaderStores(magic)
    else
      match (m.read < |m.data|, m.write < |m.data|)
      case (true, true) => [StoreFlush]
      case (true, false) => [StoreWrite(m.read), StoreFlush]
      case (false, true) => [StoreRead(m.write), StoreFlush]
      case (false, false) => [StoreRead(0), StoreWrite(0), StoreFlush]
  }

  /** `bytes` laid around the ring from cell `start` on. */
  function CopyStores(len: nat, start: nat, bytes: seq<u8>): (stores: seq<Store>)
    requires start < len && |bytes| <= len
    ensures |stores| == |bytes|
  {
    seq(|bytes|, j requires 0 <= j < |bytes| => StoreData(Wrap(len, start + j), bytes[j]))
  }

  /** A `write` makes the data durable before the index, and both before it
      returns. */
  function PublishStores(m: Mem, accepted: seq<u8>): seq<Store>
    requires m.write < |m.data| && |accepted| <= |m.data|
  {
    CopyStores(|m.data|, m.write, accepted) +
    [StoreFlush, StoreWrite(Wrap(|m.data|, m.write + |accepted|)), StoreFlush]
  }

  function WriteStores(m: Mem, bytes: seq<u8>): seq<Store>
    requires m.read < |m.data| && m.write < |m.data|
  {
    var n := Accepted(m, bytes);
    if n == 0 then [] else PublishStores(m, bytes[..n])
  }

  function ReleaseStores(m: Mem, used: nat): seq<Store>
    requires m.read < |m.data| && m.write < |m.data|
    requires used <= QueueLen(|m.data|, m.read, m.write)
  {
    [StoreRead(Wrap(|m.data|, m.read + used)), StoreFlush]
  }

  // ---------- what they amount to ----------

  lemma {:induction false} AfterConcat(m: Mem, a: seq<Store>, b: seq<Store>)
    ensures After(m, a + b) == After(After(m, a), b)
    decreases |b|
  {
    if b == [] {
      assert a + b == a;
    } else {
      var n := |b| - 1;
      assert a + b == a + b[..n] + [b[n]];
      AfterSnoc(m, a + b[..n], b[n]);
      AfterConcat(m, a, b[..n]);
    }
  }

  lemma CopyStoresSnoc(len: nat, start: nat, bytes: seq<u8>)
    requires start < len && 0 < |bytes| <= len
    ensures var n := |bytes| - 1;
            && 0 <= Wrap(len, start + n) < len
            && CopyStores(len, start, bytes)
            == CopyStores(len, start, bytes[..n]) + [StoreData(Wrap(len, start + n), bytes[n])]
  {
  }

  lemma OverlaySnoc(data: seq<u8>, start: nat, bytes: seq<u8>)
    requires start < |data| && 0 < |bytes| <= |data|
    ensures var n := |bytes| - 1;
            && 0 <= Wrap(|data|, start + n) < |data|
            && Overlay(data, start, bytes) == Overlay(data, start, bytes[..n])[Wrap(|data|, start + n) := bytes[n]]
  {
  }

  lemma {:induction false} CopiesOverlay(m: Mem, start: nat, bytes: seq<u8>)
    requires start < |m.data| && |bytes| <= |m.data|
    ensures After(m, CopyStores(|m.data|, start, bytes)) == m.(data := Overlay(m.data, start, bytes))
    decreases |bytes|
  {
    if bytes == [] {
      OverlayNothing(m.data, start);
    } else {
      var n := |bytes| - 1;
      CopiesOverlay(m, start, bytes[..n]);
      CopyStoresSnoc(|m.data|, start, bytes);
      OverlaySnoc(m.data, start, bytes);
      AfterSnoc(m, CopyStores(|m.data|, start, bytes[..n]), StoreData(Wrap(|m.data|, start + n), bytes[n]));
    }
  }

  lemma ThreeStores(m: Mem, a: Store, b: Store, c: Store)
    ensures After(m, [a]) == Apply(m, a)
    ensures After(m, [a, b]) == Apply(Apply(m, a), b)
    ensures After(m, [a, b, c]) == Apply(Apply(Apply(m, a), b), c)
  {
    AfterSnoc(m, [], a);
    AfterSnoc(m, [a], b);
    AfterSnoc(m, [a, b], c);
    assert [] + [a] == [a] && [a] + [b] == [a, b] && [a, b] + [c] == [a, b, c];
  }

  lemma IndexBehind(m: Mem, m': Mem, copies: seq<Store>, index: nat, stores: seq<Store>)
    requires stores == copies + [StoreFlush, StoreWrite(index), StoreFlush] && After(m, copies) == m'
    ensures After(m, stores) == m'.(write := index)
  {
    AfterConcat(m, copies, [StoreFlush, StoreWrite(index), StoreFlush]);
    ThreeStores(m', StoreFlush, StoreWrite(index), StoreFlush);
  }

  lemma PublishStoresPublish(m: Mem, accepted: seq<u8>, stores: seq<Store>)
    requires m.write < |m.data| && |accepted| <= |m.data| && stores == PublishStores(m, accepted)
    ensures After(m, stores)
         == m.(data := Overlay(m.data, m.write, accepted), write := Wrap(|m.data|, m.write + |accepted|))
  {
    var copies, index := CopyStores(|m.data|, m.write, accepted), Wrap(|m.data|, m.write + |accepted|);
    CopiesOverlay(m, m.write, accepted);
    IndexBehind(m, m.(data := Overlay(m.data, m.write, accepted)), copies, index, stores);
  }

  /** The stores of a `write` leave the image of a `write`. */
  lemma WriteStoresWrite(m: Mem, bytes: seq<u8>)
    requires m.read < |m.data| && m.write < |m.data|
    ensures After(m, WriteStores(m, bytes)) == WriteImage(m, bytes)
  {
    if Accepted(m, bytes) == 0 {
      OverlayNothing(m.data, m.write);
      assert bytes[..0] == [];
    } else {
      PublishStoresPublish(m, bytes[..Accepted(m, bytes)], WriteStores(m, bytes));
    }
  }

  lemma ReleaseStoresRelease(m: Mem, used: nat)
    requires m.read < |m.data| && m.write < |m.data|
    requires used <= QueueLen(|m.data|, m.read, m.write)
    ensures After(m, ReleaseStores(m, used)) == ReleaseImage(m, used)
  {
    ThreeStores(m, StoreRead(Wrap(|m.data|, m.read + used)), StoreFlush, StoreFlush);
  }

  lemma HeaderStoresHeader(m: Mem, magic: seq<u32>)
    requires |magic| == |m.header| == 4
    ensures After(m, HeaderStores(magic)) == m.(header := magic)
  {
    var h := HeaderStores(magic);
    AfterConcat(m, h[..3], h[3..]);
    ThreeStores(m, h[0], h[1], h[2]);
    ThreeStores(After(m, h[..3]), h[3], h[3], h[3]);
    assert h[..3] == [h[0], h[1], h[2]] && h[3..] == [h[3]] && h == h[..3] + h[3..];
    assert After(m, h).header == magic;
  }

  /** The stores of a recovery leave the image of a recovery. */
  lemma RecoverStoresRecover(magic: seq<u32>, m: Mem)
    requires |magic| == |m.header| == 4
    ensures After(m, RecoverStores(magic, m)) == RecoverImage(magic, m)
  {
    ThreeStores(m, StoreRead(0), StoreWrite(0), StoreFlush);
    if m.header != magic {
      AfterConcat(m, [StoreRead(0), StoreWrite(0), StoreFlush], HeaderStores(magic));
      HeaderStoresHeader(m.(read := 0, write := 0), magic);
    } else {
      ThreeStores(m, StoreWrite(m.read), StoreFlush, StoreFlush);
      ThreeStores(m, StoreRead(m.write), StoreFlush, StoreFlush);
      ThreeStores(m, StoreFlush, StoreFlush, StoreFlush);
    }
  }
}
