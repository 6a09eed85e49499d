/** RAM behind a one-word ECC write cache.

    A store stays in the cache until a store to another ECC word (or anything
    else) commits it; a reset drops what is still cached. `visible` is what
    loads return, `durable` what a reset leaves. */
module EccRam {
  import opened Words
  import opened RingSpec

  datatype Store =
    | StoreHeader(i: nat, word: u32)
    | StoreRead(index: nat)
    | StoreWrite(index: nat)
    | StoreFlush
    | StoreData(i: nat, byte: u8)

  /** The flush byte carries no information, so it is not part of the image. */
  function Apply(m: Mem, s: Store): (m': Mem)
    ensures |m'.header| == |m.header| && |m'.data| == |m.data|
  {
    match s
    case StoreHeader(i, word) => if i < |m.header| then m.(header := m.header[i := word]) else m
    case StoreRead(index) => m.(read := index)
    case StoreWrite(index) => m.(write := index)
    case StoreFlush => m
    case StoreData(i, byte) => if i < |m.data| then m.(data := m.data[i := byte]) else m
  }

  /** The kind of RAM.
      - `NoCache`: every store is durable at once.
      - `OneWord(width, fullWordsPass)`: words of `width` bytes. When
        `fullWordsPass`, a store that fills a whole word needs no
        read-modify-write and goes straight to memory while an older partial
        word stays cached. */
  datatype Cache = NoCache | OneWord(width: nat, fullWordsPass: bool)

  predicate ValidCache(c: Cache) {
    c.OneWord? ==> c.width == 4 || c.width == 8
  }

  /** Where a store goes, as a byte offset from the start of the region. */
  function Address(s: Store): nat {
    match s
    case StoreHeader(i, _) => 4 * i
    case StoreRead(_) => 16
    case StoreWrite(_) => 20
    case StoreFlush => 24
    case StoreData(i, _) => 32 + i
  }

  function Size(s: Store): nat {
    if s.StoreFlush? || s.StoreData? then 1 else 4
  }

  /** The ECC word a store goes to. */
  function WordOf(width: nat, s: Store): nat {
    if width == 4 then Address(s) / 4 else Address(s) / 8
  }

  /** `durable` and `visible` differ at most in the word `held`. */
  datatype Ram = Ram(durable: Mem, visible: Mem, held: Option<nat>)

  function Perform(c: Cache, ram: Ram, s: Store): Ram {
    var v' := Apply(ram.visible, s);
    if c.NoCache? then
      Ram(v', v', None)
    else if c.fullWordsPass && Size(s) == c.width then
      Ram(Apply(ram.durable, s), v', ram.held)
    else if ram.held == Some(WordOf(c.width, s)) then
      Ram(ram.durable, v', ram.held)
    else
      Ram(ram.visible, v', Some(WordOf(c.width, s)))
  }

  /** The cached word is committed for a reason outside the ring. */
  function Drain(ram: Ram): Ram {
    Ram(ram.visible, ram.visible, None)
  }

  /** A reset drops the cached word. */
  function LosePower(ram: Ram): Ram {
    Ram(ram.durable, ram.durable, None)
  }

  // ---------- durable memory is a past image ----------

  datatype Op = DoStore(s: Store) | DoDrain

  function Execute(c: Cache, ram: Ram, ops: seq<Op>): Ram {
    if ops == [] then ram
    else
      var before := Execute(c, ram, ops[..|ops| - 1]);
      match ops[|ops| - 1]
      case DoStore(s) => Perform(c, before, s)
      case DoDrain => Drain(before)
  }

  function Stores(ops: seq<Op>): seq<Store> {
    if ops == [] then []
    else
      var last := ops[|ops| - 1];
      Stores(ops[..|ops| - 1]) + if last.DoStore? then [last.s] else []
  }

  /** The image after a sequence of stores to plain memory. */
  function After(m: Mem, stores: seq<Store>): Mem {
    if stores == [] then m else Apply(After(m, stores[..|stores| - 1]), stores[|stores| - 1])
  }

  lemma AfterSnoc(m: Mem, stores: seq<Store>, s: Store)
    ensures After(m, stores + [s]) == Apply(After(m, stores), s)
  {
    assert (stores + [s])[..|stores|] == stores;
  }

  /** Does a store of a full word never bypass an older partial word? No index or
      header word fills a word of 8 bytes. */
  predicate WriteBack(c: Cache) {
    c.OneWord? ==> !(c.fullWordsPass && c.width == 4)
  }

  /** Whether a store goes straight to memory. */
  predicate Passes(c: Cache, s: Store) {
    c.NoCache? || (c.fullWordsPass && Size(s) == c.width)
  }

  /** The word that the last stores went to and that nothing has committed. */
  function LastCached(c: Cache, ops: seq<Op>): Option<nat> {
    if ops == [] then None
    else
      match ops[|ops| - 1]
      case DoDrain => None
      case DoStore(s) =>
        if Passes(c, s) then LastCached(c, ops[..|ops| - 1]) else Some(WordOf(c.width, s))
  }

  /** The stores from `k` on are those still cached: operation `k` was the first
      to its word since that word was committed last, and all stores since then
      either go to this word or pass it. Without such a word `k` is the end. */
  predicate CachedSince(c: Cache, ops: seq<Op>, k: nat) {
    var word := LastCached(c, ops);
    if word.None? then k == |ops|
    else
      && k < |ops| && ops[k].DoStore? && !Passes(c, ops[k].s)
      && LastCached(c, ops[..k]) != word
      && forall i | k <= i < |ops| ::
           ops[i].DoStore? && (Passes(c, ops[i].s) || Some(WordOf(c.width, ops[i].s)) == word)
  }

  function Passing(c: Cache, stores: seq<Store>): seq<Store> {
    if stores == [] then []
    else
      var last := stores[|stores| - 1];
      Passing(c, stores[..|stores| - 1]) + if Passes(c, last) then [last] else []
  }

  lemma {:induction false} NothingPasses(c: Cache, stores: seq<Store>)
    requires ValidCache(c) && c.OneWord? && WriteBack(c)
    ensures Passing(c, stores) == []
  {
    if stores != [] {
      NothingPasses(c, stores[..|stores| - 1]);
    }
  }

  lemma StoresSnoc(c: Cache, ops: seq<Op>, k: nat)
    requires k < |ops|
    ensures var n := |ops| - 1;
            && ops[k..] != [] && ops[k..][..|ops[k..]| - 1] == ops[..n][k..]
            && ops[..n][..k] == ops[..k]
            && Stores(ops[k..]) == Stores(ops[..n][k..]) + if ops[n].DoStore? then [ops[n].s] else []
  {
    assert ops[k..][..|ops[k..]| - 1] == ops[..|ops| - 1][k..];
  }

  lemma PassingSnoc(c: Cache, stores: seq<Store>, s: Store)
    ensures Passing(c, stores + [s]) == Passing(c, stores) + if Passes(c, s) then [s] else []
  {
    assert (stores + [s])[..|stores|] == stores;
  }

  /** What is durable: the stores before `k`, and behind them those that passed. */
  function DurableImage(c: Cache, m: Mem, ops: seq<Op>, k: nat): Mem
    requires k <= |ops|
  {
    After(After(m, Stores(ops[..k])), Passing(c, Stores(ops[k..])))
  }

  lemma EverythingDurable(c: Cache, m: Mem, ops: seq<Op>)
    ensures DurableImage(c, m, ops, |ops|) == After(m, Stores(ops))
  {
    assert ops[..|ops|] == ops && ops[|ops|..] == [];
  }

  /** The three images and the cached word after `ops`, from RAM that holds `m`. */
  predicate Arrived(c: Cache, m: Mem, ops: seq<Op>, k: nat, ram: Ram) {
    && k <= |ops| && CachedSince(c, ops, k)
    && ram == Ram(DurableImage(c, m, ops, k), After(m, Stores(ops)), LastCached(c, ops))
  }

  lemma PassingArrives(c: Cache, m: Mem, ops: seq<Op>, k: nat, ram: Ram, s: Store) returns (k': nat)
    requires ValidCache(c) && ops != [] && ops[|ops| - 1] == DoStore(s) && Passes(c, s)
    requires Arrived(c, m, ops[..|ops| - 1], k, ram)
    ensures Arrived(c, m, ops, k', Perform(c, ram, s))
  {
    AfterSnoc(m, Stores(ops[..|ops| - 1]), s);
    if LastCached(c, ops).Some? {
      k' := k;
      StillCached(c, m, ops, k);
    } else {
      k' := |ops|;
      EverythingDurable(c, m, ops[..|ops| - 1]);
      EverythingDurable(c, m, ops);
    }
  }

  lemma CachedArrives(c: Cache, m: Mem, ops: seq<Op>, k: nat, ram: Ram, s: Store) returns (k': nat)
    requires ValidCache(c) && ops != [] && ops[|ops| - 1] == DoStore(s) && !Passes(c, s)
    requires Arrived(c, m, ops[..|ops| - 1], k, ram)
    ensures Arrived(c, m, ops, k', Perform(c, ram, s))
  {
    AfterSnoc(m, Stores(ops[..|ops| - 1]), s);
    if LastCached(c, ops[..|ops| - 1]) == LastCached(c, ops) {
      k' := k;
      StillCached(c, m, ops, k);
    } else {
      k' := |ops| - 1;
      NewlyCached(c, m, ops);
    }
  }

  /** Durable memory is the image after a prefix of the stores, loads see the
      image after all of them, and the rest is what is still cached: the stores
      to the last word, and no store to another one. Only where stores of full
      words pass, those of them behind the prefix are durable as well. */
  lemma {:induction false} DurableIsPastImage(c: Cache, m: Mem, ops: seq<Op>) returns (k: nat)
    requires ValidCache(c)
    ensures Arrived(c, m, ops, k, Execute(c, Ram(m, m, None), ops))
    ensures WriteBack(c) ==> Execute(c, Ram(m, m, None), ops).durable == After(m, Stores(ops[..k]))
  {
    EverythingDurable(c, m, ops);
    k := |ops|;
    if ops != [] {
      var n := |ops| - 1;
      var k0 := DurableIsPastImage(c, m, ops[..n]);
      var before := Execute(c, Ram(m, m, None), ops[..n]);
      if ops[n].DoDrain? {
        AppendNothing(Stores(ops[..n]));
      } else if Passes(c, ops[n].s) {
        k := PassingArrives(c, m, ops, k0, before, ops[n].s);
      } else {
        k := CachedArrives(c, m, ops, k0, before, ops[n].s);
      }
    }
    if c.OneWord? && WriteBack(c) {
      NothingPasses(c, Stores(ops[k..]));
    }
  }

  /** One more store while a word is cached. */
  lemma StillCached(c: Cache, m: Mem, ops: seq<Op>, k: nat)
    requires ops != [] && ops[|ops| - 1].DoStore? && LastCached(c, ops[..|ops| - 1]).Some?
    requires LastCached(c, ops[..|ops| - 1]) == LastCached(c, ops) && CachedSince(c, ops[..|ops| - 1], k)
    ensures k < |ops| && CachedSince(c, ops, k)
    ensures var before, s := DurableImage(c, m, ops[..|ops| - 1], k), ops[|ops| - 1].s;
            DurableImage(c, m, ops, k) == if Passes(c, s) then Apply(before, s) else before
  {
    var n := |ops| - 1;
    var s, cached := ops[n].s, Passing(c, Stores(ops[..n][k..]));
    StoresSnoc(c, ops, k);
    PassingSnoc(c, Stores(ops[..n][k..]), s);
    AfterSnoc(After(m, Stores(ops[..k])), cached, s);
    AppendNothing(cached);
    forall i | k <= i < |ops|
      ensures ops[i].DoStore? && (Passes(c, ops[i].s) || Some(WordOf(c.width, ops[i].s)) == LastCached(c, ops))
    {
      if i < n {
        assert ops[..n][i] == ops[i];
      }
    }
  }

  /** The first store to a word commits the one before it. */
  lemma NewlyCached(c: Cache, m: Mem, ops: seq<Op>)
    requires ops != [] && ops[|ops| - 1].DoStore? && !Passes(c, ops[|ops| - 1].s)
    requires LastCached(c, ops[..|ops| - 1]) != LastCached(c, ops)
    ensures CachedSince(c, ops, |ops| - 1)
    ensures DurableImage(c, m, ops, |ops| - 1) == After(m, Stores(ops[..|ops| - 1]))
  {
    var n := |ops| - 1;
    assert ops[n..] == [ops[n]];
    assert Stores(ops[n..]) == [ops[n].s];
    assert Passing(c, [ops[n].s]) == [];
  }

  /** The lower side for any contents of the cache: stores to one word stay in it. */
  lemma {:induction false} WordStaysCached(c: Cache, ram: Ram, word: nat, ops: seq<Op>)
    requires ValidCache(c) && c.OneWord? && WriteBack(c)
    requires ram.durable == ram.visible || ram.held == Some(word)
    requires forall op | op in ops :: op.DoStore? && WordOf(c.width, op.s) == word
    ensures Execute(c, ram, ops).durable == ram.durable
    ensures ops != [] ==> Execute(c, ram, ops).held == Some(word)
  {
    if ops != [] {
      var n := |ops| - 1;
      assert ops[n] in ops;
      WordStaysCached(c, ram, word, ops[..n]);
    }
  }

  // ---------- the layout ----------

  predicate SameField(s: Store, t: Store) {
    match s
    case StoreHeader(i, _) => t.StoreHeader? && t.i == i
    case StoreRead(_) => t.StoreRead?
    case StoreWrite(_) => t.StoreWrite?
    case StoreFlush => t.StoreFlush?
    case StoreData(i, _) => t.StoreData? && t.i == i
  }

  predicate InRegion(s: Store) {
    s.StoreHeader? ==> s.i < 4
  }

  /** The fields follow each other in the order of their declaration: the header,
      the two indices, the flush field of 8 bytes, the buffer. */
  lemma FieldsInOrder(i: nat, word: u32, j: nat, byte: u8)
    requires i < 3
    ensures Address(StoreHeader(0, word)) == 0
    ensures Address(StoreHeader(i + 1, word)) == Address(StoreHeader(i, word)) + Size(StoreHeader(i, word))
    ensures Address(StoreRead(j)) == Address(StoreHeader(3, word)) + Size(StoreHeader(3, word))
    ensures Address(StoreWrite(j)) == Address(StoreRead(j)) + Size(StoreRead(j))
    ensures Address(StoreFlush) == Address(StoreWrite(j)) + Size(StoreWrite(j))
    ensures Address(StoreData(0, byte)) == Address(StoreFlush) + 8
    ensures Address(StoreData(j + 1, byte)) == Address(StoreData(j, byte)) + Size(StoreData(j, byte))
  {
  }

  /** Different fields do not overlap, and every store stays in one ECC word. */
  lemma FieldsAreDisjoint(width: nat, s: Store, t: Store)
    requires (width == 4 || width == 8) && InRegion(s) && InRegion(t)
    ensures SameField(s, t) || Address(s) + Size(s) <= Address(t) || Address(t) + Size(t) <= Address(s)
    ensures SameField(s, t) ==> Address(s) == Address(t) && Size(s) == Size(t)
    ensures WordOf(width, s) * width <= Address(s) && Address(s) + Size(s) <= (WordOf(width, s) + 1) * width
  {
  }

  // ---------- why data is flushed before the index ----------

  predicate CopiesOnly(ops: seq<Op>) {
    forall op | op in ops :: op.DoDrain? || op.s.StoreData?
  }

  /** After the last copy, the cache holds a word of data or nothing. */
  lemma DataIsHeld(c: Cache, ram: Ram, ops: seq<Op>)
    requires ValidCache(c) && ops != [] && CopiesOnly(ops)
    ensures var copied := Execute(c, ram, ops);
            && (c.NoCache? || copied.held.None? ==> copied.durable == copied.visible)
            && (c.OneWord? && copied.held.Some? ==> copied.held.value >= 32 / c.width)
  {
    var last := ops[|ops| - 1];
    assert last in ops;
    if last.DoStore? {
      var before := Execute(c, ram, ops[..|ops| - 1]);
      assert Execute(c, ram, ops) == Perform(c, before, last.s);
    }
  }

  /** Copy data and then store the write index. Without a flush in between, the
      index can be durable before the data exactly when a full-word store passes
      copied bytes that are still held; with the flush it never is. This holds
      from any contents of the cache, and if it commits words on its own. */
  lemma DataIsFlushedFirst(c: Cache, ram: Ram, ops: seq<Op>, index: nat)
    requires ValidCache(c) && ops != [] && CopiesOnly(ops)
    ensures var copied := Execute(c, ram, ops);
            var hasty := Perform(c, copied, StoreWrite(index));
            var careful := Perform(c, Perform(c, copied, StoreFlush), StoreWrite(index));
            && ((hasty.durable.write == index && hasty.durable.data != hasty.visible.data)
                <==> c.OneWord? && c.fullWordsPass && c.width == 4 && copied.durable.data != copied.visible.data)
            && careful.durable.data == careful.visible.data
  {
    DataIsHeld(c, ram, ops);
  }

  /** A byte that changes something is still held after it was copied to RAM
      whose contents were durable. */
  lemma CopiedByteIsHeld(c: Cache, ram: Ram, i: nat, byte: u8)
    requires ValidCache(c) && ram.durable == ram.visible && i < |ram.visible.data|
    ensures var copied := Execute(c, ram, [DoStore(StoreData(i, byte))]);
            copied.durable.data != copied.visible.data <==> c.OneWord? && ram.visible.data[i] != byte
  {
    var data := ram.visible.data;
    assert Execute(c, ram, []) == ram;
    assert data[i := byte][i] == byte;
    if data[i] == byte {
      assert data[i := byte] == data;
    }
  }
}
