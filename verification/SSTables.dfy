/** SSTable files: data blocks, the Bloom filter, an index block with the last key and
    the handle of every data block, a footer. TableBuilder writes the bytes, SSTable
    opens them and answers point lookups. */
module SSTables {
  import opened Bytes
  import opened Codec
  import opened Versions
  import opened InternalKeys
  import opened Blocks
  import Bloom

  // ---------------------------------------------------------------- concatenations

  function Concat<T>(xs: seq<seq<T>>): seq<T> {
    if xs == [] then [] else Concat(xs[..|xs| - 1]) + xs[|xs| - 1]
  }

  /** Where part `i` begins. */
  function Pre<T>(xs: seq<seq<T>>, i: nat): nat
    requires i <= |xs|
  {
    |Concat(xs[..i])|
  }

  lemma {:induction false} ConcatPrefix<T>(xs: seq<seq<T>>, i: nat)
    requires i <= |xs|
    ensures Concat(xs[..i]) <= Concat(xs)
  {
    if i < |xs| {
      var n := |xs| - 1;
      ConcatPrefix(xs[..n], i);
      assert xs[..n][..i] == xs[..i];
    } else {
      assert xs[..i] == xs;
    }
  }

  lemma {:induction false} ConcatAt<T>(xs: seq<seq<T>>, i: nat)
    requires i < |xs|
    ensures Pre(xs, i + 1) == Pre(xs, i) + |xs[i]| <= |Concat(xs)|
    ensures Concat(xs)[Pre(xs, i)..Pre(xs, i + 1)] == xs[i]
  {
    ConcatPrefix(xs, i + 1);
    assert xs[..i + 1][..i] == xs[..i];
    var p := Concat(xs[..i + 1]);
    assert p == Concat(xs)[..|p|];
  }

  lemma {:induction false} PreAscends<T>(xs: seq<seq<T>>, i: nat, j: nat)
    requires i <= j <= |xs|
    ensures Pre(xs, i) <= Pre(xs, j)
    ensures i < j && xs[i] != [] ==> Pre(xs, i) < Pre(xs, j)
  {
    if i < j {
      ConcatAt(xs, j - 1);
      PreAscends(xs, i, j - 1);
    }
  }

  lemma {:induction false} PreEnds<T>(xs: seq<seq<T>>)
    ensures Pre(xs, 0) == 0 && Pre(xs, |xs|) == |Concat(xs)|
  {
    assert xs[..0] == [] && xs[..|xs|] == xs;
  }

  // ---------------------------------------------------------------- handles

  datatype Handle = Handle(offset: nat, size: nat)

  function PutHandle(h: Handle): Bytes {
    PutVarint(h.offset) + (PutVarint(h.size) + [0])
  }

  function GetVarint64(b: Bytes): Parsed<nat> {
    match GetVarint(b, 10)
    case Bad => Bad
    case Good(v, rest) => Good(v % U64, rest)
  }

  /** DecodeFrom, for uncompressed blocks. */
  function ReadHandle(b: Bytes): Option<Handle> {
    match GetVarint64(b)
    case Bad => None
    case Good(offset, b1) =>
      match GetVarint64(b1)
      case Bad => None
      case Good(size, _) => Some(Handle(offset, size))
  }

  lemma {:induction false} Varint64Back(v: nat, rest: Bytes)
    requires v < U64
    ensures GetVarint64(PutVarint(v) + rest) == Good(v, rest)
  {
    hide GetVarint, PutVarint, Pow128;
    Pow128Ten();
    VarintBack(v, 10, rest);
  }

  lemma Pow128Ten()
    ensures Pow128(10) >= U64
  {
    Pow128Five();
    assert Pow128(6) == 128 * Pow128(5) && Pow128(7) == 128 * Pow128(6) && Pow128(8) == 128 * Pow128(7);
    assert Pow128(9) == 128 * Pow128(8) && Pow128(10) == 128 * Pow128(9);
  }

  lemma HandleSize(h: Handle)
    requires h.offset < U64 && h.size < U64
    ensures |PutHandle(h)| <= 21
  {
    hide PutVarint, Pow128;
    Pow128Ten();
    VarintShort(h.offset, 10);
    VarintShort(h.size, 10);
  }

  lemma HandleBack(h: Handle)
    requires h.offset < U64 && h.size < U64
    ensures ReadHandle(PutHandle(h)) == Some(h)
  {
    hide GetVarint64, PutVarint;
    Varint64Back(h.offset, PutVarint(h.size) + [0]);
    Varint64Back(h.size, [0]);
  }

  // ---------------------------------------------------------------- what a file holds

  const MAGIC: Bytes := [76, 73, 71, 72, 84, 75, 86, 50]   // "LIGHTKV2"
  const FOOTER := 24

  ghost predicate VersionOK(v: Version) {
    v.key != [] && v.seqno < MAX_SEQ && |v.key| + 8 < U32 && |v.value| < U32
  }

  ghost predicate VersionsOK(vs: seq<Version>) {
    forall i | 0 <= i < |vs| :: VersionOK(vs[i])
  }

  function EntryOf(v: Version): KV
    requires v.seqno < MAX_SEQ
  {
    KV(KeyOf(v), v.value)
  }

  /** The entries are the versions, in order. */
  ghost predicate Encodes(es: seq<KV>, vs: seq<Version>) {
    |es| == |vs| && forall i | 0 <= i < |vs| :: vs[i].seqno < MAX_SEQ && es[i] == EntryOf(vs[i])
  }

  function HandleOf(bss: seq<Bytes>, i: nat): Handle
    requires i < |bss|
  {
    Handle(Pre(bss, i), |bss[i]|)
  }

  ghost predicate BlocksOK(ess: seq<seq<KV>>, bss: seq<Bytes>) {
    |ess| == |bss| && forall i | 0 <= i < |ess| :: ess[i] != [] && BlockOf(bss[i], ess[i])
  }

  /** One index entry per block: its last key and its handle. */
  ghost predicate IndexOf(idx: seq<KV>, ess: seq<seq<KV>>, bss: seq<Bytes>) {
    && |idx| == |ess| == |bss|
    && forall i | 0 <= i < |ess| :: ess[i] != [] && idx[i] == KV(ess[i][|ess[i]| - 1].key, PutHandle(HandleOf(bss, i)))
  }

  function KeysOf(vs: seq<Version>): (r: seq<Bytes>)
    ensures |r| == |vs| && forall i | 0 <= i < |vs| :: r[i] == vs[i].key
  {
    seq(|vs|, i requires 0 <= i < |vs| => vs[i].key)
  }

  function NoBits(): (r: seq<bool>)
    ensures |r| == Bloom.INITIAL_BITS && r != [] && |r| % 8 == 0 && forall i | 0 <= i < |r| :: !r[i]
  {
    seq(Bloom.INITIAL_BITS, _ => false)
  }

  function Footer(indexAt: nat, bloomAt: nat): (r: Bytes)
    ensures |r| == FOOTER
  {
    Le(indexAt, 8) + (Le(bloomAt, 8) + MAGIC)
  }

  ghost predicate FileIs(file: Bytes, ess: seq<seq<KV>>, bss: seq<Bytes>, bloom: Bytes, index: Bytes) {
    var body := Concat(bss);
    && file == body + (bloom + (index + Footer(|body| + |bloom|, |body|)))
    && |file| < U64
  }

  /** The parts of a file and what they hold. */
  datatype Parts = Parts(ess: seq<seq<KV>>, bss: seq<Bytes>, idx: seq<KV>, bloom: Bytes, index: Bytes)

  ghost predicate PartsOK(file: Bytes, vs: seq<Version>, probes: nat, p: Parts) {
    && BlocksOK(p.ess, p.bss) && IndexOf(p.idx, p.ess, p.bss) && BlockOf(p.index, p.idx)
    && Encodes(Concat(p.ess), vs)
    && p.bloom == Bloom.Pack(Bloom.FilterOf(NoBits(), probes, KeysOf(vs)))
    && FileIs(file, p.ess, p.bss, p.bloom, p.index)
  }

  /** The file is a table of exactly these versions. */
  ghost predicate TableOf(file: Bytes, vs: seq<Version>, probes: nat) {
    exists p :: PartsOK(file, vs, probes, p)
  }

  lemma {:induction false} ConcatSnoc<T>(xs: seq<seq<T>>, x: seq<T>)
    ensures Concat(xs + [x]) == Concat(xs) + x
    ensures forall i | 0 <= i <= |xs| :: Pre(xs + [x], i) == Pre(xs, i)
  {
    assert (xs + [x])[..|xs|] == xs;
    forall i | 0 <= i <= |xs| ensures Pre(xs + [x], i) == Pre(xs, i) {
      assert (xs + [x])[..i] == xs[..i];
    }
  }

  /** Another block and its index entry. */
  lemma {:induction false} BlockAdded(idx: seq<KV>, ess: seq<seq<KV>>, bss: seq<Bytes>, es: seq<KV>, bytes: Bytes)
    requires BlocksOK(ess, bss) && IndexOf(idx, ess, bss) && es != [] && BlockOf(bytes, es)
    ensures BlocksOK(ess + [es], bss + [bytes])
    ensures IndexOf(idx + [KV(es[|es| - 1].key, PutHandle(Handle(|Concat(bss)|, |bytes|)))], ess + [es], bss + [bytes])
  {
    hide BlockOf, PutHandle, Concat;
    ConcatSnoc(bss, bytes);
    PreEnds(bss);
    var n: nat, ess': seq<seq<KV>>, bss': seq<Bytes> := |ess|, ess + [es], bss + [bytes];
    var idx' := idx + [KV(es[|es| - 1].key, PutHandle(Handle(|Concat(bss)|, |bytes|)))];
    forall i | 0 <= i < n + 1
      ensures ess'[i] != [] && idx'[i] == KV(ess'[i][|ess'[i]| - 1].key, PutHandle(HandleOf(bss', i)))
    {
      if i < n {
        assert HandleOf(bss', i) == HandleOf(bss, i);
      }
    }
  }

  lemma {:induction false} KeysSnoc(vs: seq<Version>, v: Version, probes: nat)
    ensures Bloom.FilterOf(NoBits(), probes, KeysOf(vs + [v]))
            == Bloom.Marked(Bloom.FilterOf(NoBits(), probes, KeysOf(vs)), Bloom.Hash(v.key), Bloom.Delta(Bloom.Hash(v.key)), probes)
  {
    assert KeysOf(vs + [v])[..|vs|] == KeysOf(vs);
  }

  // ---------------------------------------------------------------- the builder

  class TableBuilder {
    var file: Bytes
    const data: BlockBuilder
    const index: BlockBuilder
    var filter: seq<bool>
    var lastKey: Bytes
    const blockSize: nat
    const probes: nat

    ghost var ess: seq<seq<KV>>
    ghost var bss: seq<Bytes>
    ghost var vs: seq<Version>

    ghost predicate Valid()
      reads this, data, index
    {
      && data != index && data.Valid() && index.Valid()
      && BlocksOK(ess, bss) && IndexOf(index.entries, ess, bss) && file == Concat(bss)
      && Encodes(Concat(ess) + data.entries, vs) && VersionsOK(vs)
      && filter == Bloom.FilterOf(NoBits(), probes, KeysOf(vs))
      && lastKey == LastKey(vs)
    }

    constructor (size: nat, restartInterval: nat, bitsPerKey: nat)
      ensures Valid() && vs == [] && fresh(data) && fresh(index) && probes == Bloom.Probes(bitsPerKey)
      ensures data.buffer == [] && index.buffer == [] && |data.restarts| == |index.restarts| == 1 && file == [] && lastKey == []
      ensures blockSize == size && bss == []
    {
      hide BlocksOK, IndexOf, Encodes, VersionsOK, Concat, Bloom.FilterOf, BlockBuilder.Valid, LastKey;
      file, filter, lastKey := [], NoBits(), [];
      data := new BlockBuilder(size);
      index := new BlockBuilder(restartInterval);
      blockSize, probes := size, Bloom.Probes(bitsPerKey);
      ess, bss, vs := [], [], [];
      new;
      EmptyTable(probes);
    }

    /** Every size fits its field: the block has room for `n` more bytes, the index for a
        key of `k`. */
    ghost predicate Room(n: nat, k: nat)
      reads this, data, index
    {
      && |data.buffer| + n + 64 < U32 && |data.restarts| + 1 < U32 && |file| + 16 * U32 < U64
      && |index.buffer| + |lastKey| + 64 < U32 && |index.buffer| + k + 64 < U32 && |index.restarts| + 1 < U32
    }

    /** Bytes written and waiting. */
    ghost function Bulk(): nat
      reads this, data
    {
      |file| + |data.buffer| + 4 * |data.restarts|
    }

    method FlushDataBlock()
      requires Valid() && |data.buffer| < U32 && |data.restarts| < U32 && |file| + 16 * U32 < U64 && |lastKey| < U32
      modifies this, data, index
      ensures Valid() && data.entries == [] && vs == old(vs)
      // an open block becomes one block of the file with one key in the index
      ensures |bss| == |old(bss)| + if old(data.entries) == [] then 0 else 1
      ensures |index.buffer| <= |old(index.buffer)| + (|bss| - |old(bss)|) * (|lastKey| + 36)
      ensures |index.restarts| <= |old(index.restarts)| + |bss| - |old(bss)|
      ensures data.Size() == if |bss| == |old(bss)| then old(data.Size()) else 8
      ensures |data.buffer| <= |old(data.buffer)| && Bulk() <= old(Bulk()) + 12
      ensures lastKey == old(lastKey)
    {
      hide BlocksOK, IndexOf, Encodes, VersionsOK, Bloom.FilterOf, PutHandle, Concat, BlockOf, LastKey, BlockBuilder.Valid;
      data.EmptyBuffer();
      if data.buffer == [] {
        return;
      }
      ghost var es := data.entries;
      var bytes := data.Finish();
      LastInBlock(Concat(ess), es, vs);
      var handle := Handle(|file|, |bytes|);
      HandleSize(handle);
      BlockAdded(index.entries, ess, bss, es, bytes);
      ConcatSnoc(bss, bytes);
      ConcatSnoc(ess, es);
      index.Add(lastKey, PutHandle(handle));
      file := file + bytes;
      ess, bss := ess + [es], bss + [bytes];
      data.Reset();
      assert Concat(ess) + data.entries == Concat(ess);
    }

    /** Add, for versions in table order. */
    method Add(v: Version)
      requires Valid() && VersionOK(v) && Room(|v.key| + |v.value|, |v.key| + 8)
      modifies this, data, index
      ensures Valid() && vs == old(vs) + [v]
      ensures (data.entries == [] && data.Size() == 8) || 8 <= data.Size() < blockSize
      // no more than one block is closed, and only a full one
      ensures |old(bss)| <= |bss| <= |old(bss)| + 1
      ensures |bss| * blockSize + data.Size() <= old(|bss| * blockSize + data.Size()) + Weight(v)
      // the index grows by the key of the block
      ensures |index.buffer| <= |old(index.buffer)| + (|bss| - |old(bss)|) * (|v.key| + 44)
      ensures |index.restarts| <= |old(index.restarts)| + |bss| - |old(bss)|
      ensures Bulk() <= old(Bulk()) + Weight(v) && |lastKey| == |v.key| + 8
    {
      hide BlocksOK, IndexOf, VersionsOK, Bloom.FilterOf, Concat, Bloom.Marked, Bloom.Hash, Bloom.Delta, MakeInternalKey,
        Encodes, BlockBuilder.Valid, PutHandle;
      KeySize(v);
      var key := KeyOf(v);
      KeysSnoc(vs, v, probes);
      filter := Bloom.Marked(filter, Bloom.Hash(v.key), Bloom.Delta(Bloom.Hash(v.key)), probes);
      ghost var before := data.entries;
      data.Add(key, v.value);
      data.SmallestSize();
      EncodesSnoc(Concat(ess) + before, vs, v);
      assert Concat(ess) + data.entries == Concat(ess) + before + [EntryOf(v)];
      VersionsSnoc(vs, v);
      vs, lastKey := vs + [v], key;
      if data.Size() >= blockSize {
        FlushDataBlock();
        OneMore(|old(bss)|, blockSize);
      }
    }

    /** Finish: the last block, the filter, the index, the footer. */
    method Finish()
      requires Valid() && Room(0, 0)
      modifies this, data, index
      ensures vs == old(vs) && TableOf(file, vs, probes)
    {
      hide BlocksOK, IndexOf, Encodes, VersionsOK, Bloom.FilterOf, PutHandle, Finished, Concat, Bloom.Pack, BlockOf, BlockBuilder.Valid;
      FlushDataBlock();
      assert Concat(ess) + [] == Concat(ess);
      var bloom := Bloom.Pack(filter);
      PackSize(filter);
      var bloomAt := |file|;
      var indexAt := bloomAt + |bloom|;
      var idx := index.Finish();
      file := file + (bloom + (idx + Footer(indexAt, bloomAt)));
      assert PartsOK(file, vs, probes, Parts(ess, bss, index.entries, bloom, idx));
    }
  }

  lemma OneMore(n: nat, size: nat)
    ensures (n + 1) * size == n * size + size
  {
  }

  /** A bound on what a version adds to the sizes of a table. */
  function Weight(v: Version): nat {
    |v.key| + |v.value| + 64
  }

  function TotalWeight(vs: seq<Version>): nat {
    if vs == [] then 0 else TotalWeight(vs[..|vs| - 1]) + Weight(vs[|vs| - 1])
  }

  lemma {:induction false} WeightPrefix(vs: seq<Version>, i: nat)
    requires i <= |vs|
    ensures TotalWeight(vs[..i]) <= TotalWeight(vs) && 64 * |vs| <= TotalWeight(vs)
    ensures i < |vs| ==> TotalWeight(vs[..i + 1]) == TotalWeight(vs[..i]) + Weight(vs[i])
  {
    if i < |vs| {
      var n := |vs| - 1;
      WeightPrefix(vs[..n], i);
      assert vs[..n][..i] == vs[..i] && vs[..i + 1][..i] == vs[..i];
      if i < n {
        assert vs[..n][..i + 1] == vs[..i + 1];
      } else {
        assert vs[..i + 1] == vs;
      }
    } else {
      assert vs[..i] == vs;
      if vs != [] {
        WeightPrefix(vs[..|vs| - 1], |vs| - 1);
      }
    }
  }

  function LongestKey(vs: seq<Version>): nat {
    if vs == [] then 0
    else
      var n := |vs| - 1;
      var longest := LongestKey(vs[..n]);
      if |vs[n].key| > longest then |vs[n].key| else longest
  }

  lemma {:induction false} LongestKeyIs(vs: seq<Version>, i: nat)
    requires i < |vs|
    ensures |vs[i].key| <= LongestKey(vs)
  {
    var n := |vs| - 1;
    if i < n {
      LongestKeyIs(vs[..n], i);
    }
  }

  /** Every block that was closed is full, so there are no more than this many. */
  function MaxBlocks(vs: seq<Version>, blockSize: nat): nat {
    if blockSize == 0 || |vs| < TotalWeight(vs) / blockSize + 1 then |vs| else TotalWeight(vs) / blockSize + 1
  }

  /** Every field of the format is wide enough: a block and one more version stay within
      32 bits, so does an index of one key for every block, and the file within 64. */
  ghost predicate Representable(vs: seq<Version>, blockSize: nat) {
    && blockSize + 128 < U32 && (forall i | 0 <= i < |vs| :: blockSize + Weight(vs[i]) + 8 < U32)
    && (MaxBlocks(vs, blockSize) + 1) * (LongestKey(vs) + 72) < U32
    && TotalWeight(vs) + 32 * U32 < U64
  }

  /** With blocks of 4 KiB and keys of up to 1 KiB, tables of eight gigabytes, larger than
      the outputs of the third level under default options, are within the format. */
  lemma {:induction false} LargeTables(vs: seq<Version>)
    requires TotalWeight(vs) < 0x2_0000_0000 && LongestKey(vs) <= 1024
    requires forall i | 0 <= i < |vs| :: |vs[i].value| < 0x8000_0000
    ensures Representable(vs, 4096)
  {
    hide LongestKey, TotalWeight;
    forall i | 0 <= i < |vs| ensures 4096 + Weight(vs[i]) + 8 < U32 {
      LongestKeyIs(vs, i);
    }
    var blocks, key := MaxBlocks(vs, 4096) + 1, LongestKey(vs) + 72;
    assert blocks <= 0x20_0001 && key <= 1096;
    ProductAtMost(blocks, key, 0x20_0001, 1096);
  }

  lemma ProductAtMost(a: nat, b: nat, x: nat, y: nat)
    requires a <= x && b <= y
    ensures a * b <= x * y
  {
    assert a * b <= x * b && x * b <= x * y;
  }

  lemma {:induction false} FewBlocks(vs: seq<Version>, blockSize: nat, blocks: nat)
    requires blocks <= |vs| && blocks * blockSize <= TotalWeight(vs)
    ensures blocks <= MaxBlocks(vs, blockSize)
  {
    if blockSize > 0 {
      Quotient(TotalWeight(vs), blockSize, blocks);
    }
  }

  lemma Quotient(total: nat, size: nat, n: nat)
    requires size > 0 && n * size <= total
    ensures n <= total / size
  {
    var q := total / size;
    assert total == q * size + total % size;
    assert n >= q + 1 ==> n * size >= (q + 1) * size;
  }

  lemma IndexFits(blocks: nat, max: nat, key: nat, longest: nat, size: nat)
    requires blocks <= max && key <= longest && size <= blocks * (longest + 44)
    requires (max + 1) * (longest + 72) < U32
    ensures size + key + 72 < U32 && blocks + 2 < U32
  {
    assert (max + 1) * (longest + 72) >= (blocks + 1) * (longest + 72);
    assert (blocks + 1) * (longest + 72) == blocks * (longest + 72) + longest + 72;
    assert blocks * (longest + 72) == blocks * (longest + 44) + blocks * 28;
  }

  lemma IndexGrows(blocks: nat, more: nat, key: nat, longest: nat, before: nat, after: nat)
    requires key <= longest && more <= 1 && before <= blocks * (longest + 44) && after <= before + more * (key + 44)
    ensures after <= (blocks + more) * (longest + 44)
  {
    if more == 1 {
      assert (blocks + 1) * (longest + 44) == blocks * (longest + 44) + longest + 44;
    }
  }

  /** How large a builder has grown after `i` versions: closed blocks, the open block, the
      index and its restarts, the bytes in all, and the last key. */
  ghost predicate Grown(vs: seq<Version>, blockSize: nat, i: nat, blocks: nat, open: nat, index: nat, restarts: nat, bulk: nat, last: nat)
    requires i <= |vs|
  {
    && blocks <= i && blocks * blockSize + open <= TotalWeight(vs[..i]) + 8
    && index <= blocks * (LongestKey(vs) + 44) && restarts <= blocks + 1
    && (open == 8 || 8 <= open < blockSize) && bulk <= TotalWeight(vs[..i]) + 4 && last <= LongestKey(vs) + 8
  }

  lemma GrownFits(vs: seq<Version>, blockSize: nat, i: nat, blocks: nat, open: nat, index: nat, restarts: nat, bulk: nat, last: nat)
    requires i <= |vs| && Representable(vs, blockSize)
    requires Grown(vs, blockSize, i, blocks, open, index, restarts, bulk, last)
    ensures open + 64 < U32 && bulk + 16 * U32 < U64 && index + last + 64 < U32 && restarts + 1 < U32 && index + 64 < U32
    ensures i < |vs| ==> |vs[i].key| + 8 + index + 64 < U32 && open + |vs[i].key| + |vs[i].value| + 64 < U32
  {
    hide LongestKey, MaxBlocks, TotalWeight;
    WeightPrefix(vs, i);
    assert index + LongestKey(vs) + 72 < U32 && blocks + 2 < U32 by {
      IndexWithin(vs, blockSize, blocks, index);
    }
    if i < |vs| {
      LongestKeyIs(vs, i);
      assert blockSize + Weight(vs[i]) + 8 < U32;
    }
  }

  lemma {:induction false} IndexWithin(vs: seq<Version>, blockSize: nat, blocks: nat, index: nat)
    requires Representable(vs, blockSize)
    requires blocks <= |vs| && blocks * blockSize <= TotalWeight(vs) && index <= blocks * (LongestKey(vs) + 44)
    ensures index + LongestKey(vs) + 72 < U32 && blocks + 2 < U32
  {
    hide LongestKey, MaxBlocks, TotalWeight, Weight;
    FewBlocks(vs, blockSize, blocks);
    IndexFits(blocks, MaxBlocks(vs, blockSize), LongestKey(vs), LongestKey(vs), index);
  }

  lemma GrownNext(vs: seq<Version>, blockSize: nat, i: nat, blocks: nat, open: nat, index: nat, restarts: nat, bulk: nat, last: nat,
                  blocks': nat, open': nat, index': nat, restarts': nat, bulk': nat)
    requires i < |vs| && Grown(vs, blockSize, i, blocks, open, index, restarts, bulk, last)
    requires blocks <= blocks' <= blocks + 1 && blocks' * blockSize + open' <= blocks * blockSize + open + Weight(vs[i])
    requires index' <= index + (blocks' - blocks) * (|vs[i].key| + 44) && restarts' <= restarts + blocks' - blocks
    requires (open' == 8 || 8 <= open' < blockSize) && bulk' <= bulk + Weight(vs[i])
    ensures Grown(vs, blockSize, i + 1, blocks', open', index', restarts', bulk', |vs[i].key| + 8)
  {
    hide LongestKey, TotalWeight, Weight;
    WeightPrefix(vs, i);
    LongestKeyIs(vs, i);
    IndexGrows(blocks, blocks' - blocks, |vs[i].key|, LongestKey(vs), index, index');
  }

  /** A table written from versions in table order. */
  method BuildTable(vs: seq<Version>, blockSize: nat, restartInterval: nat, bitsPerKey: nat) returns (file: Bytes)
    requires Sorted(vs) && VersionsOK(vs) && Representable(vs, blockSize)
    ensures TableOf(file, vs, Bloom.Probes(bitsPerKey))
  {
    hide Sorted, VersionsOK, TableOf, TableBuilder.Valid, Weight, TotalWeight, Bloom.Probes, Representable, Grown;
    var b := new TableBuilder(blockSize, restartInterval, bitsPerKey);
    NothingGrown(vs, blockSize);
    for i := 0 to |vs|
      invariant b.Valid() && b.vs == vs[..i] && fresh(b) && fresh(b.data) && fresh(b.index)
      invariant b.probes == Bloom.Probes(bitsPerKey) && b.blockSize == blockSize
      invariant Grown(vs, blockSize, i, |b.bss|, b.data.Size(), |b.index.buffer|, |b.index.restarts|, b.Bulk(), |b.lastKey|)
    {
      ghost var blocks, open, index, restarts, bulk := |b.bss|, b.data.Size(), |b.index.buffer|, |b.index.restarts|, b.Bulk();
      GrownFits(vs, blockSize, i, blocks, open, index, restarts, bulk, |b.lastKey|);
      ghost var last := |b.lastKey|;
      WeightOf(vs, i);
      assert vs[..i + 1] == vs[..i] + [vs[i]];
      b.Add(vs[i]);
      GrownNext(vs, blockSize, i, blocks, open, index, restarts, bulk, last,
                |b.bss|, b.data.Size(), |b.index.buffer|, |b.index.restarts|, b.Bulk());
    }
    assert vs[..|vs|] == vs;
    GrownFits(vs, blockSize, |vs|, |b.bss|, b.data.Size(), |b.index.buffer|, |b.index.restarts|, b.Bulk(), |b.lastKey|);
    b.Finish();
    file := b.file;
  }

  lemma NothingGrown(vs: seq<Version>, blockSize: nat)
    ensures Grown(vs, blockSize, 0, 0, 8, 0, 1, 4, 0)
  {
    assert vs[..0] == [];
  }

  lemma WeightOf(vs: seq<Version>, i: nat)
    requires VersionsOK(vs) && i < |vs|
    ensures VersionOK(vs[i]) && Weight(vs[i]) == |vs[i].key| + |vs[i].value| + 64
  {
  }

  function LastKey(vs: seq<Version>): Bytes {
    if vs == [] || vs[|vs| - 1].seqno >= MAX_SEQ then [] else KeyOf(vs[|vs| - 1])
  }

  lemma {:induction false} EmptyTable(probes: nat)
    ensures BlocksOK([], []) && IndexOf([], [], []) && Concat<Byte>([]) == []
    ensures Encodes(Concat([]) + [], []) && Bloom.FilterOf(NoBits(), probes, KeysOf([])) == NoBits()
    ensures VersionsOK([]) && LastKey([]) == []
  {
  }

  lemma LastInBlock(front: seq<KV>, es: seq<KV>, vs: seq<Version>)
    requires Encodes(front + es, vs) && es != []
    ensures es[|es| - 1].key == LastKey(vs)
  {
    assert (front + es)[|vs| - 1] == es[|es| - 1];
  }

  lemma KeySize(v: Version)
    requires v.seqno < MAX_SEQ
    ensures |KeyOf(v)| == |v.key| + 8
  {
    InternalKeys.Parts(v.key, v.seqno, KindByte(v.kind));
  }

  lemma EncodesSnoc(es: seq<KV>, vs: seq<Version>, v: Version)
    requires Encodes(es, vs) && v.seqno < MAX_SEQ
    ensures Encodes(es + [EntryOf(v)], vs + [v])
  {
    hide KeyOf;
  }

  lemma VersionsSnoc(vs: seq<Version>, v: Version)
    requires VersionsOK(vs) && VersionOK(v)
    ensures VersionsOK(vs + [v])
  {
  }

  lemma {:induction false} PackSize(bits: seq<bool>)
    requires |bits| == Bloom.INITIAL_BITS
    ensures |Bloom.Pack(bits)| == 4096
  {
  }

  // ---------------------------------------------------------------- reading a file

  function IndexAt(file: Bytes): nat
    requires |file| >= FOOTER
  {
    FromLe(file[|file| - 24..|file| - 16])
  }

  function BloomAt(file: Bytes): nat
    requires |file| >= FOOTER
  {
    FromLe(file[|file| - 16..|file| - 8])
  }

  /** The footer leads back to the parts. */
  lemma FileParts(file: Bytes, p: Parts)
    requires FileIs(file, p.ess, p.bss, p.bloom, p.index)
    ensures |file| >= FOOTER && file[|file| - 8..] == MAGIC
    ensures BloomAt(file) == |Concat(p.bss)| && IndexAt(file) == BloomAt(file) + |p.bloom| <= |file| - FOOTER
    ensures file[BloomAt(file)..IndexAt(file)] == p.bloom && file[IndexAt(file)..|file| - FOOTER] == p.index
    ensures file[..BloomAt(file)] == Concat(p.bss)
  {
    hide Concat, FromLe, Le;
    var body := Concat(p.bss);
    var n, m := |body|, |body| + |p.bloom|;
    U64IsPow();
    LeRoundTrip(m, 8);
    LeRoundTrip(n, 8);
    assert file[|file| - 24..|file| - 16] == Le(m, 8);
    assert file[|file| - 16..|file| - 8] == Le(n, 8);
  }

  lemma BlockBytes(file: Bytes, p: Parts, i: nat)
    requires FileIs(file, p.ess, p.bss, p.bloom, p.index) && i < |p.bss|
    ensures var h := HandleOf(p.bss, i);
            && h.offset + h.size <= |file| && file[h.offset..h.offset + h.size] == p.bss[i]
            && h.offset < U64 && h.size < U64
  {
    hide Concat, FromLe, Le;
    FileParts(file, p);
    ConcatAt(p.bss, i);
  }

  lemma {:induction false} AllAt<T>(xs: seq<seq<T>>, b: nat, j: nat)
    requires b < |xs| && j < |xs[b]|
    ensures Pre(xs, b) + j < Pre(xs, b + 1) <= |Concat(xs)| && Concat(xs)[Pre(xs, b) + j] == xs[b][j]
  {
    hide Concat;
    ConcatAt(xs, b);
    assert Concat(xs)[Pre(xs, b)..Pre(xs, b + 1)][j] == xs[b][j];
  }

  lemma AllAscends(es: seq<KV>, vs: seq<Version>)
    requires Encodes(es, vs) && VersionsOK(vs) && Sorted(vs)
    ensures Ascending(es)
  {
    hide CompareInternal, KeyOf, Less;
    forall i, j | 0 <= i < j < |es| ensures CompareInternal(es[i].key, es[j].key) < 0 {
      assert Before(vs[i], vs[j]);
      OrderKept(vs[i], vs[j]);
    }
  }

  lemma {:induction false} BlockAscends(ess: seq<seq<KV>>, b: nat)
    requires Ascending(Concat(ess)) && b < |ess|
    ensures Ascending(ess[b])
  {
    hide CompareInternal, Concat;
    forall i, j | 0 <= i < j < |ess[b]| ensures CompareInternal(ess[b][i].key, ess[b][j].key) < 0 {
      AllAt(ess, b, i);
      AllAt(ess, b, j);
    }
  }

  lemma {:induction false} IndexAscends(idx: seq<KV>, ess: seq<seq<KV>>, bss: seq<Bytes>)
    requires Ascending(Concat(ess)) && IndexOf(idx, ess, bss)
    ensures Ascending(idx)
  {
    hide CompareInternal, Concat, Pre;
    forall i, j | 0 <= i < j < |idx| ensures CompareInternal(idx[i].key, idx[j].key) < 0 {
      AllAt(ess, i, |ess[i]| - 1);
      AllAt(ess, j, |ess[j]| - 1);
      PreAscends(ess, i + 1, j);
    }
  }

  /** The entries in front of `g` are below the target, the one at `g` is not. */
  ghost predicate Landed(es: seq<KV>, target: Bytes, g: nat) {
    && g <= |es| && (forall i | 0 <= i < g :: CompareInternal(es[i].key, target) < 0)
    && (g < |es| ==> CompareInternal(es[g].key, target) >= 0)
  }

  ghost predicate AllBelow(es: seq<KV>, target: Bytes, g: nat) {
    g <= |es| && forall i | 0 <= i < g :: CompareInternal(es[i].key, target) < 0
  }

  /** A block whose last key is below the target has nothing at or above it. */
  lemma {:induction false} BlocksBelow(idx: seq<KV>, ess: seq<seq<KV>>, bss: seq<Bytes>, target: Bytes, n: nat)
    requires Ascending(Concat(ess)) && IndexOf(idx, ess, bss) && n <= |ess|
    requires n > 0 ==> CompareInternal(idx[n - 1].key, target) < 0
    ensures AllBelow(Concat(ess), target, Pre(ess, n))
  {
    hide CompareInternal, Concat, Pre, Ascending;
    PreEnds(ess);
    PreAscends(ess, n, |ess|);
    if n > 0 {
      var last := |ess[n - 1]| - 1;
      AllAt(ess, n - 1, last);
      ConcatAt(ess, n - 1);
      BelowToo(Concat(ess), Pre(ess, n - 1) + last, target);
    }
  }

  /** Where a seek inside a block puts the seek inside the table. */
  lemma {:induction false} LandedIn(ess: seq<seq<KV>>, b: nat, at: nat, target: Bytes)
    requires b < |ess| && at <= |ess[b]| && AllBelow(Concat(ess), target, Pre(ess, b))
    requires forall j | 0 <= j < at :: CompareInternal(ess[b][j].key, target) < 0
    requires at < |ess[b]| ==> CompareInternal(ess[b][at].key, target) >= 0
    ensures AllBelow(Concat(ess), target, Pre(ess, b) + at)
    ensures at < |ess[b]| ==> Landed(Concat(ess), target, Pre(ess, b) + at)
  {
    hide CompareInternal, Concat, Pre;
    ConcatAt(ess, b);
    var all, g := Concat(ess), Pre(ess, b);
    forall i | 0 <= i < g + at ensures CompareInternal(all[i].key, target) < 0 {
      if i >= g {
        AllAt(ess, b, i - g);
      }
    }
    if at < |ess[b]| {
      AllAt(ess, b, at);
    }
  }

  // ---------------------------------------------------------------- lookups in the versions

  lemma {:induction false} SkipFront(vs: seq<Version>, k: Bytes, s: nat, g: nat)
    requires g <= |vs| && forall i | 0 <= i < g :: !(vs[i].key == k && vs[i].seqno <= s)
    ensures FirstVisible(vs, k, s) == FirstVisible(vs[g..], k, s)
  {
    if g > 0 {
      SkipFront(vs[1..], k, s, g - 1);
      assert vs[1..][g - 1..] == vs[g..];
    } else {
      assert vs[0..] == vs;
    }
  }

  /** A seek to a user key leaves all its versions ahead. */
  lemma LandedVersions(es: seq<KV>, vs: seq<Version>, k: Bytes, g: nat)
    requires Encodes(es, vs) && VersionsOK(vs) && k != [] && AllBelow(es, SeekInternalKey(k), g)
    ensures forall i | 0 <= i < g :: vs[i].key != k
  {
    hide CompareInternal, KeyOf, SeekInternalKey, Less;
    LessIrreflexive(k);
    forall i | 0 <= i < g ensures vs[i].key != k {
      SeekStops(vs[i], k);
      assert CompareInternal(es[i].key, SeekInternalKey(k)) < 0;
    }
  }

  lemma KeyAtOrAbove(es: seq<KV>, vs: seq<Version>, k: Bytes, g: nat)
    requires Encodes(es, vs) && VersionsOK(vs) && k != [] && Landed(es, SeekInternalKey(k), g) && g < |vs|
    ensures LessEq(k, vs[g].key)
  {
    hide CompareInternal, KeyOf, SeekInternalKey, Less;
    SeekStops(vs[g], k);
  }

  lemma {:induction false} PastKey(vs: seq<Version>, k: Bytes, s: nat, g: nat)
    requires Sorted(vs) && g <= |vs| && (g < |vs| ==> LessEq(k, vs[g].key) && vs[g].key != k)
    ensures FirstVisible(vs[g..], k, s) == None
  {
    hide Less;
    TotalOrder();
    forall i | g <= i < |vs| ensures vs[i].key != k {
      assert i > g ==> Before(vs[g], vs[i]);
    }
    var tail := vs[g..];
    SkipFront(tail, k, s, |tail|);
    assert tail[|tail|..] == [];
  }

  lemma DecodedVersion(v: Version)
    requires v.seqno < MAX_SEQ
    ensures UserKey(KeyOf(v)) == v.key && SeqOf(KeyOf(v)) == v.seqno
    ensures (if KindOf(KeyOf(v)) == 1 then Value else Deletion) == v.kind
  {
    InternalKeys.Parts(v.key, v.seqno, KindByte(v.kind));
  }

  // ---------------------------------------------------------------- the reader

  class SSTable {
    const file: Bytes
    const index: Bytes
    const filter: seq<bool>
    const probes: nat
    var handles: seq<Handle>

    ghost const vs: seq<Version>
    ghost const p: Parts

    ghost predicate Shape() {
      && PartsOK(file, vs, probes, p) && Sorted(vs) && VersionsOK(vs)
      && index == p.index && filter == Bloom.Unpack(p.bloom)
    }

    ghost predicate Valid()
      reads this
    {
      Shape() && |handles| == |p.bss| && forall i | 0 <= i < |handles| :: handles[i] == HandleOf(p.bss, i)
    }

    /** Open: footer, filter, index, and the handle of every block. */
    constructor (f: Bytes, bitsPerKey: nat, ghost versions: seq<Version>)
      requires TableOf(f, versions, Bloom.Probes(bitsPerKey)) && Sorted(versions) && VersionsOK(versions)
      ensures Valid() && vs == versions
    {
      hide Sorted, VersionsOK, Bloom.Probes, Bloom.Unpack, BlocksOK, IndexOf, BlockOf, Encodes, Concat, FromLe;
      ghost var parts :| PartsOK(f, versions, Bloom.Probes(bitsPerKey), parts);
      FileParts(f, parts);
      var bloomAt, indexAt := BloomAt(f), IndexAt(f);
      file, index, probes := f, f[indexAt..|f| - FOOTER], Bloom.Probes(bitsPerKey);
      filter := Bloom.Unpack(f[bloomAt..indexAt]);
      handles := [];
      vs, p := versions, parts;
      new;
      ReadHandles();
    }

    method ReadHandles()
      requires Shape() && handles == []
      modifies this
      ensures Valid()
    {
      hide PartsOK, ReadHandle, PutHandle, BlockIterator.Shape, Layout, Buffer, Offset;
      IndexShape(file, vs, probes, p);
      var it := new BlockIterator(index, p.idx);
      it.SeekToFirst();
      while it.pos < it.limit
        invariant it.Valid() && it.es == p.idx && fresh(it) && |handles| == it.at
        invariant forall i | 0 <= i < |handles| :: handles[i] == HandleOf(p.bss, i)
        decreases |p.idx| - it.at
      {
        IndexEntry(file, vs, probes, p, it.at);
        var raw := it.Value();
        var h := ReadHandle(raw);
        match h {
          case Some(handle) =>
            handles := handles + [handle];
        }
        it.Next();
      }
    }

    method OpenBlock(b: nat) returns (it: BlockIterator)
      requires Valid() && b < |handles|
      ensures |p.ess| == |handles| && it.es == p.ess[b] && fresh(it) && it.Shape() && it.Valid()
    {
      hide PartsOK, BlockIterator.Shape, Layout, Buffer, Offset, Sorted, VersionsOK, Bloom.Unpack;
      BlockShape(file, vs, probes, p, b);
      var h := handles[b];
      it := new BlockIterator(file[h.offset..h.offset + h.size], p.ess[b]);
    }

    /** The block an index entry points to. */
    method FindHandle(h: Handle, ghost b: nat) returns (block: nat)
      requires Valid() && b < |handles| && h == handles[b]
      ensures block == b
    {
      hide PartsOK, Sorted, VersionsOK, Bloom.Unpack, Pre;
      block := 0;
      while block < |handles| && handles[block] != h
        invariant block <= b
      {
        block := block + 1;
      }
      if block < b {
        HandlesDiffer(file, vs, probes, p, block, b);
      }
    }

    /** Iterator::Seek: the index chooses the first block that can hold the target;
        the search inside it steps on to the next block if it ends. */
    method Seek(target: Bytes) returns (block: nat, it: BlockIterator)
      requires Valid() && handles != []
      ensures |p.ess| == |handles| && block < |handles| && fresh(it) && it.Valid() && it.es == p.ess[block]
      ensures it.at == |it.es| ==> block + 1 == |handles|
      ensures AllBelow(Concat(p.ess), target, Pre(p.ess, block) + it.at)
      ensures it.at < |it.es| ==> Landed(Concat(p.ess), target, Pre(p.ess, block) + it.at)
    {
      hide PartsOK, Shape, BlockIterator.Valid, AllBelow, Landed, Pre, Concat, HandleOf;
      block := FirstBlock(target);
      it := SeekIn(target, block);
      while it.pos >= it.limit && block + 1 < |handles|
        invariant block < |handles| && Found(target, block, it) && fresh(it)
        decreases |handles| - block
      {
        block := block + 1;
        it := SeekIn(target, block);
      }
    }

    /** The outcome of a search inside one block. */
    ghost predicate Found(target: Bytes, block: nat, it: BlockIterator)
      reads this, it
    {
      && |p.ess| == |handles| && block < |handles| && it.Valid() && it.es == p.ess[block] && it.at <= |it.es|
      && (it.pos < it.limit <==> it.at < |it.es|)
      && AllBelow(Concat(p.ess), target, Pre(p.ess, block) + it.at)
      && (it.at < |it.es| ==> Landed(Concat(p.ess), target, Pre(p.ess, block) + it.at))
      && (it.at == |it.es| ==> AllBelow(Concat(p.ess), target, Pre(p.ess, block + 1)))
    }

    method SeekIn(target: Bytes, block: nat) returns (it: BlockIterator)
      requires Valid() && |p.ess| == |handles| && block < |handles|
      requires AllBelow(Concat(p.ess), target, Pre(p.ess, block))
      ensures fresh(it) && Found(target, block, it)
    {
      hide PartsOK, Sorted, VersionsOK, Bloom.Unpack, BlockIterator.Shape, BlockIterator.Valid, Ascending, AllBelow, Landed,
        CompareInternal, Pre, Concat, HandleOf;
      TableAscends(file, vs, probes, p);
      it := OpenBlock(block);
      BlockAscends(p.ess, block);
      it.Seek(target);
      it.Bounds();
      LandedIn(p.ess, block, it.at, target);
      ConcatAt(p.ess, block);
    }

    /** The block the index sends a seek to. */
    method FirstBlock(target: Bytes) returns (block: nat)
      requires Valid() && handles != []
      ensures |p.ess| == |handles| && block < |handles| && AllBelow(Concat(p.ess), target, Pre(p.ess, block))
    {
      hide PartsOK, Sorted, VersionsOK, Bloom.Unpack, BlockIterator.Shape, BlockIterator.Valid, Ascending, AllBelow, Landed,
        ReadHandle, CompareInternal, Pre, Concat;
      IndexShape(file, vs, probes, p);
      TableAscends(file, vs, probes, p);
      IndexAscends(p.idx, p.ess, p.bss);
      var ix := new BlockIterator(index, p.idx);
      ix.ShapeOf();
      ix.Seek(target);
      ix.Bounds();
      if ix.pos >= ix.limit {
        block := |handles| - 1;
      } else {
        IndexEntry(file, vs, probes, p, ix.at);
        var raw := ix.Value();
        match ReadHandle(raw) {
          case Some(h) =>
            block := FindHandle(h, ix.at);
        }
      }
      BlocksBelow(p.idx, p.ess, p.bss, target, block);
    }

    /** The iterator inside the table: which version it stands on. */
    ghost predicate Stands(block: nat, it: BlockIterator, g: nat)
      reads this, it
    {
      && |p.ess| == |handles| && block < |handles| && it.Valid() && it.es == p.ess[block] && it.at < |it.es|
      && g == Pre(p.ess, block) + it.at && g < |vs|
    }

    /** Iterator::Next: the next entry of the block, or the first of the next block. */
    method Next(block: nat, it: BlockIterator, ghost g: nat) returns (ok: bool, block': nat, it': BlockIterator)
      requires Valid() && Stands(block, it, g)
      modifies it
      ensures Valid() && (it' == it || fresh(it'))
      ensures ok <==> g + 1 < |vs|
      ensures ok ==> Stands(block', it', g + 1)
    {
      hide PartsOK, Sorted, VersionsOK, Bloom.Unpack, BlockIterator.Shape, BlockIterator.Valid, Pre, Concat, HandleOf;
      block', it' := block, it;
      BlockSpan(file, vs, probes, p, block);
      it.Next();
      it.Bounds();
      if it.pos < it.limit {
        return true, block, it;
      }
      block' := block + 1;
      if block' >= |handles| {
        return false, block', it;
      }
      BlockSpan(file, vs, probes, p, block');
      it' := OpenBlock(block');
      it'.SeekToFirst();
      ok := true;
    }

    /** Get: the newest version of the key the snapshot may see, by way of the filter,
        the index and the blocks. */
    method Get(k: Bytes, s: nat) returns (r: Option<Version>)
      requires Valid() && k != []
      ensures r == FirstVisible(vs, k, s)
    {
      hide PartsOK, Sorted, VersionsOK, Bloom.Unpack, BlockIterator.Shape, BlockIterator.Valid, Pre, Concat, HandleOf,
        AllBelow, Landed, Less, KeyOf, SeekInternalKey, Bloom.MayHold, FirstVisible;
      EmptyFile(file, vs, probes, p, k, s);
      if handles == [] {
        return None;
      }
      if !Bloom.MayHold(filter, probes, k) {
        FilteredOut(file, vs, probes, p, k, s);
        return None;
      }
      var block, it := Seek(SeekInternalKey(k));
      it.Bounds();
      ghost var g := Pre(p.ess, block) + it.at;
      SeekFront(file, vs, probes, p, k, s, g);
      BlockSpan(file, vs, probes, p, block);
      var ok := it.pos < it.limit;
      while ok
        invariant Valid() && fresh(it) && g <= |vs| && (ok ==> Stands(block, it, g) && LessEq(k, vs[g].key))
        invariant ok <==> g < |vs|
        invariant FirstVisible(vs, k, s) == FirstVisible(vs[g..], k, s)
        decreases |vs| - g
      {
        EntryIs(file, vs, probes, p, block, it.at);
        it.AtEntry();
        DecodedVersion(vs[g]);
        Peel(vs, k, s, g);
        if UserKey(it.key) != k {
          PastKey(vs, k, s, g);
          return None;
        }
        var e := SeqOf(it.key);
        if e <= s {
          var value := it.Value();
          return Some(Version(k, e, if KindOf(it.key) == 1 then Value else Deletion, value));
        }
        ok, block, it := Next(block, it, g);
        g := g + 1;
      }
      Peel(vs, k, s, g);
      r := None;
    }
  }

  lemma HandlesDiffer(file: Bytes, vs: seq<Version>, probes: nat, p: Parts, i: nat, j: nat)
    requires PartsOK(file, vs, probes, p) && i < j < |p.bss|
    ensures HandleOf(p.bss, i) != HandleOf(p.bss, j)
  {
    hide Concat, Pre;
    BlockShape(file, vs, probes, p, i);
    NonEmptyBlock(p.bss[i], p.ess[i]);
    PreAscends(p.bss, i, j);
  }

  lemma NonEmptyBlock(data: Bytes, es: seq<KV>)
    requires BlockOf(data, es)
    ensures data != []
  {
    var sh, at, restarts :| Layout(data, es, sh, at, restarts);
  }

  lemma TableAscends(file: Bytes, vs: seq<Version>, probes: nat, p: Parts)
    requires PartsOK(file, vs, probes, p) && Sorted(vs) && VersionsOK(vs)
    ensures Ascending(Concat(p.ess)) && IndexOf(p.idx, p.ess, p.bss) && |p.ess| == |p.bss|
  {
    hide Concat, Ascending, Sorted, VersionsOK;
    AllAscends(Concat(p.ess), vs);
  }

  lemma BlockSpan(file: Bytes, vs: seq<Version>, probes: nat, p: Parts, b: nat)
    requires PartsOK(file, vs, probes, p) && b < |p.ess|
    ensures |p.ess| == |p.bss| && p.ess[b] != [] && Pre(p.ess, b + 1) == Pre(p.ess, b) + |p.ess[b]| <= |vs|
    ensures b + 1 == |p.ess| ==> Pre(p.ess, b + 1) == |vs|
    ensures b + 1 < |p.ess| ==> Pre(p.ess, b + 1) < |vs|
  {
    hide Concat, Pre, BlockOf;
    ConcatAt(p.ess, b);
    PreEnds(p.ess);
    if b + 1 < |p.ess| {
      PreAscends(p.ess, b + 1, |p.ess|);
    }
  }

  lemma EntryIs(file: Bytes, vs: seq<Version>, probes: nat, p: Parts, b: nat, j: nat)
    requires PartsOK(file, vs, probes, p) && b < |p.ess| && j < |p.ess[b]|
    ensures var g := Pre(p.ess, b) + j; g < |vs| && vs[g].seqno < MAX_SEQ && p.ess[b][j] == KV(KeyOf(vs[g]), vs[g].value)
  {
    hide Concat, Pre, KeyOf;
    AllAt(p.ess, b, j);
  }

  lemma {:induction false} EmptyFile(file: Bytes, vs: seq<Version>, probes: nat, p: Parts, k: Bytes, s: nat)
    requires PartsOK(file, vs, probes, p)
    ensures p.bss == [] ==> vs == [] && FirstVisible(vs, k, s) == None
  {
  }

  /** A filter that says no is right: no version has the key. */
  lemma {:induction false} FilteredOut(file: Bytes, vs: seq<Version>, probes: nat, p: Parts, k: Bytes, s: nat)
    requires PartsOK(file, vs, probes, p) && !Bloom.MayHold(Bloom.Unpack(p.bloom), probes, k)
    ensures FirstVisible(vs, k, s) == None
  {
    hide Bloom.MayHold, Bloom.FilterOf, Bloom.Pack, Bloom.Unpack, BlocksOK, IndexOf, Encodes, FileIs;
    forall i | 0 <= i < |vs| ensures vs[i].key != k {
      if vs[i].key == k {
        assert KeysOf(vs)[i] == k;
        Bloom.NoFalseNegatives(NoBits(), probes, KeysOf(vs), k);
      }
    }
    SkipFront(vs, k, s, |vs|);
    assert vs[|vs|..] == [];
  }

  lemma {:induction false} SeekFront(file: Bytes, vs: seq<Version>, probes: nat, p: Parts, k: Bytes, s: nat, g: nat)
    requires PartsOK(file, vs, probes, p) && VersionsOK(vs) && k != []
    requires AllBelow(Concat(p.ess), SeekInternalKey(k), g)
    ensures g <= |vs| && FirstVisible(vs, k, s) == FirstVisible(vs[g..], k, s)
    ensures Landed(Concat(p.ess), SeekInternalKey(k), g) && g < |vs| ==> LessEq(k, vs[g].key)
  {
    hide Concat, SeekInternalKey, Less, VersionsOK, BlockOf, IndexOf, BlocksOK, FileIs, CompareInternal;
    LandedVersions(Concat(p.ess), vs, k, g);
    SkipFront(vs, k, s, g);
    if Landed(Concat(p.ess), SeekInternalKey(k), g) && g < |vs| {
      KeyAtOrAbove(Concat(p.ess), vs, k, g);
    }
  }

  /** The lookup, one version at a time. */
  lemma {:induction false} Peel(vs: seq<Version>, k: Bytes, s: nat, g: nat)
    requires g <= |vs|
    ensures g == |vs| ==> FirstVisible(vs[g..], k, s) == None
    ensures g < |vs| ==>
              FirstVisible(vs[g..], k, s)
              == if vs[g].key == k && vs[g].seqno <= s then Some(vs[g]) else FirstVisible(vs[g + 1..], k, s)
    ensures Sorted(vs) && g + 1 < |vs| && LessEq(k, vs[g].key) ==> LessEq(k, vs[g + 1].key)
  {
    hide Less;
    TotalOrder();
    assert g < |vs| ==> vs[g..][1..] == vs[g + 1..];
    if Sorted(vs) && g + 1 < |vs| {
      assert Before(vs[g], vs[g + 1]);
    }
  }

  lemma IndexShape(file: Bytes, vs: seq<Version>, probes: nat, p: Parts)
    requires PartsOK(file, vs, probes, p)
    ensures BlockOf(p.index, p.idx) && |p.idx| == |p.ess| == |p.bss|
  {
  }

  lemma IndexEntry(file: Bytes, vs: seq<Version>, probes: nat, p: Parts, i: nat)
    requires PartsOK(file, vs, probes, p) && i < |p.idx|
    ensures i < |p.bss| && ReadHandle(p.idx[i].value) == Some(HandleOf(p.bss, i))
  {
    hide ReadHandle, PutHandle, Concat;
    BlockBytes(file, p, i);
    HandleBack(HandleOf(p.bss, i));
  }

  lemma BlockShape(file: Bytes, vs: seq<Version>, probes: nat, p: Parts, b: nat)
    requires PartsOK(file, vs, probes, p) && b < |p.bss|
    ensures |p.ess| == |p.bss| && p.ess[b] != [] && BlockOf(p.bss[b], p.ess[b])
    ensures var h := HandleOf(p.bss, b); h.offset + h.size <= |file| && file[h.offset..h.offset + h.size] == p.bss[b]
  {
    hide Concat, BlockOf;
    BlockBytes(file, p, b);
  }

  /** Build and lookup: for any versions in table order, any block size and restart
      interval, a lookup on the bytes of the file is the lookup in the versions. */
  method BuildThenGet(vs: seq<Version>, blockSize: nat, restartInterval: nat, bitsPerKey: nat, k: Bytes, s: nat)
    returns (r: Option<Version>)
    requires Sorted(vs) && VersionsOK(vs) && Representable(vs, blockSize) && k != []
    ensures r == FirstVisible(vs, k, s)
  {
    hide Sorted, VersionsOK, TableOf, SSTable.Valid, FirstVisible, Bloom.Probes, Representable;
    var file := BuildTable(vs, blockSize, restartInterval, bitsPerKey);
    var table := new SSTable(file, bitsPerKey, vs);
    r := table.Get(k, s);
  }
}
