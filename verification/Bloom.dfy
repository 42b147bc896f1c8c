/** The Bloom filter of a table: double hashing over the FNV-1a hash of the user
    key. The 32-bit words of the filter are kept as their bits, low bit first, so
    bit p is bit p % 32 of word p / 32; bytes are the little-endian image of that. */
module Bloom {
  import opened Bytes

  const WORD := 0x1_0000_0000
  type Word = x: int | 0 <= x < WORD

  /** h ^ b: only the low byte of the word changes. */
  function Xor(h: Word, b: Byte): Word {
    h - h % 256 + XorByte(h % 256, b)
  }

  function XorByte(a: Byte, b: Byte): Byte {
    ((a as bv8) ^ (b as bv8)) as int
  }

  /** Slice::Hash: FNV-1a, wrapping at 32 bits. */
  function HashFrom(h: Word, key: Bytes): Word
    decreases |key|
  {
    if key == [] then h
    else HashFrom(Wrap(Xor(h, key[0]) * 0x01000193), key[1..])
  }

  function Wrap(x: nat): (r: Word) {
    x % WORD
  }

  function Step(h: Word, delta: Word): Word {
    var sum: int := h;
    Wrap(sum + delta)
  }

  function Hash(key: Bytes): Word {
    HashFrom(0x811C9DC5, key)
  }

  /** (h >> 17) | (h << 15): the two halves do not overlap. */
  function Delta(h: Word): Word {
    h / 0x20000 + h % 0x20000 * 0x8000
  }

  /** The number of probes, bits_per_key * 0.69 clamped to [1, 30]. */
  function Probes(bitsPerKey: nat): (k: nat)
    ensures 1 <= k <= 30 && (k > 1 ==> 100 * k <= 69 * bitsPerKey) && (k < 30 ==> 69 * bitsPerKey < 100 * k + 100)
  {
    var k := bitsPerKey * 69 / 100;
    if k < 1 then 1 else if k > 30 then 30 else k
  }

  function BitPos(h: Word, total: nat): (p: nat)
    requires total > 0
    ensures p < total
  {
    h % total
  }

  /** The first `k` probes from hash state `h` all find their bit set. */
  predicate Probed(bits: seq<bool>, h: Word, delta: Word, k: nat)
    requires bits != []
    decreases k
  {
    k == 0 || (bits[BitPos(h, |bits|)] && Probed(bits, Step(h, delta), delta, k - 1))
  }

  /** The bits after the `k` probes of an Add from hash state `h`. */
  function Marked(bits: seq<bool>, h: Word, delta: Word, k: nat): (r: seq<bool>)
    requires bits != []
    ensures |r| == |bits|
    decreases k
  {
    if k == 0 then bits
    else Marked(bits[BitPos(h, |bits|) := true], Step(h, delta), delta, k - 1)
  }

  predicate MayHold(bits: seq<bool>, k: nat, key: Bytes) {
    bits == [] || Probed(bits, Hash(key), Delta(Hash(key)), k)
  }

  ghost predicate Grows(a: seq<bool>, b: seq<bool>) {
    |a| == |b| && forall p | 0 <= p < |a| && a[p] :: b[p]
  }

  lemma {:induction false} GrowsProbed(a: seq<bool>, b: seq<bool>, h: Word, delta: Word, k: nat)
    requires a != [] && Grows(a, b) && Probed(a, h, delta, k)
    ensures Probed(b, h, delta, k)
    decreases k
  {
    if k > 0 {
      GrowsProbed(a, b, Step(h, delta), delta, k - 1);
    }
  }

  lemma {:induction false} MarkedProbed(bits: seq<bool>, h: Word, delta: Word, k: nat)
    requires bits != []
    ensures Grows(bits, Marked(bits, h, delta, k))
    ensures Probed(Marked(bits, h, delta, k), h, delta, k)
    decreases k
  {
    if k > 0 {
      MarkedProbed(bits[BitPos(h, |bits|) := true], Step(h, delta), delta, k - 1);
    }
  }

  /** Where probe `j` of a key falls: double hashing, wrapping at 32 bits. */
  function Probe(h: Word, delta: Word, j: nat, total: nat): (p: nat)
    requires total > 0
  {
    (h as int + j * delta) % WORD % total
  }

  lemma ProbeStep(h: Word, delta: Word, j: nat, total: nat)
    requires total > 0
    ensures Probe(Step(h, delta), delta, j, total) == Probe(h, delta, j + 1, total)
  {
    var d: nat, x: nat := j * delta, (h as int + delta as int);
    assert (j + 1) * delta == d + delta;
    WrapLate(x, d);
  }

  lemma WrapLate(x: nat, d: nat)
    ensures (x % WORD + d) % WORD == (x + d) % WORD
  {
    var q := x / WORD;
    assert x + d == x % WORD + d + WORD * q;
  }

  /** An Add sets the bits at its probes and no others. */
  lemma {:induction false} MarkedExactly(bits: seq<bool>, h: Word, delta: Word, k: nat, p: nat)
    requires p < |bits|
    ensures Marked(bits, h, delta, k)[p] <==> bits[p] || exists j: nat | j < k :: Probe(h, delta, j, |bits|) == p
    decreases k
  {
    hide Probe, Step;
    if k > 0 {
      var first := bits[BitPos(h, |bits|) := true];
      FirstProbe(h, delta, |bits|);
      MarkedExactly(first, Step(h, delta), delta, k - 1, p);
      forall j: nat ensures Probe(Step(h, delta), delta, j, |bits|) == Probe(h, delta, j + 1, |bits|) {
        ProbeStep(h, delta, j, |bits|);
      }
      if j: nat :| j < k && Probe(h, delta, j, |bits|) == p {
        assert j > 0 ==> Probe(Step(h, delta), delta, j - 1, |bits|) == p;
      }
    }
  }

  lemma FirstProbe(h: Word, delta: Word, total: nat)
    requires total > 0
    ensures Probe(h, delta, 0, total) == BitPos(h, total)
  {
  }

  /** A lookup passes exactly when the bits at all its probes are set. */
  lemma {:induction false} ProbedExactly(bits: seq<bool>, h: Word, delta: Word, k: nat)
    requires bits != []
    ensures Probed(bits, h, delta, k) <==> forall j: nat | j < k :: Bit(bits, Probe(h, delta, j, |bits|))
    decreases k
  {
    hide Probe, Step;
    if k > 0 {
      FirstProbe(h, delta, |bits|);
      ProbedExactly(bits, Step(h, delta), delta, k - 1);
      forall j: nat ensures Probe(Step(h, delta), delta, j, |bits|) == Probe(h, delta, j + 1, |bits|) {
        ProbeStep(h, delta, j, |bits|);
      }
      if forall j: nat | j < k - 1 :: Bit(bits, Probe(Step(h, delta), delta, j, |bits|)) {
        forall j: nat | 0 < j < k ensures Bit(bits, Probe(h, delta, j, |bits|)) {
          assert Bit(bits, Probe(Step(h, delta), delta, j - 1, |bits|));
        }
      }
    }
  }

  predicate Bit(bits: seq<bool>, p: nat) {
    p < |bits| && bits[p]
  }

  /** The published FNV-1a values of "" and "a". */
  lemma HashValues()
    ensures Hash([]) == 0x811C9DC5 && Hash([97]) == 0xE40C292C
  {
    XorValue();
    hide XorByte;
    var a: Bytes := [97];
    assert HashFrom(0x811C9DC5, a) == HashFrom(0xE40C292C, a[1..]);
  }

  lemma XorValue()
    ensures XorByte(0xC5, 97) == 0xA4
  {
    var x: bv8, y: bv8 := 0xC5, 97;
    assert x ^ y == 0xA4;
  }

  // ---------------------------------------------------------------- bytes

  function PackBits(b: seq<bool>): (r: nat) {
    if b == [] then 0 else (if b[0] then 1 else 0) + 2 * PackBits(b[1..])
  }

  function UnpackBits(n: nat, x: nat): (b: seq<bool>)
    ensures |b| == n
  {
    if n == 0 then [] else [x % 2 == 1] + UnpackBits(n - 1, x / 2)
  }

  function PackByte(b: seq<bool>): (r: Byte)
    requires |b| == 8
  {
    assert Halves(8, 256) by { assert Halves(4, 16); assert Halves(6, 64); }
    PackBound(b, 256);
    PackBits(b)
  }

  function UnpackByte(x: Byte): (b: seq<bool>)
    ensures |b| == 8
  {
    UnpackBits(8, x)
  }

  lemma {:induction false} PackBound(b: seq<bool>, m: nat)
    requires Halves(|b|, m)
    ensures PackBits(b) < m
  {
    if b != [] {
      PackBound(b[1..], m / 2);
    }
  }

  predicate Halves(n: nat, m: nat) {
    if n == 0 then m == 1 else m % 2 == 0 && Halves(n - 1, m / 2)
  }

  function Pack(bits: seq<bool>): (r: Bytes)
    requires |bits| % 8 == 0
    ensures |r| == |bits| / 8
  {
    if bits == [] then [] else [PackByte(bits[..8])] + Pack(bits[8..])
  }

  function Unpack(data: Bytes): (r: seq<bool>)
    ensures |r| == 8 * |data|
  {
    if data == [] then [] else UnpackByte(data[0]) + Unpack(data[1..])
  }

  lemma {:induction false} BitsRoundTrip(b: seq<bool>)
    ensures UnpackBits(|b|, PackBits(b)) == b
  {
    if b != [] {
      BitsRoundTrip(b[1..]);
      assert b == [b[0]] + b[1..];
    }
  }

  /** Reloading the written filter restores every bit. */
  lemma {:induction false} ReloadRoundTrip(bits: seq<bool>)
    requires |bits| % 8 == 0
    ensures Unpack(Pack(bits)) == bits
  {
    if bits != [] {
      BitsRoundTrip(bits[..8]);
      ReloadRoundTrip(bits[8..]);
      assert bits == bits[..8] + bits[8..];
    }
  }

  // ---------------------------------------------------------------- the filter

  const INITIAL_BITS := 32768

  class BloomFilter {
    var k: nat
    var bits: seq<bool>
    ghost var keys: set<Bytes>

    ghost predicate Valid()
      reads this
    {
      && bits != [] && |bits| % 32 == 0
      && forall key | key in keys :: MayHold(bits, k, key)
    }

    constructor (bitsPerKey: nat)
      ensures Valid() && keys == {} && k == Probes(bitsPerKey)
      ensures |bits| == INITIAL_BITS && forall p | 0 <= p < |bits| :: !bits[p]
    {
      k := Probes(bitsPerKey);
      bits := seq(INITIAL_BITS, _ => false);
      keys := {};
    }

    /** The constructor SSTable::Open uses on the bytes of the file. */
    constructor Reload(data: Bytes, bitsPerKey: nat)
      ensures bits == Unpack(data) && k == Probes(bitsPerKey) && keys == {}
    {
      k := Probes(bitsPerKey);
      bits := Unpack(data);
      keys := {};
    }

    method Add(key: Bytes)
      requires Valid()
      modifies this
      ensures Valid() && keys == old(keys) + {key} && k == old(k)
      ensures bits == Marked(old(bits), Hash(key), Delta(Hash(key)), k)
    {
      hide Hash, Delta, Step, BitPos;
      var h := Hash(key);
      var delta := Delta(h);
      for i := 0 to k
        invariant k == old(k) && keys == old(keys) && |bits| == |old(bits)| && bits != []
        invariant Marked(bits, h, delta, k - i) == Marked(old(bits), Hash(key), delta, k)
      {
        bits := bits[BitPos(h, |bits|) := true];
        h := Step(h, delta);
      }
      MarkedProbed(old(bits), Hash(key), delta, k);
      forall x | x in keys ensures MayHold(bits, k, x) {
        GrowsProbed(old(bits), bits, Hash(x), Delta(Hash(x)), k);
      }
      keys := keys + {key};
    }

    method MayMatch(key: Bytes) returns (r: bool)
      ensures r == MayHold(bits, k, key)
    {
      if bits == [] {
        return true;
      }
      var h := Hash(key);
      var delta := Delta(h);
      for i := 0 to k
        invariant Probed(bits, h, delta, k - i) == Probed(bits, Hash(key), delta, k)
      {
        if !bits[BitPos(h, |bits|)] {
          return false;
        }
        h := Step(h, delta);
      }
      return true;
    }
  }

  // ---------------------------------------------------------------- a whole table

  /** The filter of a table: its keys added one after another. */
  function FilterOf(bits: seq<bool>, k: nat, keys: seq<Bytes>): (r: seq<bool>)
    requires bits != []
    ensures |r| == |bits|
  {
    if keys == [] then bits
    else
      var n := |keys| - 1;
      var h := Hash(keys[n]);
      Marked(FilterOf(bits, k, keys[..n]), h, Delta(h), k)
  }

  /** A filter has the bits at the probes of its keys set, and no others. */
  lemma {:induction false} FilterExactly(bits: seq<bool>, k: nat, keys: seq<Bytes>, p: nat)
    requires p < |bits|
    ensures FilterOf(bits, k, keys)[p] <==> bits[p] || exists i: nat, j: nat | i < |keys| && j < k :: ProbeOf(keys[i], j, |bits|) == p
  {
    hide Hash, Delta, Marked, Probe;
    if keys != [] {
      var n := |keys| - 1;
      FilterExactly(bits, k, keys[..n], p);
      MarkedExactly(FilterOf(bits, k, keys[..n]), Hash(keys[n]), Delta(Hash(keys[n])), k, p);
      if i: nat, j: nat :| i < n && j < k && ProbeOf(keys[..n][i], j, |bits|) == p {
        assert ProbeOf(keys[i], j, |bits|) == p;
      }
      if i: nat, j: nat :| i < |keys| && j < k && ProbeOf(keys[i], j, |bits|) == p {
        assert i < n ==> ProbeOf(keys[..n][i], j, |bits|) == p;
      }
      if j: nat :| j < k && Probe(Hash(keys[n]), Delta(Hash(keys[n])), j, |bits|) == p {
        assert ProbeOf(keys[n], j, |bits|) == p;
      }
    }
  }

  function ProbeOf(key: Bytes, j: nat, total: nat): nat
    requires total > 0
  {
    Probe(Hash(key), Delta(Hash(key)), j, total)
  }

  /** No false negatives, also through the bytes of the file. */
  lemma {:induction false} NoFalseNegatives(bits: seq<bool>, k: nat, keys: seq<Bytes>, key: Bytes)
    requires bits != [] && |bits| % 8 == 0 && key in keys
    ensures MayHold(Unpack(Pack(FilterOf(bits, k, keys))), k, key)
  {
    var n := |keys| - 1;
    var before := FilterOf(bits, k, keys[..n]);
    MarkedProbed(before, Hash(keys[n]), Delta(Hash(keys[n])), k);
    ReloadRoundTrip(FilterOf(bits, k, keys));
    if key != keys[n] {
      NoFalseNegatives(bits, k, keys[..n], key);
      ReloadRoundTrip(before);
      GrowsProbed(before, FilterOf(bits, k, keys), Hash(key), Delta(Hash(key)), k);
    }
  }
}
