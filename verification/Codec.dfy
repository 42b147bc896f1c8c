/** Fixed-width and variable-length integers, length-prefixed byte strings, CRC-32C. */
module Codec {
  import opened Bytes

  /** The outcome of a read: a value and the bytes behind it. */
  datatype Parsed<+T> = Bad | Good(val: T, rest: Bytes)

  function Pow(w: nat): (r: nat)
    ensures r > 0
  {
    if w == 0 then 1 else 256 * Pow(w - 1)
  }

  function Le(v: nat, w: nat): (r: Bytes)
    ensures |r| == w
  {
    if w == 0 then [] else [v % 256] + Le(v / 256, w - 1)
  }

  function FromLe(b: Bytes): nat {
    if b == [] then 0 else b[0] + 256 * FromLe(b[1..])
  }

  lemma {:induction false} LeRoundTrip(v: nat, w: nat)
    requires v < Pow(w)
    ensures FromLe(Le(v, w)) == v
  {
    if w > 0 {
      LeRoundTrip(v / 256, w - 1);
      assert Le(v, w)[1..] == Le(v / 256, w - 1);
    }
  }

  /** Byte `i` counts the powers of 256 from the low end. */
  lemma {:induction false} LeByte(v: nat, w: nat, i: nat)
    requires i < w
    ensures Le(v, w)[i] == v / Pow(i) % 256
  {
    if i > 0 {
      LeByte(v / 256, w - 1, i - 1);
      DivTwice(v, Pow(i - 1));
    }
  }

  lemma DivTwice(v: nat, m: nat)
    requires m > 0
    ensures v / 256 / m == v / (256 * m)
  {
    var q := v / 256 / m;
    assert 256 * m * q <= v < 256 * m * (q + 1) by {
      assert m * q <= v / 256 < m * (q + 1);
      assert 256 * (v / 256) <= v < 256 * (v / 256) + 256;
      assert v / 256 + 1 <= m * (q + 1);
      assert 256 * (m * q) == 256 * m * q && 256 * (m * (q + 1)) == 256 * m * (q + 1);
    }
    QuotientIs(v, 256 * m, q);
  }

  lemma QuotientIs(v: nat, m: nat, q: nat)
    requires m > 0 && m * q <= v < m * (q + 1)
    ensures v / m == q
  {
    var p := v / m;
    assert m * p <= v < m * (p + 1);
    assert p < q ==> m * (p + 1) <= m * q;
    assert q < p ==> m * (q + 1) <= m * p;
  }

  function ReadLe(b: Bytes, w: nat): Parsed<nat> {
    if |b| < w then Bad else Good(FromLe(b[..w]), b[w..])
  }

  lemma {:induction false} LeBack(v: nat, w: nat, rest: Bytes)
    requires v < Pow(w)
    ensures ReadLe(Le(v, w) + rest, w) == Good(v, rest)
  {
    LeRoundTrip(v, w);
    assert (Le(v, w) + rest)[..w] == Le(v, w) && (Le(v, w) + rest)[w..] == rest;
  }

  function PutBytes(s: Bytes): Bytes {
    Le(|s|, 4) + s
  }

  function ReadBytes(b: Bytes): Parsed<Bytes> {
    match ReadLe(b, 4)
    case Bad => Bad
    case Good(n, b1) => if |b1| < n then Bad else Good(b1[..n], b1[n..])
  }

  lemma BytesBack(s: Bytes, rest: Bytes)
    requires |s| < Pow(4)
    ensures ReadBytes(PutBytes(s) + rest) == Good(s, rest)
  {
    LeBack(|s|, 4, s + rest);
    assert PutBytes(s) + rest == Le(|s|, 4) + (s + rest);
  }

  lemma BytesCut(s: Bytes, k: nat)
    requires |s| < Pow(4) && k < |PutBytes(s)|
    ensures ReadBytes(PutBytes(s)[..k]) == Bad
  {
    CutConcat(Le(|s|, 4), s, k);
    if k >= 4 {
      LeBack(|s|, 4, s[..k - 4]);
    }
  }

  /** A prefix of a concatenation ends in its first or in its second part. */
  lemma CutConcat(a: Bytes, b: Bytes, k: nat)
    requires k <= |a + b|
    ensures (a + b)[..k] == if k <= |a| then a[..k] else a + b[..k - |a|]
  {
  }

  lemma Joined(a: Bytes, b: Bytes, c: Bytes)
    ensures (a + b) + c == a + (b + c)
  {
  }

  // ---------------------------------------------------------------- varints

  function PutVarint(v: nat): (r: Bytes)
    ensures r != []
  {
    if v < 128 then [v] else [v % 128 + 128] + PutVarint(v / 128)
  }

  /** VarintLength, as the writer sizes its records beforehand. */
  function VarintLength(v: nat): nat {
    if v < 128 then 1 else 1 + VarintLength(v / 128)
  }

  function Pow128(n: nat): nat {
    if n == 0 then 1 else 128 * Pow128(n - 1)
  }

  /** At most `n` bytes of seven bits each, low bits first. */
  function GetVarint(b: Bytes, n: nat): Parsed<nat> {
    if n == 0 || b == [] then Bad
    else if b[0] < 128 then Good(b[0], b[1..])
    else
      match GetVarint(b[1..], n - 1)
      case Bad => Bad
      case Good(v, rest) => Good(b[0] - 128 + 128 * v, rest)
  }

  const U32 := 0x1_0000_0000

  function GetVarint32(b: Bytes): Parsed<nat> {
    match GetVarint(b, 5)
    case Bad => Bad
    case Good(v, rest) => Good(v % U32, rest)
  }

  lemma {:induction false} VarintBack(v: nat, n: nat, rest: Bytes)
    requires n > 0 && v < Pow128(n)
    ensures GetVarint(PutVarint(v) + rest, n) == Good(v, rest)
  {
    if v < 128 {
      assert (PutVarint(v) + rest)[1..] == rest;
    } else {
      VarintBack(v / 128, n - 1, rest);
      assert (PutVarint(v) + rest)[1..] == PutVarint(v / 128) + rest;
    }
  }

  lemma Pow128Five()
    ensures Pow128(5) == 34359738368
  {
    assert Pow128(1) == 128 && Pow128(2) == 16384 && Pow128(3) == 2097152 && Pow128(4) == 268435456;
  }

  lemma {:induction false} Varint32Back(v: nat, rest: Bytes)
    requires v < U32
    ensures GetVarint32(PutVarint(v) + rest) == Good(v, rest)
  {
    hide GetVarint, PutVarint, Pow128;
    Pow128Five();
    VarintBack(v, 5, rest);
  }

  lemma {:induction false} VarintShort(v: nat, n: nat)
    requires n > 0 && v < Pow128(n)
    ensures |PutVarint(v)| <= n
  {
    if v >= 128 {
      VarintShort(v / 128, n - 1);
    }
  }

  lemma {:induction false} Varint32Short(v: nat)
    requires v < U32
    ensures |PutVarint(v)| <= 5
  {
    hide PutVarint, Pow128;
    Pow128Five();
    VarintShort(v, 5);
  }

  lemma {:induction false} VarintLengthIs(v: nat)
    ensures VarintLength(v) == |PutVarint(v)|
  {
    if v >= 128 {
      VarintLengthIs(v / 128);
    }
  }

  lemma {:induction false} VarintShrinks(b: Bytes, n: nat)
    ensures GetVarint(b, n).Good? ==> |GetVarint(b, n).rest| < |b|
  {
    if n > 0 && b != [] && b[0] >= 128 {
      VarintShrinks(b[1..], n - 1);
    }
  }

  lemma U32IsPow()
    ensures Pow(4) == U32
  {
    assert Pow(1) == 256 && Pow(2) == 65536 && Pow(3) == 16777216;
  }

  // ---------------------------------------------------------------- checksums

  function CrcBits(c: bv32, n: nat): bv32
    decreases n
  {
    if n == 0 then c
    else CrcBits(if c & 1 == 1 then (c >> 1) ^ 0x82F63B78 else c >> 1, n - 1)
  }

  function CrcExtend(c: bv32, b: Bytes): bv32
    decreases |b|
  {
    if b == [] then c else CrcExtend(CrcBits(c ^ (b[0] as bv32), 8), b[1..])
  }

  /** The published CRC-32C values of "" and "a". */
  lemma CrcValues()
    ensures Crc([]) == 0 && Crc([97]) == 0xC1D04330
  {
    ExtendA();
    hide CrcExtend;
    NoBytes();
    var c: bv32 := 0x3E2F_BCCF;
    assert c ^ 0xFFFF_FFFF == 0xC1D0_4330;
  }

  lemma NoBytes()
    ensures CrcExtend(0xFFFF_FFFF, []) == 0xFFFF_FFFF
  {
  }

  lemma ExtendA()
    ensures CrcExtend(0xFFFF_FFFF, [97]) == 0x3E2F_BCCF
  {
    hide CrcBits, CrcExtend;
    ExtendOne(0xFFFF_FFFF, 97);
    FirstByte();
    LetterA();
  }

  lemma {:induction false} ExtendOne(c: bv32, x: Byte)
    ensures CrcExtend(c, [x]) == CrcBits(c ^ (x as bv32), 8)
  {
    hide CrcBits;
    assert [x][1..] == [];
  }

  lemma FirstByte()
    ensures (0xFFFF_FFFF as bv32) ^ (97 as bv32) == 0xFFFF_FF9E
  {
  }

  lemma LetterA()
    ensures CrcBits(0xFFFF_FF9E, 8) == 0x3E2F_BCCF
  {
    assert CrcBits(0xFFFFFF9E, 8) == CrcBits(0x7FFFFFCF, 7);
    assert CrcBits(0x7FFFFFCF, 7) == CrcBits(0xBD09C49F, 6);
    assert CrcBits(0xBD09C49F, 6) == CrcBits(0xDC72D937, 5);
    assert CrcBits(0xDC72D937, 5) == CrcBits(0xECCF57E3, 4);
    assert CrcBits(0xECCF57E3, 4) == CrcBits(0xF4919089, 3);
    assert CrcBits(0xF4919089, 3) == CrcBits(0xF8BEF33C, 2);
    assert CrcBits(0xF8BEF33C, 2) == CrcBits(0x7C5F799E, 1);
    assert CrcBits(0x7C5F799E, 1) == CrcBits(0x3E2FBCCF, 0);
  }

  /** CRC-32C. */
  function Crc(b: Bytes): (r: nat)
    ensures r < U32
  {
    (CrcExtend(0xFFFF_FFFF, b) ^ 0xFFFF_FFFF) as int
  }

}
