/** Internal keys: a user key and an inverted trailer of sequence number and type, and
    the order that keeps the newest version of a key first. */
module InternalKeys {
  import opened Bytes
  import opened Codec
  import opened Versions

  const U64 := 0x1_0000_0000_0000_0000
  const MAX_SEQ := 0x100_0000_0000_0000

  function Be(v: nat, w: nat): (r: Bytes)
    ensures |r| == w
  {
    if w == 0 then [] else Be(v / 256, w - 1) + [v % 256]
  }

  function FromBe(b: Bytes): nat {
    if b == [] then 0 else FromBe(b[..|b| - 1]) * 256 + b[|b| - 1]
  }

  lemma {:induction false} BeRoundTrip(v: nat, w: nat)
    requires v < Pow(w)
    ensures FromBe(Be(v, w)) == v
  {
    if w > 0 {
      BeRoundTrip(v / 256, w - 1);
      assert Be(v, w)[..w - 1] == Be(v / 256, w - 1);
    }
  }

  lemma U64IsPow()
    ensures Pow(8) == U64
  {
    assert Pow(1) == 256 && Pow(2) == 65536 && Pow(3) == 16777216 && Pow(4) == 4294967296;
    assert Pow(5) == 1099511627776 && Pow(6) == 281474976710656 && Pow(7) == 72057594037927936;
  }

  function Trailer(seqno: nat, kind: Byte): (t: nat)
    requires seqno < MAX_SEQ
    ensures t < U64
  {
    U64 - 1 - (seqno * 256 + kind)
  }

  function MakeInternalKey(user: Bytes, seqno: nat, kind: Byte): Bytes
    requires seqno < MAX_SEQ
  {
    user + Be(Trailer(seqno, kind), 8)
  }

  function UserKey(k: Bytes): Bytes {
    if |k| < 8 then k else k[..|k| - 8]
  }

  function TrailerOf(k: Bytes): nat
    requires |k| >= 8
  {
    FromBe(k[|k| - 8..])
  }

  function SeqOf(k: Bytes): int {
    if |k| < 8 then 0 else (U64 - 1 - TrailerOf(k)) / 256
  }

  function KindOf(k: Bytes): int {
    if |k| < 8 then 1 else (U64 - 1 - TrailerOf(k)) % 256
  }

  /** The smallest internal key of a user key. */
  function SeekInternalKey(user: Bytes): Bytes {
    MakeInternalKey(user, MAX_SEQ - 1, 255)
  }

  /** CompareInternalKeys; a key shorter than a trailer has an empty user part. */
  function CompareInternal(a: Bytes, b: Bytes): int {
    var ua, ub := if |a| < 8 then [] else a[..|a| - 8], if |b| < 8 then [] else b[..|b| - 8];
    if Less(ua, ub) then -1
    else if ua != ub then 1
    else if ua == [] then 0
    else if TrailerOf(a) < TrailerOf(b) then -1
    else if TrailerOf(a) > TrailerOf(b) then 1
    else 0
  }

  lemma Parts(user: Bytes, seqno: nat, kind: Byte)
    requires seqno < MAX_SEQ
    ensures var k := MakeInternalKey(user, seqno, kind);
            && |k| == |user| + 8 && UserKey(k) == user && TrailerOf(k) == Trailer(seqno, kind)
            && SeqOf(k) == seqno && KindOf(k) == kind
  {
    hide Be, FromBe, Pow;
    var k, t := MakeInternalKey(user, seqno, kind), Trailer(seqno, kind);
    U64IsPow();
    BeRoundTrip(t, 8);
    assert k[|k| - 8..] == Be(t, 8) && k[..|k| - 8] == user;
  }

  lemma CompareTransitive(a: Bytes, b: Bytes, c: Bytes)
    requires CompareInternal(a, b) < 0 && CompareInternal(b, c) < 0
    ensures CompareInternal(a, c) < 0
  {
    hide Less, TrailerOf;
    TotalOrder();
  }

  /** The order of encoded keys is user key ascending, then sequence number
      descending, then type descending. */
  lemma CompareIs(u: Bytes, q: nat, t: Byte, v: Bytes, p: nat, s: Byte)
    requires q < MAX_SEQ && p < MAX_SEQ && u != [] && v != []
    ensures CompareInternal(MakeInternalKey(u, q, t), MakeInternalKey(v, p, s)) < 0
            <==> Less(u, v) || (u == v && (q > p || (q == p && t > s)))
    ensures CompareInternal(MakeInternalKey(u, q, t), MakeInternalKey(v, p, s)) == 0 <==> u == v && q == p && t == s
  {
    hide Less, TrailerOf, MakeInternalKey;
    TotalOrder();
    Parts(u, q, t);
    Parts(v, p, s);
  }

  /** Keys without a user part compare equal, whatever their trailers. */
  lemma NoUserPart(a: Bytes, b: Bytes)
    ensures |a| <= 8 && |b| <= 8 ==> CompareInternal(a, b) == 0
    ensures |a| <= 8 < |b| ==> CompareInternal(a, b) == -1 && CompareInternal(b, a) == 1
  {
    if |a| <= 8 < |b| {
      assert LessAt([], b[..|b| - 8], 0);
      LessIrreflexive([]);
    }
    LessIrreflexive([]);
  }

  // ---------------------------------------------------------------- versions

  function KindByte(k: Kind): Byte {
    if k == Value then 1 else 0
  }

  function KeyOf(v: Version): Bytes
    requires v.seqno < MAX_SEQ
  {
    MakeInternalKey(v.key, v.seqno, KindByte(v.kind))
  }

  /** The first put of a store, on a one-byte key, byte by byte. */
  lemma KeyBytes(b: Byte, value: Bytes)
    ensures KeyOf(Version([b], 1, Value, value)) == [b, 255, 255, 255, 255, 255, 255, 254, 254]
    ensures KeyOf(Version([b], 1, Deletion, value)) == [b, 255, 255, 255, 255, 255, 255, 254, 255]
  {
    AllOnes(6);
    var t := Trailer(1, 1);
    assert t / 256 == 0xFF_FFFF_FFFF_FFFE && t / 256 / 256 == 0xFFFF_FFFF_FFFF;
    assert Be(t, 8) == Be(t / 256, 7) + [254] && Be(t / 256, 7) == Be(t / 256 / 256, 6) + [254];
    var u := Trailer(1, 0);
    assert Be(u, 8) == Be(u / 256, 7) + [255] && u / 256 == t / 256;
    assert seq(6, _ => 255) == [255, 255, 255, 255, 255, 255];
  }

  lemma {:induction false} AllOnes(w: nat)
    ensures Be(Pow(w) - 1, w) == seq(w, _ => 255)
    ensures Pow(6) == 0x1_0000_0000_0000
  {
    U64IsPow();
    if w > 0 {
      AllOnes(w - 1);
      var p := Pow(w - 1);
      assert (256 * p - 1) / 256 == p - 1 && (256 * p - 1) % 256 == 255;
    }
  }

  /** Versions in table order have encoded keys in strictly ascending order. */
  lemma OrderKept(a: Version, b: Version)
    requires a.seqno < MAX_SEQ && b.seqno < MAX_SEQ && a.key != [] && b.key != [] && Before(a, b)
    ensures CompareInternal(KeyOf(a), KeyOf(b)) < 0
  {
    CompareIs(a.key, a.seqno, KindByte(a.kind), b.key, b.seqno, KindByte(b.kind));
  }

  /** Seeking a user key stops at its newest version. */
  lemma SeekStops(v: Version, k: Bytes)
    requires v.seqno < MAX_SEQ && v.key != [] && k != []
    ensures CompareInternal(KeyOf(v), SeekInternalKey(k)) >= 0 <==> LessEq(k, v.key)
  {
    hide Less;
    TotalOrder();
    CompareIs(v.key, v.seqno, KindByte(v.kind), k, MAX_SEQ - 1, 255);
  }
}
