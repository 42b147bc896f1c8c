/** The write-ahead log: framed records with a checksum, written into a zero-filled
    file that doubles when it runs full, and read back until the first frame that does
    not check out. */
module Wal {
  import opened Bytes
  import opened Codec

  // ---------------------------------------------------------------- slices

  function PutSlice(s: Bytes): Bytes {
    PutVarint(|s|) + s
  }

  function ReadSlice(b: Bytes): (r: Parsed<Bytes>)
    ensures r.Good? ==> |r.rest| <= |b|
  {
    VarintShrinks(b, 5);
    match GetVarint32(b)
    case Bad => Bad
    case Good(n, rest) => if |rest| < n then Bad else Good(rest[..n], rest[n..])
  }

  lemma SliceBack(s: Bytes, rest: Bytes)
    requires |s| < U32
    ensures ReadSlice(PutSlice(s) + rest) == Good(s, rest)
  {
    Varint32Back(|s|, s + rest);
    assert PutSlice(s) + rest == PutVarint(|s|) + (s + rest);
  }

  // ---------------------------------------------------------------- records

  datatype BatchOp = PointOp(tag: Byte, key: Bytes, value: Bytes) | RangeOp(key: Bytes, begin: Bytes, end: Bytes)

  datatype Record =
    | Point(tag: Byte, key: Bytes, value: Bytes, seqno: nat)
    | Range(begin: Bytes, end: Bytes, seqno: nat)
    | Batch(ops: seq<BatchOp>, seqno: nat)

  const RANGE_DELETION: Byte := 3
  const BATCH: Byte := 4

  predicate OpOK(op: BatchOp) {
    match op
    case PointOp(t, k, v) => t != RANGE_DELETION && |k| < U32 && |v| < U32
    case RangeOp(k, b, e) => |k| < U32 && |b| < U32 && |e| < U32
  }

  predicate RecordOK(r: Record) {
    r.seqno < Pow(8) && |Payload(r)| < Pow(4) &&
    match r
    case Point(t, k, v, _) => t != RANGE_DELETION && t != BATCH && |k| < U32 && |v| < U32
    case Range(b, e, _) => |b| < U32 && |e| < U32
    case Batch(ops, _) => ops != [] && |ops| < U32 && forall i | 0 <= i < |ops| :: OpOK(ops[i])
  }

  function PutOp(op: BatchOp): Bytes {
    match op
    case PointOp(t, k, v) => [t] + (PutSlice(k) + PutSlice(v))
    case RangeOp(k, b, e) => [RANGE_DELETION] + (PutSlice(k) + (PutSlice(b) + PutSlice(e)))
  }

  function PutOps(ops: seq<BatchOp>): Bytes {
    if ops == [] then [] else PutOp(ops[0]) + PutOps(ops[1..])
  }

  function Payload(r: Record): (p: Bytes)
    ensures p != []
  {
    match r
    case Point(t, k, v, q) => [t] + (PutSlice(k) + (PutSlice(v) + Le(q, 8)))
    case Range(b, e, q) => [RANGE_DELETION] + (PutSlice(b) + (PutSlice(e) + Le(q, 8)))
    case Batch(ops, q) => [BATCH] + (PutVarint(|ops|) + (PutOps(ops) + Le(q, 8)))
  }

  lemma {:induction false} LeZero(w: nat)
    ensures Le(0, w) == seq(w, _ => 0)
  {
    if w > 0 {
      LeZero(w - 1);
    }
  }

  /** The records of a put and of a range deletion with sequence number 1, byte by byte. */
  lemma PayloadBytes(t: Byte, a: Byte, b: Byte)
    ensures Payload(Point(t, [a], [b], 1)) == [t] + ([1, a] + ([1, b] + [1, 0, 0, 0, 0, 0, 0, 0]))
    ensures Payload(Range([a], [b], 1)) == [3] + ([1, a] + ([1, b] + [1, 0, 0, 0, 0, 0, 0, 0]))
  {
    hide PutSlice, Le;
    LeOne();
    ShortSlice(a);
    ShortSlice(b);
  }

  lemma LeOne()
    ensures Le(1, 8) == [1, 0, 0, 0, 0, 0, 0, 0]
  {
    LeZero(7);
    assert seq(7, _ => 0) == [0, 0, 0, 0, 0, 0, 0];
    assert Le(1, 8) == [1] + Le(0, 7);
  }

  lemma ShortSlice(x: Byte)
    ensures PutSlice([x]) == [1, x]
  {
  }

  function SliceLength(s: Bytes): nat {
    VarintLength(|s|) + |s|
  }

  function OpsLength(ops: seq<BatchOp>): nat {
    if ops == [] then 0
    else
      var op := ops[|ops| - 1];
      OpsLength(ops[..|ops| - 1]) + 1 + SliceLength(op.key)
      + match op
        case PointOp(_, _, v) => SliceLength(v)
        case RangeOp(_, b, e) => SliceLength(b) + SliceLength(e)
  }

  /** record_len, computed before anything is encoded. */
  function RecordLength(r: Record): nat {
    match r
    case Point(_, k, v, _) => 1 + SliceLength(k) + SliceLength(v) + 8
    case Range(b, e, _) => 1 + SliceLength(b) + SliceLength(e) + 8
    case Batch(ops, _) => 1 + VarintLength(|ops|) + OpsLength(ops) + 8
  }

  lemma SliceLengthIs(s: Bytes)
    ensures SliceLength(s) == |PutSlice(s)|
  {
    VarintLengthIs(|s|);
  }

  lemma {:induction false} PutOpsSnoc(ops: seq<BatchOp>)
    requires ops != []
    ensures PutOps(ops) == PutOps(ops[..|ops| - 1]) + PutOp(ops[|ops| - 1])
  {
    hide PutOp;
    if |ops| > 1 {
      var last, mid := ops[|ops| - 1], ops[1..][..|ops| - 2];
      PutOpsSnoc(ops[1..]);
      assert ops[..|ops| - 1][1..] == mid;
      Joined(PutOp(ops[0]), PutOps(mid), PutOp(last));
    } else {
      assert ops[1..] == [] && ops[..0] == [];
    }
  }

  lemma {:induction false} OpsLengthIs(ops: seq<BatchOp>)
    ensures OpsLength(ops) == |PutOps(ops)|
  {
    hide PutOps, SliceLength, PutSlice;
    if ops == [] {
      assert PutOps([]) == [] by {
        NoOps();
      }
    } else {
      var op := ops[|ops| - 1];
      OpsLengthIs(ops[..|ops| - 1]);
      PutOpsSnoc(ops);
      SliceLengthIs(op.key);
      match op {
        case PointOp(_, _, v) => SliceLengthIs(v);
        case RangeOp(_, b, e) => SliceLengthIs(b); SliceLengthIs(e);
      }
    }
  }

  lemma NoOps()
    ensures PutOps([]) == []
  {
  }

  /** The length the writer reserves is the length it writes. */
  lemma RecordLengthIs(r: Record)
    ensures RecordLength(r) == |Payload(r)|
  {
    hide SliceLength, PutSlice, OpsLength, PutOps;
    match r {
      case Point(_, k, v, _) => SliceLengthIs(k); SliceLengthIs(v);
      case Range(b, e, _) => SliceLengthIs(b); SliceLengthIs(e);
      case Batch(ops, _) => VarintLengthIs(|ops|); OpsLengthIs(ops);
    }
  }

  // ---------------------------------------------------------------- reading

  function ReadOp(b: Bytes): (r: Parsed<BatchOp>)
    ensures r.Good? ==> |r.rest| < |b|
  {
    if b == [] then Bad
    else
      match ReadSlice(b[1..])
      case Bad => Bad
      case Good(k, b1) =>
        if b[0] == RANGE_DELETION then
          match ReadSlice(b1)
          case Bad => Bad
          case Good(x, b2) =>
            (match ReadSlice(b2)
             case Bad => Bad
             case Good(y, b3) => Good(RangeOp(k, x, y), b3))
        else
          match ReadSlice(b1)
          case Bad => Bad
          case Good(v, b2) => Good(PointOp(b[0], k, v), b2)
  }

  function ReadOps(b: Bytes, n: nat): (r: Parsed<seq<BatchOp>>)
    ensures r.Good? ==> |r.rest| <= |b|
    decreases n
  {
    if n == 0 then Good([], b)
    else
      match ReadOp(b)
      case Bad => Bad
      case Good(op, b1) =>
        match ReadOps(b1, n - 1)
        case Bad => Bad
        case Good(ops, b2) => Good([op] + ops, b2)
  }

  /** The fields in front of the sequence number; `tag` was read before. */
  function ReadFields(tag: Byte, b: Bytes): (r: Parsed<Record>)
    ensures r.Good? ==> |r.rest| <= |b|
  {
    if tag == BATCH then
      VarintShrinks(b, 5);
      match GetVarint32(b)
      case Bad => Bad
      case Good(n, b1) =>
        (match ReadOps(b1, n)
         case Bad => Bad
         case Good(ops, b2) => Good(Batch(ops, 0), b2))
    else
      match ReadSlice(b)
      case Bad => Bad
      case Good(x, b1) =>
        (match ReadSlice(b1)
         case Bad => Bad
         case Good(y, b2) => Good(if tag == RANGE_DELETION then Range(x, y, 0) else Point(tag, x, y, 0), b2))
  }

  /** ReadRecord at the front of `b`: a frame that is short, fails its checksum or
      does not parse ends the log. The sequence number is the eight bytes that
      follow the fields. */
  function ReadRecord(b: Bytes): (r: Parsed<Record>)
    ensures r.Good? ==> |r.rest| < |b|
  {
    if |b| < 8 then Bad
    else
      var crc, len := FromLe(b[..4]), FromLe(b[4..8]);
      if |b| < 8 + len then Bad
      else
        var payload, after := b[8..8 + len], b[8 + len..];
        if crc != Crc(payload) || payload == [] then Bad
        else
          match ReadFields(payload[0], payload[1..])
          case Bad => Bad
          case Good(r, rest) =>
            if |rest + after| < 8 then Bad
            else Good(r.(seqno := FromLe((rest + after)[..8])), after)
  }

  function Records(b: Bytes): seq<Record>
    decreases |b|
  {
    match ReadRecord(b)
    case Bad => []
    case Good(r, rest) => [r] + Records(rest)
  }

  method ReadAll(b: Bytes) returns (rs: seq<Record>)
    ensures rs == Records(b)
  {
    hide ReadRecord;
    rs := [];
    var at := b;
    while true
      invariant rs + Records(at) == Records(b)
      decreases |at|
    {
      match ReadRecord(at) {
        case Bad =>
          return;
        case Good(r, rest) =>
          assert rs + Records(at) == rs + [r] + Records(rest);
          rs, at := rs + [r], rest;
      }
    }
  }

  // ---------------------------------------------------------------- round trip

  function PutRecord(r: Record): Bytes {
    var p := Payload(r);
    Le(Crc(p), 4) + (Le(|p|, 4) + p)
  }

  function PutAll(rs: seq<Record>): Bytes {
    if rs == [] then [] else PutRecord(rs[0]) + PutAll(rs[1..])
  }

  lemma OpBack(op: BatchOp, rest: Bytes)
    requires OpOK(op)
    ensures ReadOp(PutOp(op) + rest) == Good(op, rest)
  {
    hide ReadSlice, PutSlice;
    var b := PutOp(op) + rest;
    match op {
      case PointOp(t, k, v) =>
        var pk, pv := PutSlice(k), PutSlice(v);
        assert b[1..] == pk + (pv + rest);
        SliceBack(k, pv + rest);
        SliceBack(v, rest);
      case RangeOp(k, x, y) =>
        RangeOpBack(k, x, y, rest);
    }
  }

  lemma RangeOpBack(k: Bytes, x: Bytes, y: Bytes, rest: Bytes)
    requires OpOK(RangeOp(k, x, y))
    ensures ReadOp(PutOp(RangeOp(k, x, y)) + rest) == Good(RangeOp(k, x, y), rest)
  {
    hide ReadSlice, PutSlice;
    var b, pk, px, py := PutOp(RangeOp(k, x, y)) + rest, PutSlice(k), PutSlice(x), PutSlice(y);
    assert b[1..] == pk + (px + (py + rest));
    SliceBack(k, px + (py + rest));
    SliceBack(x, py + rest);
    SliceBack(y, rest);
  }

  lemma {:induction false} OpsBack(ops: seq<BatchOp>, rest: Bytes)
    requires forall i | 0 <= i < |ops| :: OpOK(ops[i])
    ensures ReadOps(PutOps(ops) + rest, |ops|) == Good(ops, rest)
  {
    hide ReadOp, PutOp, OpOK;
    if ops == [] {
      assert PutOps(ops) + rest == rest;
    } else {
      OpsBack(ops[1..], rest);
      Joined(PutOp(ops[0]), PutOps(ops[1..]), rest);
      OpBack(ops[0], PutOps(ops[1..]) + rest);
      assert [ops[0]] + ops[1..] == ops;
    }
  }

  lemma FieldsBack(r: Record)
    requires RecordOK(r)
    ensures ReadFields(Payload(r)[0], Payload(r)[1..]) == Good(r.(seqno := 0), Le(r.seqno, 8))
  {
    hide ReadSlice, PutSlice, ReadOps, PutOps, PutVarint, GetVarint32, Le, OpOK;
    var body, q := Payload(r)[1..], Le(r.seqno, 8);
    match r {
      case Point(t, k, v, _) =>
        assert body == PutSlice(k) + (PutSlice(v) + q);
        SliceBack(k, PutSlice(v) + q);
        SliceBack(v, q);
      case Range(b, e, _) =>
        assert body == PutSlice(b) + (PutSlice(e) + q);
        SliceBack(b, PutSlice(e) + q);
        SliceBack(e, q);
      case Batch(ops, _) =>
        assert body == PutVarint(|ops|) + (PutOps(ops) + q);
        Varint32Back(|ops|, PutOps(ops) + q);
        OpsBack(ops, q);
    }
  }

  lemma RecordBack(r: Record, rest: Bytes)
    requires RecordOK(r)
    ensures ReadRecord(PutRecord(r) + rest) == Good(r, rest)
  {
    hide ReadFields, Payload, Crc, Pow;
    var p, b := Payload(r), PutRecord(r) + rest;
    assert |p| < Pow(4) && r.seqno < Pow(8) by {
      FrameSizes(r);
    }
    U32IsPow();
    LeRoundTrip(Crc(p), 4);
    LeRoundTrip(|p|, 4);
    LeRoundTrip(r.seqno, 8);
    assert b[..4] == Le(Crc(p), 4) && b[4..8] == Le(|p|, 4);
    assert b[8..8 + |p|] == p && b[8 + |p|..] == rest;
    FieldsBack(r);
    assert (Le(r.seqno, 8) + rest)[..8] == Le(r.seqno, 8);
  }

  lemma FrameSizes(r: Record)
    requires RecordOK(r)
    ensures |Payload(r)| < Pow(4) && r.seqno < Pow(8)
  {
  }

  /** Whatever follows them, records written whole are read back first. */
  lemma {:induction false} WrittenIsRead(rs: seq<Record>, tail: Bytes)
    requires forall r | r in rs :: RecordOK(r)
    ensures Records(PutAll(rs) + tail) == rs + Records(tail)
  {
    hide ReadRecord, PutRecord, RecordOK;
    if rs == [] {
      assert PutAll(rs) + tail == tail && rs + Records(tail) == Records(tail);
    } else {
      WrittenIsRead(rs[1..], tail);
      Joined(PutRecord(rs[0]), PutAll(rs[1..]), tail);
      RecordBack(rs[0], PutAll(rs[1..]) + tail);
      assert [rs[0]] + (rs[1..] + Records(tail)) == rs + Records(tail);
    }
  }

  function Zeros(n: nat): (r: Bytes)
    ensures |r| == n && forall i | 0 <= i < n :: r[i] == 0
  {
    seq(n, _ => 0)
  }

  lemma {:induction false} ZeroLe(b: Bytes)
    requires forall i | 0 <= i < |b| :: b[i] == 0
    ensures FromLe(b) == 0
  {
    if b != [] {
      ZeroLe(b[1..]);
    }
  }

  /** The zero fill behind the last record ends the log. */
  lemma ZerosEnd(n: nat)
    ensures Records(Zeros(n)) == []
  {
    hide Crc, ReadFields, FromLe;
    if n >= 8 {
      var b := Zeros(n);
      ZeroLe(b[4..8]);
      assert b[8..8] == [];
    }
  }

  /** A whole frame whose checksum does not fit its payload ends the log, whatever stands
      behind it. */
  lemma {:induction false} CorruptEnds(rs: seq<Record>, crc: nat, p: Bytes, tail: Bytes)
    requires (forall r | r in rs :: RecordOK(r)) && crc < Pow(4) && |p| < Pow(4) && crc != Crc(p)
    ensures Records(PutAll(rs) + (Le(crc, 4) + (Le(|p|, 4) + (p + tail)))) == rs
  {
    hide Crc, ReadFields, FromLe, RecordOK, Pow;
    var b := Le(crc, 4) + (Le(|p|, 4) + (p + tail));
    LeRoundTrip(crc, 4);
    LeRoundTrip(|p|, 4);
    assert b[..4] == Le(crc, 4) && b[4..8] == Le(|p|, 4) && b[8..8 + |p|] == p;
    assert ReadRecord(b).Bad?;
    WrittenIsRead(rs, b);
  }

  // ---------------------------------------------------------------- the writer

  const INITIAL_SIZE := 67108864
  const BLOCK := 4096

  /** What becomes of growing the file: it is longer and mapped again, it was made longer
      but not mapped, or it was not made longer. */
  datatype Growth = Grown | NotMapped | NotTruncated

  /** An append writes its record, reports that the file could not grow, or writes where
      nothing is mapped. */
  datatype Outcome = Appended | GrowFailed | Faulted

  class WalWriter {
    var data: Bytes      // what was written
    var size: nat        // how much is mapped
    var length: nat      // length of the zero-filled file
    var mapped: bool

    ghost var log: seq<Record>

    function File(): Bytes
      reads this
    {
      data + Zeros(if length > |data| then length - |data| else 0)
    }

    ghost predicate Valid()
      reads this
    {
      && |data| <= size <= length && size >= INITIAL_SIZE
      && (forall r | r in log :: RecordOK(r)) && data == PutAll(log)
    }

    constructor ()
      ensures Valid() && mapped && size == INITIAL_SIZE && log == []
    {
      data, size, length, mapped, log := [], INITIAL_SIZE, INITIAL_SIZE, true, [];
    }

    /** GrowFile: unmaps, lengthens, maps. A failure leaves nothing mapped. */
    method GrowFile(growth: Growth)
      requires Valid()
      modifies this
      ensures Valid() && log == old(log) && data == old(data) && mapped == growth.Grown?
      ensures size == if growth.Grown? then 2 * old(size) else old(size)
    {
      mapped := false;
      if growth.NotTruncated? {
        return;
      }
      length := if length > size * 2 then length else size * 2;
      if growth.NotMapped? {
        return;
      }
      mapped := true;
      size := size * 2;
    }

    /** Append: the file doubles at most once, so a record gets in exactly when it ends
        within twice the size and the file is mapped when it is written. */
    method Append(r: Record, growth: Growth) returns (o: Outcome)
      requires Valid() && (EmptyBatch(r) || (RecordOK(r) && 8 + RecordLength(r) < U32))
      modifies this
      ensures Valid() && log == old(log) + if o.Appended? && !EmptyBatch(r) then [r] else []
      ensures EmptyBatch(r) ==> o == Appended && unchanged(this)
      ensures var end := |old(data)| + 8 + RecordLength(r);
              var full := end + BLOCK >= old(size);
              !EmptyBatch(r) ==>
                && (o.GrowFailed? <==> full && !growth.Grown?)
                && (o.Appended? <==> (if full then growth.Grown? else old(mapped)) && end <= 2 * old(size))
                && size == (if full && growth.Grown? then 2 * old(size) else old(size))
                && mapped == (if full then growth.Grown? else old(mapped))
    {
      hide RecordOK, PutRecord, RecordLength, Payload;
      if EmptyBatch(r) {
        return Appended;
      }
      var total := 8 + RecordLength(r);
      if |data| + total + BLOCK >= size {
        GrowFile(growth);
        if !mapped {
          return GrowFailed;
        }
      }
      if !mapped || |data| + total > size {
        return Faulted;
      }
      RecordLengthIs(r);
      RecordSize(r);
      PutAllSnoc(log, r);
      data := data + PutRecord(r);
      log := log + [r];
      o := Appended;
    }

    /** Replaying the file gives back exactly what was appended. */
    method Recover() returns (rs: seq<Record>)
      requires Valid()
      ensures rs == log
    {
      hide RecordOK, Records;
      WrittenIsRead(log, Zeros(length - |data|));
      ZerosEnd(length - |data|);
      rs := ReadAll(File());
    }
  }

  function Sized(n: nat): Record {
    Point(1, [], Zeros(n), 0)
  }

  lemma SizedOK(n: nat)
    requires n < 0x1000_0000
    ensures RecordOK(Sized(n)) && n + 11 <= RecordLength(Sized(n)) <= n + 15
  {
    RecordLengthIs(Sized(n));
    VarintLengthAtMost(n);
    U32IsPow();
    assert Pow(5) > 0 && Pow(6) > 0 && Pow(7) > 0;
  }

  lemma {:induction false} VarintLengthAtMost(n: nat)
    requires n < 0x1000_0000
    ensures 1 <= VarintLength(n) <= 4
  {
    assert n / 128 / 128 / 128 < 128 ==> VarintLength(n / 128 / 128 / 128) == 1;
    assert VarintLength(n / 128 / 128) <= 2 && VarintLength(n / 128) <= 3;
  }

  /** A record of twice the initial size fills the grown file and runs over its end. */
  method OversizedRecord() returns (o: Outcome)
    ensures o == Faulted
  {
    hide RecordLength, RecordOK;
    var w := new WalWriter();
    SizedOK(2 * INITIAL_SIZE);
    o := w.Append(Sized(2 * INITIAL_SIZE), Grown);
  }

  /** After a growth that failed, a record that needs no growth is written where nothing
      is mapped; one that makes the file grow restores the mapping. */
  method AfterFailedGrowth(growth: Growth, large: bool) returns (first: Outcome, second: Outcome)
    requires growth != Grown
    ensures first == GrowFailed && second == if large then Appended else Faulted
  {
    hide RecordLength, RecordOK;
    var w := new WalWriter();
    SizedOK(INITIAL_SIZE);
    SizedOK(1);
    first := w.Append(Sized(INITIAL_SIZE), growth);
    second := w.Append(Sized(if large then INITIAL_SIZE else 1), Grown);
  }

  predicate EmptyBatch(r: Record) {
    r.Batch? && r.ops == []
  }

  lemma RecordSize(r: Record)
    ensures |PutRecord(r)| == 8 + |Payload(r)|
  {
  }

  lemma {:induction false} PutAllSnoc(rs: seq<Record>, r: Record)
    ensures PutAll(rs + [r]) == PutAll(rs) + PutRecord(r)
  {
    hide PutRecord;
    if rs == [] {
      assert ([] + [r])[1..] == [];
    } else {
      PutAllSnoc(rs[1..], r);
      assert (rs + [r])[1..] == rs[1..] + [r];
    }
  }
}
