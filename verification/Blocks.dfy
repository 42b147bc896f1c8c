/** Blocks of a table: entries with prefix-compressed keys, restart points, a count and
    a checksum; how BlockBuilder writes them and Block::Iterator reads them. */
module Blocks {
  import opened Bytes
  import opened Codec
  import opened InternalKeys

  datatype KV = KV(key: Bytes, value: Bytes)

  datatype Header = Header(shared: nat, nonShared: nat, valueLen: nat)

  // ---------------------------------------------------------------- entries

  function PutHeader(h: Header): (r: Bytes)
    ensures r != []
  {
    PutVarint(h.shared) + (PutVarint(h.nonShared) + PutVarint(h.valueLen))
  }

  function DecodeEntry(b: Bytes): Parsed<Header> {
    match GetVarint32(b)
    case Bad => Bad
    case Good(shared, b1) =>
      match GetVarint32(b1)
      case Bad => Bad
      case Good(nonShared, b2) =>
        match GetVarint32(b2)
        case Bad => Bad
        case Good(valueLen, b3) => Good(Header(shared, nonShared, valueLen), b3)
  }

  lemma HeaderBack(h: Header, rest: Bytes)
    requires h.shared < U32 && h.nonShared < U32 && h.valueLen < U32
    ensures DecodeEntry(PutHeader(h) + rest) == Good(h, rest)
  {
    hide GetVarint32, PutVarint;
    var a, b, c := PutVarint(h.shared), PutVarint(h.nonShared), PutVarint(h.valueLen);
    Joined(a, b + c, rest);
    Joined(b, c, rest);
    Varint32Back(h.shared, b + c + rest);
    Varint32Back(h.nonShared, c + rest);
    Varint32Back(h.valueLen, rest);
  }

  function HeaderOf(shared: nat, e: KV): Header
    requires shared <= |e.key|
  {
    Header(shared, |e.key| - shared, |e.value|)
  }

  function PutEntry(shared: nat, e: KV): (r: Bytes)
    requires shared <= |e.key|
    ensures r != []
  {
    PutHeader(HeaderOf(shared, e)) + (e.key[shared..] + e.value)
  }

  /** Each entry shares a prefix with the one before it; the first shares nothing. */
  ghost predicate Shares(es: seq<KV>, sh: seq<nat>) {
    && |es| == |sh|
    && (forall i | 0 <= i < |es| :: sh[i] <= |es[i].key| && |es[i].key| < U32 && |es[i].value| < U32)
    && (es != [] ==> sh[0] == 0)
    && forall i | 0 < i < |es| :: sh[i] <= |es[i - 1].key| && es[i].key[..sh[i]] == es[i - 1].key[..sh[i]]
  }

  ghost function Buffer(es: seq<KV>, sh: seq<nat>): Bytes
    requires Shares(es, sh)
  {
    if es == [] then []
    else
      var n := |es| - 1;
      Buffer(es[..n], sh[..n]) + PutEntry(sh[n], es[n])
  }

  /** Where entry `i` starts. */
  ghost function Offset(es: seq<KV>, sh: seq<nat>, i: nat): nat
    requires Shares(es, sh) && i <= |es|
  {
    |Buffer(es[..i], sh[..i])|
  }

  lemma {:induction false} BufferPrefix(es: seq<KV>, sh: seq<nat>, i: nat)
    requires Shares(es, sh) && i <= |es|
    ensures Buffer(es[..i], sh[..i]) <= Buffer(es, sh)
  {
    hide PutEntry;
    if i < |es| {
      var n := |es| - 1;
      BufferPrefix(es[..n], sh[..n], i);
      assert es[..n][..i] == es[..i] && sh[..n][..i] == sh[..i];
    } else {
      assert es[..i] == es && sh[..i] == sh;
    }
  }

  lemma {:induction false} EntryAt(es: seq<KV>, sh: seq<nat>, i: nat)
    requires Shares(es, sh) && i < |es|
    ensures Offset(es, sh, i) < Offset(es, sh, i + 1) <= |Buffer(es, sh)|
    ensures Buffer(es, sh)[Offset(es, sh, i)..] == PutEntry(sh[i], es[i]) + Buffer(es, sh)[Offset(es, sh, i + 1)..]
  {
    hide PutEntry, Buffer, Shares;
    BufferPrefix(es, sh, i + 1);
    BufferSnoc(es, sh, i);
    SliceAfter(Buffer(es, sh), Buffer(es[..i], sh[..i]), PutEntry(sh[i], es[i]));
  }

  lemma BufferSnoc(es: seq<KV>, sh: seq<nat>, i: nat)
    requires Shares(es, sh) && i < |es|
    ensures Shares(es[..i], sh[..i]) && Shares(es[..i + 1], sh[..i + 1]) && |sh| == |es| && sh[i] <= |es[i].key|
    ensures Buffer(es[..i + 1], sh[..i + 1]) == Buffer(es[..i], sh[..i]) + PutEntry(sh[i], es[i])
  {
    hide PutEntry;
    assert es[..i + 1][..i] == es[..i] && sh[..i + 1][..i] == sh[..i];
  }

  lemma SliceAfter(b: Bytes, p: Bytes, e: Bytes)
    requires p + e <= b
    ensures b[|p|..] == e + b[|p| + |e|..]
  {
    assert b == p + e + b[|p| + |e|..];
  }

  lemma {:induction false} OffsetEnds(es: seq<KV>, sh: seq<nat>)
    requires Shares(es, sh)
    ensures Offset(es, sh, 0) == 0 && Offset(es, sh, |es|) == |Buffer(es, sh)|
  {
    assert es[..0] == [] && es[..|es|] == es && sh[..|es|] == sh;
  }

  /** What decoding at an entry finds. */
  lemma DecodeAt(es: seq<KV>, sh: seq<nat>, i: nat)
    requires Shares(es, sh) && i < |es|
    ensures Offset(es, sh, i) < Offset(es, sh, i + 1) <= |Buffer(es, sh)|
    ensures var rest := es[i].key[sh[i]..] + es[i].value + Buffer(es, sh)[Offset(es, sh, i + 1)..];
            && DecodeEntry(Buffer(es, sh)[Offset(es, sh, i)..]) == Good(HeaderOf(sh[i], es[i]), rest)
            && |Buffer(es, sh)| - |rest| + |es[i].key| - sh[i] + |es[i].value| == Offset(es, sh, i + 1)
            && rest[..|es[i].key| - sh[i]] == es[i].key[sh[i]..]
            && rest[|es[i].key| - sh[i]..][..|es[i].value|] == es[i].value
  {
    hide DecodeEntry, PutHeader, Buffer;
    EntryAt(es, sh, i);
    var tail, b := es[i].key[sh[i]..] + es[i].value, Buffer(es, sh)[Offset(es, sh, i + 1)..];
    Joined(PutHeader(HeaderOf(sh[i], es[i])), tail, b);
    HeaderBack(HeaderOf(sh[i], es[i]), tail + b);
  }

  // ---------------------------------------------------------------- the finished block

  function PutRestarts(rs: seq<nat>): (r: Bytes)
    ensures |r| == 4 * |rs|
  {
    if rs == [] then [] else PutRestarts(rs[..|rs| - 1]) + Le(rs[|rs| - 1], 4)
  }

  function Finished(buffer: Bytes, restarts: seq<nat>): Bytes {
    var body := buffer + (PutRestarts(restarts) + Le(|restarts|, 4));
    body + Le(Crc(body), 4)
  }

  lemma {:induction false} RestartAt(rs: seq<nat>, j: nat)
    requires j < |rs|
    ensures PutRestarts(rs)[4 * j..4 * j + 4] == Le(rs[j], 4)
  {
    if j < |rs| - 1 {
      RestartAt(rs[..|rs| - 1], j);
      assert PutRestarts(rs)[4 * j..4 * j + 4] == PutRestarts(rs[..|rs| - 1])[4 * j..4 * j + 4];
    }
  }

  /** The parts of a finished block, as the iterator finds them from the end. */
  lemma FinishedParts(buffer: Bytes, rs: seq<nat>)
    requires |rs| < U32 && forall j | 0 <= j < |rs| :: rs[j] < U32
    ensures var d := Finished(buffer, rs);
            && |d| == |buffer| + 4 * |rs| + 8 && FromLe(d[|d| - 8..|d| - 4]) == |rs|
            && d[..|buffer|] == buffer
            && forall j | 0 <= j < |rs| ::
                 |buffer| + 4 * j + 4 <= |d| && FromLe(d[|buffer| + 4 * j..|buffer| + 4 * j + 4]) == rs[j]
  {
    hide Crc, FromLe;
    var d, n, p := Finished(buffer, rs), |buffer|, PutRestarts(rs);
    U32IsPow();
    LeRoundTrip(|rs|, 4);
    assert d[|d| - 8..|d| - 4] == Le(|rs|, 4);
    forall j | 0 <= j < |rs|
      ensures n + 4 * j + 4 <= |d| && FromLe(d[n + 4 * j..n + 4 * j + 4]) == rs[j]
    {
      RestartAt(rs, j);
      LeRoundTrip(rs[j], 4);
      assert d[n..n + |p|] == p;
      assert d[n + 4 * j..n + 4 * j + 4] == p[4 * j..4 * j + 4];
    }
  }

  /** Restart points are entries that share nothing, the first entry among them. */
  ghost predicate RestartsOK(es: seq<KV>, sh: seq<nat>, at: seq<nat>) {
    && Shares(es, sh) && at != [] && at[0] == 0
    && forall j | 0 <= j < |at| :: at[j] <= |es| && (es != [] ==> at[j] < |es| && sh[at[j]] == 0)
  }

  ghost predicate Offsets(restarts: seq<nat>, es: seq<KV>, sh: seq<nat>, at: seq<nat>)
    requires RestartsOK(es, sh, at)
  {
    |restarts| == |at| && forall j | 0 <= j < |at| :: restarts[j] == Offset(es, sh, at[j])
  }

  /** `data` is a block that holds exactly these entries. */
  ghost predicate BlockOf(data: Bytes, es: seq<KV>) {
    exists sh, at, restarts :: Layout(data, es, sh, at, restarts)
  }

  ghost predicate Layout(data: Bytes, es: seq<KV>, sh: seq<nat>, at: seq<nat>, restarts: seq<nat>) {
    && RestartsOK(es, sh, at) && Offsets(restarts, es, sh, at)
    && |Buffer(es, sh)| < U32 && |restarts| < U32 && data == Finished(Buffer(es, sh), restarts)
  }

  // ---------------------------------------------------------------- the builder

  class BlockBuilder {
    var buffer: Bytes
    var restarts: seq<nat>
    var lastKey: Bytes
    var counter: nat
    const interval: nat

    ghost var entries: seq<KV>
    ghost var shared: seq<nat>
    ghost var at: seq<nat>

    ghost predicate Valid()
      reads this
    {
      && RestartsOK(entries, shared, at) && Offsets(restarts, entries, shared, at)
      && buffer == Buffer(entries, shared)
      && lastKey == if entries == [] then [] else entries[|entries| - 1].key
    }

    constructor (restartInterval: nat)
      ensures Valid() && entries == [] && interval == restartInterval && buffer == [] && |restarts| == 1
    {
      interval := restartInterval;
      buffer, restarts, lastKey, counter := [], [0], [], 0;
      entries, shared, at := [], [], [0];
    }

    method Add(key: Bytes, value: Bytes)
      requires Valid() && |key| < U32 && |value| < U32
      modifies this
      ensures Valid() && entries == old(entries) + [KV(key, value)]
      ensures |buffer| <= |old(buffer)| + |key| + |value| + 15 && |restarts| <= |old(restarts)| + 1
      // a restart after every `interval` entries, the longest shared prefix in between
      ensures |restarts| == |old(restarts)| + if old(counter) < interval then 0 else 1
      ensures counter == if old(counter) < interval then old(counter) + 1 else 1
      ensures |shared| > 0 && (old(counter) < interval ==> Longest(old(lastKey), key, shared[|shared| - 1]))
    {
      hide Buffer, PutEntry;
      var prefix := 0;
      var e := KV(key, value);
      ghost var es, sh := entries, shared;
      if counter < interval {
        while prefix < |lastKey| && prefix < |key| && lastKey[prefix] == key[prefix]
          invariant prefix <= |lastKey| && prefix <= |key| && lastKey[..prefix] == key[..prefix]
        {
          prefix := prefix + 1;
        }
      } else {
        restarts := restarts + [|buffer|];
        counter := 0;
        at := at + [|entries|];
      }
      Extended(es, sh, e, prefix);
      EntrySize(prefix, e);
      buffer := buffer + PutEntry(prefix, e);
      lastKey := key;
      counter := counter + 1;
      entries, shared := entries + [e], shared + [prefix];
      ExtendedRestarts(es, sh, e, prefix, old(at), at, old(restarts), restarts);
    }

    /** CurrentSizeEstimate. */
    function Size(): nat
      reads this
    {
      |buffer| + 4 * |restarts| + 4
    }

    method Finish() returns (data: Bytes)
      requires Valid() && |buffer| < U32 && |restarts| < U32
      ensures BlockOf(data, entries) && |data| == |buffer| + 4 * |restarts| + 8
    {
      hide Buffer, RestartsOK;
      data := Finished(buffer, restarts);
      assert Layout(data, entries, shared, at, restarts);
    }

    lemma SmallestSize()
      requires Valid()
      ensures Size() >= 8
    {
    }

    lemma EmptyBuffer()
      requires Valid()
      ensures buffer == [] <==> entries == []
    {
      BufferEmpty(entries, shared);
    }

    method Reset()
      modifies this
      ensures Valid() && entries == [] && buffer == [] && |restarts| == 1
    {
      buffer, restarts, lastKey, counter := [], [0], [], 0;
      entries, shared, at := [], [], [0];
    }
  }

  /** No longer prefix is common to both. */
  predicate Longest(a: Bytes, b: Bytes, n: nat) {
    n <= |a| && n <= |b| && (n == |a| || n == |b| || a[n] != b[n])
  }

  lemma EntrySize(shared: nat, e: KV)
    requires shared <= |e.key| < U32 && |e.value| < U32
    ensures |PutEntry(shared, e)| <= |e.key| + |e.value| + 15
  {
    hide PutVarint;
    Varint32Short(shared);
    Varint32Short(|e.key| - shared);
    Varint32Short(|e.value|);
  }

  lemma {:induction false} BufferEmpty(es: seq<KV>, sh: seq<nat>)
    requires Shares(es, sh)
    ensures Buffer(es, sh) == [] <==> es == []
  {
  }

  lemma {:induction false} Extended(es: seq<KV>, sh: seq<nat>, e: KV, prefix: nat)
    requires Shares(es, sh) && prefix <= |e.key| < U32 && |e.value| < U32
    requires if es == [] then prefix == 0
             else prefix <= |es[|es| - 1].key| && e.key[..prefix] == es[|es| - 1].key[..prefix]
    ensures Shares(es + [e], sh + [prefix])
    ensures Buffer(es + [e], sh + [prefix]) == Buffer(es, sh) + PutEntry(prefix, e)
    ensures forall i | 0 <= i <= |es| :: Offset(es + [e], sh + [prefix], i) == Offset(es, sh, i)
  {
    hide PutEntry;
    var es', sh' := es + [e], sh + [prefix];
    assert es'[..|es|] == es && sh'[..|es|] == sh;
    forall i | 0 <= i <= |es| ensures Offset(es', sh', i) == Offset(es, sh, i) {
      assert es'[..i] == es[..i] && sh'[..i] == sh[..i];
    }
  }

  lemma {:induction false} ExtendedRestarts(es: seq<KV>, sh: seq<nat>, e: KV, prefix: nat, at: seq<nat>, at': seq<nat>,
                         restarts: seq<nat>, restarts': seq<nat>)
    requires RestartsOK(es, sh, at) && Offsets(restarts, es, sh, at) && Shares(es + [e], sh + [prefix])
    requires forall i | 0 <= i <= |es| :: Offset(es + [e], sh + [prefix], i) == Offset(es, sh, i)
    requires || (at' == at && restarts' == restarts)
             || (prefix == 0 && at' == at + [|es|] && restarts' == restarts + [|Buffer(es, sh)|])
    ensures RestartsOK(es + [e], sh + [prefix], at') && Offsets(restarts', es + [e], sh + [prefix], at')
  {
    assert |sh| == |es|;
    hide Buffer, Offset, Shares;
    OffsetEnds(es, sh);
    var es', sh' := es + [e], sh + [prefix];
    forall j | 0 <= j < |at'| ensures at'[j] < |es'| && sh'[at'[j]] == 0 && restarts'[j] == Offset(es', sh', at'[j]) {
      if j < |at| {
        assert at'[j] == at[j] && restarts'[j] == restarts[j] == Offset(es, sh, at[j]);
        assert at[j] <= |es| && Offset(es', sh', at[j]) == Offset(es, sh, at[j]);
      }
    }
  }

  // ---------------------------------------------------------------- the iterator

  ghost predicate Ascending(es: seq<KV>) {
    forall i, j | 0 <= i < j < |es| :: CompareInternal(es[i].key, es[j].key) < 0
  }

  class BlockIterator {
    const data: Bytes
    const count: nat        // restart points
    const limit: nat        // end of the entries
    var pos: nat
    var key: Bytes          // key_buffer_

    ghost const es: seq<KV>
    ghost const sh: seq<nat>
    ghost const starts: seq<nat>
    ghost const restarts: seq<nat>
    ghost var at: nat       // the entry it stands on; |es| at the end

    ghost predicate Shape()
      reads this
    {
      Layout(data, es, sh, starts, restarts) && count == |restarts| && limit == |Buffer(es, sh)| && limit <= |data|
      && data[..limit] == Buffer(es, sh)
    }

    ghost predicate Valid()
      reads this
    {
      && Shape() && at <= |es| && pos == Offset(es, sh, at)
      && (at < |es| ==> pos < limit && key == es[at].key)
      && (at == |es| ==> pos == limit)
    }

    /** A block iterator starts behind everything; a seek must follow. */
    constructor (d: Bytes, ghost entries: seq<KV>)
      requires BlockOf(d, entries)
      ensures Valid() && es == entries && at == |es| && data == d
    {
      hide Layout, Buffer, Offset, Shares, FromLe;
      ghost var sh0, at0, rs0 :| Layout(d, entries, sh0, at0, rs0);
      LayoutParts(d, entries, sh0, at0, rs0);
      var n := FromLe(d[|d| - 8..|d| - 4]);
      data, count, limit := d, n, |d| - 4 * (2 + n);
      pos, key := |d| - 4 * (2 + n), [];
      es, sh, starts, restarts, at := entries, sh0, at0, rs0, |entries|;
      OffsetEnds(entries, sh0);
    }

    function Restart(j: nat): nat
      requires limit + 4 * j + 4 <= |data|
    {
      FromLe(data[limit + 4 * j..limit + 4 * j + 4])
    }

    /** ParseEntry at the entry `i`: its key from the shared prefix and the rest. */
    method ParseEntry(ghost i: nat)
      requires Shape() && Shares(es, sh) && i < |es| && pos == Offset(es, sh, i)
      requires sh[i] > 0 ==> i > 0 && key == es[i - 1].key
      modifies this
      ensures Valid() && at == i
    {
      hide Layout, DecodeEntry, Buffer, Offset, Shares, RestartsOK;
      LayoutShares(data, es, sh, starts, restarts);
      SharesAt(es, sh, i);
      DecodeAt(es, sh, i);
      OffsetEnds(es, sh);
      assert data[..limit][pos..] == Buffer(es, sh)[Offset(es, sh, i)..];
      match DecodeEntry(data[..limit][pos..]) {
        case Good(h, rest) =>
          RebuiltKey(es, sh, i, if h.shared <= |key| then key[..h.shared] else []);
          key := key[..h.shared] + rest[..h.nonShared];
      }
      at := i;
    }

    method SeekToFirst()
      requires Shape()
      modifies this
      ensures Valid() && at == 0
    {
      hide Layout, Buffer, Offset, Shares, RestartsOK, FromLe;
      LayoutParts(data, es, sh, starts, restarts);
      pos := Restart(0);
      key := [];
      OffsetEnds(es, sh);
      if es != [] {
        SharesAt(es, sh, 0);
        EntryAt(es, sh, 0);
      }
      if pos < limit {
        ParseEntry(0);
      } else {
        at := 0;
      }
    }

    method Next()
      requires Valid()
      modifies this
      ensures Valid() && at == if old(at) < |es| then old(at) + 1 else old(at)
    {
      hide Layout, DecodeEntry, Buffer, Offset, Shares, RestartsOK;
      if pos >= limit {
        return;
      }
      LayoutShares(data, es, sh, starts, restarts);
      ghost var i := at;
      StepAt(es, sh, i);
      match DecodeEntry(data[..limit][pos..]) {
        case Good(h, rest) =>
          pos := limit - |rest| + h.nonShared + h.valueLen;
      }
      if pos >= limit {
        at := i + 1;
        pos := limit;
        return;
      }
      ParseEntry(i + 1);
    }

    /** The first entry from `i` on that is not below the target, scanning forward. */
    method ScanFrom(target: Bytes, ghost i: nat)
      requires Shape() && Shares(es, sh) && i < |es| && sh[i] == 0 && pos == Offset(es, sh, i)
      modifies this
      ensures Valid() && i <= at && (at < |es| ==> CompareInternal(es[at].key, target) >= 0)
      ensures forall j | i <= j < at :: CompareInternal(es[j].key, target) < 0
    {
      hide Layout, DecodeEntry, Buffer, Offset, Shares, RestartsOK, CompareInternal;
      key := [];
      ParseEntry(i);
      while pos < limit && CompareInternal(key, target) < 0
        invariant Valid() && i <= at
        invariant forall j | i <= j < at :: CompareInternal(es[j].key, target) < 0
        decreases |es| - at
      {
        Next();
      }
    }

    /** Seek: binary search over the restart points, then a forward scan. */
    method Seek(target: Bytes)
      requires Shape() && Ascending(es)
      modifies this
      ensures Valid() && (at < |es| ==> CompareInternal(es[at].key, target) >= 0)
      ensures forall j | 0 <= j < at :: CompareInternal(es[j].key, target) < 0
    {
      hide Layout, DecodeEntry, Buffer, Offset, Shares, RestartsOK, CompareInternal, FromLe, Ascending;
      LayoutParts(data, es, sh, starts, restarts);
      DecodeEmpty();
      var left, right := 0, count - 1;
      while left < right
        invariant 0 <= left <= right < count
        invariant left > 0 ==> es != [] && starts[left] < |es| && CompareInternal(es[starts[left]].key, target) < 0
      {
        var mid := (left + right + 1) / 2;
        var entry := Restart(mid);
        var d := if entry <= limit then DecodeEntry(data[..limit][entry..]) else Bad;
        if d.Bad? || limit - |d.rest| + d.val.nonShared + d.val.valueLen > limit {
          break;
        }
        RestartKey(es, sh, starts, mid);
        if CompareInternal(d.rest[..d.val.nonShared], target) < 0 {
          left := mid;
        } else {
          right := mid - 1;
        }
      }
      pos := Restart(left);
      key := [];
      OffsetEnds(es, sh);
      RestartKey(es, sh, starts, left);
      if pos >= limit {
        pos, at := limit, 0;
        return;
      }
      ScanFrom(target, starts[left]);
      if left > 0 {
        BelowToo(es, starts[left], target);
      }
    }

    lemma ShapeOf()
      requires Valid()
      ensures Shape()
    {
    }

    lemma Bounds()
      requires Valid()
      ensures at <= |es| && (pos < limit <==> at < |es|) && Shape()
    {
    }

    lemma AtEntry()
      requires Valid() && at < |es|
      ensures key == es[at].key
    {
    }

    method Value() returns (v: Bytes)
      requires Valid() && at < |es|
      ensures v == es[at].value
    {
      hide Layout, DecodeEntry, Buffer, Offset, Shares, RestartsOK;
      LayoutShares(data, es, sh, starts, restarts);
      SharesAt(es, sh, at);
      DecodeAt(es, sh, at);
      assert data[..limit][pos..] == Buffer(es, sh)[Offset(es, sh, at)..];
      match DecodeEntry(data[..limit][pos..]) {
        case Good(h, rest) =>
          v := rest[h.nonShared..][..h.valueLen];
      }
    }
  }

  /** A restart point stores a whole key. */
  lemma {:induction false} RestartKey(es: seq<KV>, sh: seq<nat>, at: seq<nat>, j: nat)
    requires RestartsOK(es, sh, at) && j < |at|
    ensures Offset(es, sh, at[j]) <= |Buffer(es, sh)|
    ensures es == [] ==> Buffer(es, sh) == []
    ensures es != [] ==>
              at[j] < |es| && sh[at[j]] == 0 && Offset(es, sh, at[j]) < |Buffer(es, sh)| &&
              match DecodeEntry(Buffer(es, sh)[Offset(es, sh, at[j])..])
              case Bad => false
              case Good(h, rest) => h.nonShared <= |rest| && rest[..h.nonShared] == es[at[j]].key
  {
    hide DecodeEntry, Offset;
    OffsetEnds(es, sh);
    if es != [] {
      hide Buffer;
      DecodeAt(es, sh, at[j]);
    }
  }

  lemma DecodeEmpty()
    ensures DecodeEntry([]) == Bad
  {
  }

  lemma BelowToo(es: seq<KV>, i: nat, target: Bytes)
    requires Ascending(es) && i < |es| && CompareInternal(es[i].key, target) < 0
    ensures forall j | 0 <= j <= i :: CompareInternal(es[j].key, target) < 0
  {
    hide CompareInternal;
    forall j | 0 <= j < i ensures CompareInternal(es[j].key, target) < 0 {
      CompareTransitive(es[j].key, es[i].key, target);
    }
  }

  /** From one entry to the next. */
  lemma {:induction false} StepAt(es: seq<KV>, sh: seq<nat>, i: nat)
    requires Shares(es, sh) && i < |es|
    ensures Offset(es, sh, i) <= |Buffer(es, sh)|
    ensures match DecodeEntry(Buffer(es, sh)[Offset(es, sh, i)..])
            case Bad => false
            case Good(h, rest) => |Buffer(es, sh)| - |rest| + h.nonShared + h.valueLen == Offset(es, sh, i + 1)
    ensures i + 1 < |es| <==> Offset(es, sh, i + 1) < |Buffer(es, sh)|
    ensures i + 1 == |es| ==> Offset(es, sh, i + 1) == |Buffer(es, sh)|
    ensures i + 1 < |es| ==> sh[i + 1] > 0 ==> sh[i + 1] <= |es[i].key|
  {
    hide DecodeEntry, Buffer, Offset;
    DecodeAt(es, sh, i);
    OffsetEnds(es, sh);
    if i + 1 < |es| {
      EntryAt(es, sh, i + 1);
    }
  }

  /** The shared prefix of the previous key and the stored rest are the key. */
  lemma RebuiltKey(es: seq<KV>, sh: seq<nat>, i: nat, prefix: Bytes)
    requires Shares(es, sh) && i < |es|
    requires sh[i] > 0 ==> i > 0 && prefix == es[i - 1].key[..sh[i]]
    requires sh[i] == 0 ==> prefix == []
    ensures prefix + es[i].key[sh[i]..] == es[i].key
  {
    assert es[i].key == es[i].key[..sh[i]] + es[i].key[sh[i]..];
  }

  lemma SharesAt(es: seq<KV>, sh: seq<nat>, i: nat)
    requires Shares(es, sh) && i < |es|
    ensures |sh| == |es| && sh[i] <= |es[i].key|
    ensures sh[i] > 0 ==> i > 0 && sh[i] <= |es[i - 1].key|
  {
  }

  lemma LayoutShares(data: Bytes, es: seq<KV>, sh: seq<nat>, at: seq<nat>, restarts: seq<nat>)
    requires Layout(data, es, sh, at, restarts)
    ensures RestartsOK(es, sh, at) && Shares(es, sh) && at != [] && |restarts| == |at|
  {
  }

  lemma {:induction false} LayoutParts(data: Bytes, es: seq<KV>, sh: seq<nat>, at: seq<nat>, restarts: seq<nat>)
    requires Layout(data, es, sh, at, restarts)
    ensures Shares(es, sh) && RestartsOK(es, sh, at) && |at| == |restarts| > 0 && at[0] == 0
    ensures var n := |Buffer(es, sh)|;
            && |data| == n + 4 * |restarts| + 8 && FromLe(data[|data| - 8..|data| - 4]) == |restarts|
            && data[..n] == Buffer(es, sh)
            && forall j | 0 <= j < |restarts| ::
                 && n + 4 * j + 4 <= |data| && at[j] <= |es|
                 && FromLe(data[n + 4 * j..n + 4 * j + 4]) == Offset(es, sh, at[j])
  {
    hide Finished, Buffer, FromLe;
    forall j | 0 <= j < |restarts| ensures restarts[j] < U32 {
      BufferPrefix(es, sh, at[j]);
    }
    FinishedParts(Buffer(es, sh), restarts);
  }
}
