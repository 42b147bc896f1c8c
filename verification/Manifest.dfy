/** The MANIFEST: an append log of file edits on top of a snapshot, its encoding, its
    replay, and the staging of edits between two writes. */
module Manifests {
  import opened Bytes
  import opened Codec

  const NUM_LEVELS := 7

  datatype Meta = Meta(id: nat, size: nat, smallest: Bytes, largest: Bytes)

  datatype Image = Image(lastSeq: nat, flushedSeq: nat, nextId: nat, files: seq<seq<Meta>>)

  datatype Rec =
    | Add(level: nat, meta: Meta)
    | Del(level: nat, id: nat)
    | Counters(lastSeq: nat, flushedSeq: nat, nextId: nat)
    | Snapshot(image: Image)

  const EMPTY := Image(0, 0, 1, [[], [], [], [], [], [], []])

  predicate MetaOK(m: Meta) {
    m.id < Pow(8) && m.size < Pow(8) && |m.smallest| < Pow(4) && |m.largest| < Pow(4)
  }

  ghost predicate ImageOK(i: Image) {
    && i.lastSeq < Pow(8) && i.flushedSeq < Pow(8) && i.nextId < Pow(8) && |i.files| == NUM_LEVELS
    && forall l | 0 <= l < NUM_LEVELS :: |i.files[l]| < Pow(4) && forall m | m in i.files[l] :: MetaOK(m)
  }

  ghost predicate RecOK(r: Rec) {
    match r
    case Add(l, m) => l < NUM_LEVELS && MetaOK(m)
    case Del(l, id) => l < NUM_LEVELS && id < Pow(8)
    case Counters(a, b, c) => a < Pow(8) && b < Pow(8) && c < Pow(8)
    case Snapshot(i) => ImageOK(i)
  }

  // ---------------------------------------------------------------- encoding

  function PutMeta(m: Meta): Bytes {
    Le(m.id, 8) + (Le(m.size, 8) + (PutBytes(m.smallest) + PutBytes(m.largest)))
  }

  function PutMetas(ms: seq<Meta>): Bytes {
    if ms == [] then [] else PutMeta(ms[0]) + PutMetas(ms[1..])
  }

  function PutCounters(a: nat, b: nat, c: nat): (r: Bytes)
    ensures |r| == 24
  {
    Le(a, 8) + (Le(b, 8) + Le(c, 8))
  }

  function PutLevels(files: seq<seq<Meta>>, l: nat): Bytes
    requires l <= |files|
    decreases |files| - l
  {
    if l == |files| then Le(0, 4) + Le(0, 4)
    else if files[l] == [] then PutLevels(files, l + 1)
    else Le(l, 4) + (Le(|files[l]|, 4) + (PutMetas(files[l]) + PutLevels(files, l + 1)))
  }

  function PutRec(r: Rec): Bytes {
    match r
    case Add(l, m) => [1] + (Le(l, 4) + PutMeta(m))
    case Del(l, id) => [2] + (Le(l, 4) + Le(id, 8))
    case Counters(a, b, c) => [3] + PutCounters(a, b, c)
    case Snapshot(i) => [4] + (PutCounters(i.lastSeq, i.flushedSeq, i.nextId) + PutLevels(i.files, 0))
  }

  function PutAll(rs: seq<Rec>): Bytes {
    if rs == [] then [] else PutRec(rs[0]) + PutAll(rs[1..])
  }

  // ---------------------------------------------------------------- decoding

  function ReadMeta(b: Bytes): Parsed<Meta> {
    match ReadLe(b, 8)
    case Bad => Bad
    case Good(id, b1) =>
      match ReadLe(b1, 8)
      case Bad => Bad
      case Good(size, b2) =>
        match ReadBytes(b2)
        case Bad => Bad
        case Good(small, b3) =>
          match ReadBytes(b3)
          case Bad => Bad
          case Good(large, b4) => Good(Meta(id, size, small, large), b4)
  }

  function ReadMetas(b: Bytes, n: nat): (r: Parsed<seq<Meta>>)
    ensures r.Good? ==> |r.rest| <= |b|
  {
    if n == 0 then Good([], b)
    else
      match ReadMeta(b)
      case Bad => Bad
      case Good(m, b1) =>
        match ReadMetas(b1, n - 1)
        case Bad => Bad
        case Good(ms, b2) => Good([m] + ms, b2)
  }

  function ReadCounters(b: Bytes): (r: Parsed<Rec>)
    ensures r.Good? ==> r.val.Counters?
  {
    match ReadLe(b, 8)
    case Bad => Bad
    case Good(x, b1) =>
      match ReadLe(b1, 8)
      case Bad => Bad
      case Good(y, b2) =>
        match ReadLe(b2, 8)
        case Bad => Bad
        case Good(z, b3) => Good(Counters(x, y, z), b3)
  }

  /** The level blocks of a snapshot, up to a block with count zero. */
  function ReadLevels(b: Bytes, files: seq<seq<Meta>>): (r: Parsed<seq<seq<Meta>>>)
    requires |files| == NUM_LEVELS
    ensures r.Good? ==> |r.val| == NUM_LEVELS && |r.rest| <= |b|
    decreases |b|
  {
    match ReadLe(b, 4)
    case Bad => Bad
    case Good(level, b1) =>
      match ReadLe(b1, 4)
      case Bad => Bad
      case Good(count, b2) =>
        if count == 0 then Good(files, b2)
        else if level >= NUM_LEVELS then Bad
        else
          match ReadMetas(b2, count)
          case Bad => Bad
          case Good(ms, b3) => ReadLevels(b3, files[level := files[level] + ms])
  }

  function ReadRec(b: Bytes): (r: Parsed<Rec>)
    requires b != []
    ensures r.Good? ==> |r.rest| < |b| && (r.val.Snapshot? ==> |r.val.image.files| == NUM_LEVELS)
  {
    var b1 := b[1..];
    if b[0] == 4 then
      match ReadCounters(b1)
      case Bad => Bad
      case Good(c, b2) =>
        (match ReadLevels(b2, EMPTY.files)
         case Bad => Bad
         case Good(files, b3) => Good(Snapshot(Image(c.lastSeq, c.flushedSeq, c.nextId, files)), b3))
    else if b[0] == 2 then
      match ReadLe(b1, 4)
      case Bad => Bad
      case Good(level, b2) =>
        (match ReadLe(b2, 8)
         case Bad => Bad
         case Good(id, b3) => Good(Del(level, id), b3))
    else if b[0] == 1 then
      match ReadLe(b1, 4)
      case Bad => Bad
      case Good(level, b2) =>
        (match ReadMeta(b2)
         case Bad => Bad
         case Good(m, b3) => Good(Add(level, m), b3))
    else if b[0] == 3 then
      match ReadCounters(b1)
      case Bad => Bad
      case Good(c, b2) => Good(c, b2)
    else Bad
  }

  function Without(ms: seq<Meta>, id: nat): seq<Meta> {
    if ms == [] then []
    else
      var n := |ms| - 1;
      Without(ms[..n], id) + if ms[n].id == id then [] else [ms[n]]
  }

  /** What replay does with one record; a level out of range is skipped. */
  function ApplyRec(i: Image, r: Rec): (j: Image)
    requires |i.files| == NUM_LEVELS && (r.Snapshot? ==> |r.image.files| == NUM_LEVELS)
    ensures |j.files| == NUM_LEVELS
  {
    match r
    case Add(l, m) => if l < NUM_LEVELS then i.(files := i.files[l := i.files[l] + [m]]) else i
    case Del(l, id) => if l < NUM_LEVELS then i.(files := i.files[l := Without(i.files[l], id)]) else i
    case Counters(a, b, c) => i.(lastSeq := a, flushedSeq := b, nextId := c)
    case Snapshot(s) => s
  }

  // ---------------------------------------------------------------- round trips

  lemma MetaBack(m: Meta, rest: Bytes)
    requires MetaOK(m)
    ensures ReadMeta(PutMeta(m) + rest) == Good(m, rest)
  {
    hide ReadLe, ReadBytes, PutBytes, Le;
    var p2 := PutBytes(m.smallest) + PutBytes(m.largest);
    Joined(Le(m.id, 8), Le(m.size, 8) + p2, rest);
    Joined(Le(m.size, 8), p2, rest);
    Joined(PutBytes(m.smallest), PutBytes(m.largest), rest);
    LeBack(m.id, 8, Le(m.size, 8) + p2 + rest);
    LeBack(m.size, 8, p2 + rest);
    BytesBack(m.smallest, PutBytes(m.largest) + rest);
    BytesBack(m.largest, rest);
  }

  lemma MetaCut(m: Meta, k: nat)
    requires MetaOK(m) && k < |PutMeta(m)|
    ensures ReadMeta(PutMeta(m)[..k]) == Bad
  {
    hide ReadBytes, PutBytes, FromLe;
    var p3 := PutBytes(m.largest);
    var p2 := PutBytes(m.smallest) + p3;
    var p1 := Le(m.size, 8) + p2;
    CutConcat(Le(m.id, 8), p1, k);
    if k > 8 {
      LeBack(m.id, 8, p1[..k - 8]);
      CutConcat(Le(m.size, 8), p2, k - 8);
      if k > 16 {
        LeBack(m.size, 8, p2[..k - 16]);
        var n := |PutBytes(m.smallest)|;
        CutConcat(PutBytes(m.smallest), p3, k - 16);
        if k - 16 < n {
          BytesCut(m.smallest, k - 16);
        } else {
          assert p2[..k - 16] == PutBytes(m.smallest) + p3[..k - 16 - n];
          BytesBack(m.smallest, p3[..k - 16 - n]);
          BytesCut(m.largest, k - 16 - n);
        }
      } else if k == 16 {
        assert p1[..8] == Le(m.size, 8) + [];
        LeBack(m.size, 8, []);
        EmptyReads();
      }
    }
  }

  lemma EmptyReads()
    ensures ReadBytes([]) == Bad && ReadMeta([]) == Bad && ReadLe([], 4) == Bad && ReadLe([], 8) == Bad
  {
  }

  lemma {:induction false} MetasBack(ms: seq<Meta>, rest: Bytes)
    requires forall m | m in ms :: MetaOK(m)
    ensures ReadMetas(PutMetas(ms) + rest, |ms|) == Good(ms, rest)
  {
    hide ReadMeta, PutMeta, MetaOK;
    if ms == [] {
      assert PutMetas(ms) + rest == rest;
    } else {
      MetasBack(ms[1..], rest);
      Joined(PutMeta(ms[0]), PutMetas(ms[1..]), rest);
      MetaBack(ms[0], PutMetas(ms[1..]) + rest);
      assert [ms[0]] + ms[1..] == ms;
    }
  }

  lemma {:induction false} MetasCut(ms: seq<Meta>, k: nat)
    requires (forall m | m in ms :: MetaOK(m)) && k < |PutMetas(ms)|
    ensures ReadMetas(PutMetas(ms)[..k], |ms|) == Bad
  {
    hide ReadMeta, PutMeta, MetaOK;
    var p, q := PutMeta(ms[0]), PutMetas(ms[1..]);
    CutConcat(p, q, k);
    if k < |p| {
      MetaCut(ms[0], k);
    } else {
      assert (p + q)[..k] == p + q[..k - |p|];
      MetaBack(ms[0], q[..k - |p|]);
      MetasCut(ms[1..], k - |p|);
    }
  }

  lemma CountersBack(a: nat, b: nat, c: nat, rest: Bytes)
    requires a < Pow(8) && b < Pow(8) && c < Pow(8)
    ensures ReadCounters(PutCounters(a, b, c) + rest) == Good(Counters(a, b, c), rest)
  {
    hide ReadLe, Le;
    Joined(Le(a, 8), Le(b, 8) + Le(c, 8), rest);
    Joined(Le(b, 8), Le(c, 8), rest);
    LeBack(a, 8, Le(b, 8) + Le(c, 8) + rest);
    LeBack(b, 8, Le(c, 8) + rest);
    LeBack(c, 8, rest);
  }

  lemma {:induction false} SmallFits(n: nat, w: nat)
    requires n < 256 && w > 0
    ensures n < Pow(w)
  {
    assert Pow(w) == 256 * Pow(w - 1) && Pow(w - 1) >= 1 by {
      PowPositive(w - 1);
    }
  }

  lemma {:induction false} PowPositive(w: nat)
    ensures Pow(w) >= 1
  {
    if w > 0 {
      PowPositive(w - 1);
    }
  }

  ghost predicate FilesOK(files: seq<seq<Meta>>) {
    |files| == NUM_LEVELS && forall l | 0 <= l < NUM_LEVELS :: |files[l]| < Pow(4) && forall m | m in files[l] :: MetaOK(m)
  }

  /** The levels below `l` as read so far. */
  function Partial(files: seq<seq<Meta>>, l: nat): (r: seq<seq<Meta>>)
    requires l <= |files| == NUM_LEVELS
    ensures |r| == NUM_LEVELS
  {
    files[..l] + seq(NUM_LEVELS - l, _ => [])
  }

  lemma PartialNext(files: seq<seq<Meta>>, l: nat)
    requires l < |files| == NUM_LEVELS
    ensures Partial(files, l)[l := Partial(files, l)[l] + files[l]] == Partial(files, l + 1)
    ensures files[l] == [] ==> Partial(files, l + 1) == Partial(files, l)
    ensures Partial(files, NUM_LEVELS) == files && Partial(files, 0) == EMPTY.files
  {
    var a, b := Partial(files, l), Partial(files, l + 1);
    assert forall i | l <= i < NUM_LEVELS :: a[i] == [];
    assert forall i | 0 <= i < NUM_LEVELS :: a[l := a[l] + files[l]][i] == b[i];
    assert forall i | 0 <= i < NUM_LEVELS :: EMPTY.files[i] == [];
  }

  lemma {:induction false} LevelsBack(files: seq<seq<Meta>>, l: nat, rest: Bytes)
    requires FilesOK(files) && l <= NUM_LEVELS
    ensures ReadLevels(PutLevels(files, l) + rest, Partial(files, l)) == Good(files, rest)
    decreases NUM_LEVELS - l
  {
    hide ReadLe, Le, ReadMetas, PutMetas, MetaOK, Pow, Partial;
    if l == NUM_LEVELS {
      SmallFits(0, 4);
      Joined(Le(0, 4), Le(0, 4), rest);
      LeBack(0, 4, Le(0, 4) + rest);
      LeBack(0, 4, rest);
      PartialNext(files, 0);
    } else {
      PartialNext(files, l);
      LevelsBack(files, l + 1, rest);
      if files[l] != [] {
        SmallFits(l, 4);
        var q := PutLevels(files, l + 1);
        var ms, n := PutMetas(files[l]), Le(|files[l]|, 4);
        Joined(Le(l, 4), n + (ms + q), rest);
        Joined(n, ms + q, rest);
        Joined(ms, q, rest);
        LeBack(l, 4, n + (ms + q) + rest);
        LeBack(|files[l]|, 4, ms + q + rest);
        MetasBack(files[l], q + rest);
      }
    }
  }

  lemma {:induction false} LevelsCut(files: seq<seq<Meta>>, l: nat, k: nat)
    requires FilesOK(files) && l <= NUM_LEVELS && k < |PutLevels(files, l)|
    ensures ReadLevels(PutLevels(files, l)[..k], Partial(files, l)) == Bad
    decreases NUM_LEVELS - l
  {
    hide ReadMetas, PutMetas, MetaOK, Pow, Partial, FromLe;
    if l == NUM_LEVELS {
      SmallFits(0, 4);
      CutConcat(Le(0, 4), Le(0, 4), k);
      if k >= 4 {
        LeBack(0, 4, Le(0, 4)[..k - 4]);
      }
    } else {
      PartialNext(files, l);
      if files[l] == [] {
        LevelsCut(files, l + 1, k);
      } else {
        SmallFits(l, 4);
        var q := PutLevels(files, l + 1);
        var ms, n := PutMetas(files[l]), Le(|files[l]|, 4);
        CutConcat(Le(l, 4), n + (ms + q), k);
        if k >= 4 {
          assert PutLevels(files, l)[..k] == Le(l, 4) + (n + (ms + q))[..k - 4];
          LeBack(l, 4, (n + (ms + q))[..k - 4]);
          CutConcat(n, ms + q, k - 4);
          if k >= 8 {
            assert (n + (ms + q))[..k - 4] == n + (ms + q)[..k - 8];
            LeBack(|files[l]|, 4, (ms + q)[..k - 8]);
            CutConcat(ms, q, k - 8);
            if k - 8 < |ms| {
              MetasCut(files[l], k - 8);
            } else {
              assert (ms + q)[..k - 8] == ms + q[..k - 8 - |ms|];
              MetasBack(files[l], q[..k - 8 - |ms|]);
              LevelsCut(files, l + 1, k - 8 - |ms|);
            }
          }
        }
      }
    }
  }

  lemma RecBack(r: Rec, rest: Bytes)
    requires RecOK(r)
    ensures PutRec(r) != [] && ReadRec(PutRec(r) + rest) == Good(r, rest)
  {
    hide ReadLe, Le, ReadMeta, PutMeta, ReadLevels, PutLevels, ReadCounters, PutCounters, MetaOK, Pow;
    var body := PutRec(r)[1..];
    assert (PutRec(r) + rest)[1..] == body + rest;
    match r {
      case Add(l, m) =>
        SmallFits(l, 4);
        assert body == Le(l, 4) + PutMeta(m);
        Joined(Le(l, 4), PutMeta(m), rest);
        LeBack(l, 4, PutMeta(m) + rest);
        MetaBack(m, rest);
      case Del(l, id) =>
        SmallFits(l, 4);
        assert body == Le(l, 4) + Le(id, 8);
        Joined(Le(l, 4), Le(id, 8), rest);
        LeBack(l, 4, Le(id, 8) + rest);
        LeBack(id, 8, rest);
      case Counters(a, b, c) =>
        assert body == PutCounters(a, b, c);
        CountersBack(a, b, c, rest);
      case Snapshot(i) =>
        var cs := PutCounters(i.lastSeq, i.flushedSeq, i.nextId);
        assert body == cs + PutLevels(i.files, 0);
        Joined(cs, PutLevels(i.files, 0), rest);
        CountersBack(i.lastSeq, i.flushedSeq, i.nextId, PutLevels(i.files, 0) + rest);
        PartialNext(i.files, 0);
        LevelsBack(i.files, 0, rest);
    }
  }

  lemma CountersCut(b: Bytes)
    requires |b| < 24
    ensures ReadCounters(b) == Bad
  {
  }

  /** A record cut short is refused. */
  lemma RecCut(r: Rec, k: nat)
    requires RecOK(r) && 0 < k < |PutRec(r)|
    ensures ReadRec(PutRec(r)[..k]) == Bad
  {
    hide FromLe, ReadMeta, PutMeta, ReadLevels, PutLevels, ReadCounters, PutCounters, MetaOK, Pow;
    var body, j := PutRec(r)[1..], k - 1;
    assert PutRec(r)[..k][1..] == body[..j];
    match r {
      case Add(l, m) =>
        SmallFits(l, 4);
        assert body == Le(l, 4) + PutMeta(m);
        CutConcat(Le(l, 4), PutMeta(m), j);
        if j >= 4 {
          assert body[..j] == Le(l, 4) + PutMeta(m)[..j - 4];
          LeBack(l, 4, PutMeta(m)[..j - 4]);
          MetaCut(m, j - 4);
        }
      case Del(l, id) =>
        SmallFits(l, 4);
        assert body == Le(l, 4) + Le(id, 8);
        CutConcat(Le(l, 4), Le(id, 8), j);
        if j >= 4 {
          assert body[..j] == Le(l, 4) + Le(id, 8)[..j - 4];
          LeBack(l, 4, Le(id, 8)[..j - 4]);
        }
      case Counters(a, b, c) =>
        CountersCut(body[..j]);
      case Snapshot(i) =>
        var cs := PutCounters(i.lastSeq, i.flushedSeq, i.nextId);
        assert body == cs + PutLevels(i.files, 0);
        CutConcat(cs, PutLevels(i.files, 0), j);
        if j < 24 {
          CountersCut(body[..j]);
        } else {
          assert body[..j] == cs + PutLevels(i.files, 0)[..j - 24];
          CountersBack(i.lastSeq, i.flushedSeq, i.nextId, PutLevels(i.files, 0)[..j - 24]);
          PartialNext(i.files, 0);
          LevelsCut(i.files, 0, j - 24);
        }
    }
  }

  // ---------------------------------------------------------------- replay

  ghost predicate RecsOK(rs: seq<Rec>) {
    forall r | r in rs :: RecOK(r)
  }

  function Replay(b: Bytes, i: Image): Option<Image>
    requires |i.files| == NUM_LEVELS
    decreases |b|
  {
    if b == [] then Some(i)
    else
      match ReadRec(b)
      case Bad => None
      case Good(r, rest) => Replay(rest, ApplyRec(i, r))
  }

  /** What opening the store makes of the log. */
  function Reload(log: Bytes): Option<Image> {
    Replay(log, EMPTY)
  }

  method ReplayLog(log: Bytes) returns (r: Option<Image>)
    ensures r == Reload(log)
  {
    hide ReadRec, ApplyRec;
    var b, i := log, EMPTY;
    while b != []
      invariant |i.files| == NUM_LEVELS && Replay(b, i) == Replay(log, EMPTY)
      decreases |b|
    {
      match ReadRec(b)
      case Bad => return None;
      case Good(rec, rest) => b, i := rest, ApplyRec(i, rec);
    }
    r := Some(i);
  }

  ghost function ApplyAll(i: Image, rs: seq<Rec>): (j: Image)
    requires |i.files| == NUM_LEVELS && RecsOK(rs)
    ensures |j.files| == NUM_LEVELS
    decreases |rs|
  {
    if rs == [] then i
    else
      assert rs[0] in rs;
      assert RecOK(rs[0]);
      ApplyAll(ApplyRec(i, rs[0]), rs[1..])
  }

  /** A log that was written whole replays to what it describes. */
  lemma {:induction false} ReplayWritten(rs: seq<Rec>, i: Image)
    requires |i.files| == NUM_LEVELS && RecsOK(rs)
    ensures Replay(PutAll(rs), i) == Some(ApplyAll(i, rs))
  {
    hide ReadRec, ApplyRec, PutRec, RecOK;
    if rs != [] {
      assert rs[0] in rs;
      RecBack(rs[0], PutAll(rs[1..]));
      assert RecOK(rs[0]) ==> (rs[0].Snapshot? ==> |rs[0].image.files| == NUM_LEVELS) by {
        SnapshotLevels(rs[0]);
      }
      ReplayWritten(rs[1..], ApplyRec(i, rs[0]));
    }
  }

  lemma SnapshotLevels(r: Rec)
    ensures RecOK(r) && r.Snapshot? ==> |r.image.files| == NUM_LEVELS
  {
  }

  lemma PutAllSplit(rs: seq<Rec>, n: nat)
    requires 0 < n <= |rs|
    ensures |PutAll(rs[..n])| == |PutRec(rs[0])| + |PutAll(rs[1..][..n - 1])|
  {
    assert rs[..n][1..] == rs[1..][..n - 1];
  }

  /** A log cut short anywhere is refused, unless the cut falls between two records;
      then it replays to the records in front of it. */
  lemma {:induction false} ReplayTruncated(rs: seq<Rec>, i: Image, k: nat)
    requires |i.files| == NUM_LEVELS && RecsOK(rs) && k <= |PutAll(rs)|
    ensures match Replay(PutAll(rs)[..k], i)
            case Some(j) => exists n | 0 <= n <= |rs| :: k == |PutAll(rs[..n])| && j == ApplyAll(i, rs[..n])
            case None => forall n | 0 <= n <= |rs| :: k != |PutAll(rs[..n])|
    decreases |rs|, 1
  {
    hide ReadRec, ApplyRec, PutRec, RecOK;
    if k == 0 {
      assert rs[..0] == [];
      assert k == |PutAll(rs[..0])| && i == ApplyAll(i, rs[..0]);
    } else {
      var p, q := PutRec(rs[0]), PutAll(rs[1..]);
      assert rs[0] in rs;
      CutConcat(p, q, k);
      forall n | 0 < n <= |rs| ensures |PutAll(rs[..n])| == |p| + |PutAll(rs[1..][..n - 1])| {
        PutAllSplit(rs, n);
      }
      assert rs[..0] == [];
      if k < |p| {
        RecCut(rs[0], k);
      } else {
        TruncatedTail(rs, i, k);
      }
    }
  }

  lemma {:induction false} TruncatedTail(rs: seq<Rec>, i: Image, k: nat)
    requires |i.files| == NUM_LEVELS && RecsOK(rs) && 0 < k <= |PutAll(rs)| && |PutRec(rs[0])| <= k
    ensures match Replay(PutAll(rs)[..k], i)
            case Some(j) => exists n | 0 <= n <= |rs| :: k == |PutAll(rs[..n])| && j == ApplyAll(i, rs[..n])
            case None => forall n | 0 <= n <= |rs| :: k != |PutAll(rs[..n])|
    decreases |rs|, 0
  {
    hide ReadRec, ApplyRec, PutRec, RecOK;
    var p, q := PutRec(rs[0]), PutAll(rs[1..]);
    assert rs[0] in rs;
    SnapshotLevels(rs[0]);
    CutConcat(p, q, k);
    var i1, m := ApplyRec(i, rs[0]), k - |p|;
    assert PutAll(rs)[..k] == p + q[..m];
    RecBack(rs[0], q[..m]);
    ReplayTruncated(rs[1..], i1, m);
    assert Replay(PutAll(rs)[..k], i) == Replay(q[..m], i1);
    forall n | 0 < n <= |rs|
      ensures |PutAll(rs[..n])| == |p| + |PutAll(rs[1..][..n - 1])|
      ensures ApplyAll(i, rs[..n]) == ApplyAll(i1, rs[1..][..n - 1])
    {
      PutAllSplit(rs, n);
      assert rs[..n][1..] == rs[1..][..n - 1];
    }
    match Replay(q[..m], i1) {
      case Some(j) =>
        var n :| 0 <= n <= |rs[1..]| && m == |PutAll(rs[1..][..n])| && j == ApplyAll(i1, rs[1..][..n]);
        assert k == |PutAll(rs[..n + 1])| && j == ApplyAll(i, rs[..n + 1]);
      case None =>
        forall n | 0 <= n <= |rs| ensures k != |PutAll(rs[..n])| {
          if n > 0 {
            assert m != |PutAll(rs[1..][..n - 1])|;
          } else {
            assert rs[..0] == [];
          }
        }
    }
  }

  // ---------------------------------------------------------------- staged edits

  /** Edits are additions and removals of files, in the order they were made. */
  ghost predicate Edits(ws: seq<Rec>) {
    forall w | w in ws :: RecOK(w) && (w.Add? || w.Del?)
  }

  /** What the edits make of one level. */
  function OnLevel(base: seq<Meta>, ws: seq<Rec>, l: nat): seq<Meta> {
    if ws == [] then base
    else
      var n := |ws| - 1;
      var r := OnLevel(base, ws[..n], l);
      match ws[n]
      case Add(k, m) => if k == l then r + [m] else r
      case Del(k, id) => if k == l then Without(r, id) else r
      case _ => r
  }

  function Removals(ws: seq<Rec>): seq<Rec> {
    if ws == [] then []
    else
      var n := |ws| - 1;
      Removals(ws[..n]) + if ws[n].Del? then [ws[n]] else []
  }

  function Additions(ws: seq<Rec>, l: nat): seq<Meta> {
    if ws == [] then []
    else
      var n := |ws| - 1;
      Additions(ws[..n], l) + if ws[n].Add? && ws[n].level == l then [ws[n].meta] else []
  }

  function AddRecs(l: nat, ms: seq<Meta>): (r: seq<Rec>)
    ensures |r| == |ms| && forall i | 0 <= i < |r| :: r[i] == Add(l, ms[i])
  {
    seq(|ms|, i requires 0 <= i < |ms| => Add(l, ms[i]))
  }

  /** The additions as they are framed: level by level. */
  function AllAdditions(adds: seq<seq<Meta>>): seq<Rec> {
    if adds == [] then []
    else
      var n := |adds| - 1;
      AllAdditions(adds[..n]) + AddRecs(n, adds[n])
  }

  /** Some file is added and then removed again. */
  ghost predicate AddThenDel(ws: seq<Rec>, l: nat) {
    exists i, j | 0 <= i < j < |ws| :: ws[i].Add? && ws[i].level == l && ws[j] == Del(l, ws[i].meta.id)
  }

  lemma {:induction false} WithoutConcat(a: seq<Meta>, b: seq<Meta>, id: nat)
    ensures Without(a + b, id) == Without(a, id) + Without(b, id)
  {
    if b == [] {
      assert a + b == a;
    } else {
      var n := |b| - 1;
      WithoutConcat(a, b[..n], id);
      assert (a + b)[..|a + b| - 1] == a + b[..n];
    }
  }

  lemma {:induction false} WithoutSame(a: seq<Meta>, id: nat)
    ensures |Without(a, id)| <= |a| && (|Without(a, id)| == |a| <==> forall m | m in a :: m.id != id)
    ensures |Without(a, id)| == |a| ==> Without(a, id) == a
  {
    hide Without;
    if forall m | m in a :: m.id != id {
      WithoutNone(a, id);
    } else {
      var i :| 0 <= i < |a| && a[i].id == id;
      WithoutSome(a, id, i);
    }
  }

  lemma {:induction false} WithoutNone(a: seq<Meta>, id: nat)
    requires forall m | m in a :: m.id != id
    ensures Without(a, id) == a
  {
    if a != [] {
      WithoutNone(a[..|a| - 1], id);
      assert a[|a| - 1] in a;
    }
  }

  lemma {:induction false} WithoutSome(a: seq<Meta>, id: nat, i: nat)
    requires i < |a| && a[i].id == id
    ensures |Without(a, id)| < |a|
  {
    var n := |a| - 1;
    if i < n {
      WithoutSome(a[..n], id, i);
    } else {
      WithoutMembers(a[..n], id);
    }
  }

  lemma {:induction false} OnLevelSplit(base: seq<Meta>, ws: seq<Rec>, l: nat)
    ensures OnLevel(base, ws, l) == OnLevel(base, Removals(ws), l) + OnLevel([], ws, l)
  {
    if ws != [] {
      var n := |ws| - 1;
      OnLevelSplit(base, ws[..n], l);
      assert Removals(ws[..n]) + [] == Removals(ws[..n]);
      if ws[n].Del? {
        var rs := Removals(ws[..n]);
        assert (rs + [ws[n]])[..|rs|] == rs;
        WithoutConcat(OnLevel(base, rs, l), OnLevel([], ws[..n], l), ws[n].id);
      }
    }
  }

  lemma {:induction false} OnLevelConcat(base: seq<Meta>, a: seq<Rec>, b: seq<Rec>, l: nat)
    ensures OnLevel(base, a + b, l) == OnLevel(OnLevel(base, a, l), b, l)
  {
    if b == [] {
      assert a + b == a;
    } else {
      var n := |b| - 1;
      OnLevelConcat(base, a, b[..n], l);
      assert (a + b)[..|a + b| - 1] == a + b[..n];
    }
  }

  lemma {:induction false} OnLevelAdds(base: seq<Meta>, k: nat, ms: seq<Meta>, l: nat)
    ensures OnLevel(base, AddRecs(k, ms), l) == if k == l then base + ms else base
  {
    if ms != [] {
      var n := |ms| - 1;
      OnLevelAdds(base, k, ms[..n], l);
      assert AddRecs(k, ms)[..n] == AddRecs(k, ms[..n]);
      assert base + ms[..n] + [ms[n]] == base + ms;
    }
  }

  lemma {:induction false} OnLevelAllAdds(base: seq<Meta>, adds: seq<seq<Meta>>, l: nat)
    ensures OnLevel(base, AllAdditions(adds), l) == if l < |adds| then base + adds[l] else base
  {
    if adds != [] {
      var n := |adds| - 1;
      OnLevelAllAdds(base, adds[..n], l);
      OnLevelConcat(base, AllAdditions(adds[..n]), AddRecs(n, adds[n]), l);
      OnLevelAdds(OnLevel(base, AllAdditions(adds[..n]), l), n, adds[n], l);
    }
  }

  lemma {:induction false} AdditionsFrom(ws: seq<Rec>, l: nat)
    ensures forall m :: m in Additions(ws, l) <==> Add(l, m) in ws
    ensures |OnLevel([], ws, l)| <= |Additions(ws, l)|
  {
    if ws != [] {
      var n := |ws| - 1;
      AdditionsFrom(ws[..n], l);
      assert ws == ws[..n] + [ws[n]];
      if ws[n].Del? {
        WithoutSame(OnLevel([], ws[..n], l), ws[n].id);
      }
    }
  }

  /** The additions of a window survive it exactly when none is removed again. */
  lemma {:induction false} SurvivingAdditions(ws: seq<Rec>, l: nat)
    ensures OnLevel([], ws, l) == Additions(ws, l) <==> !AddThenDel(ws, l)
  {
    if ws != [] {
      var n := |ws| - 1;
      var w, init := ws[n], ws[..n];
      SurvivingAdditions(init, l);
      AdditionsFrom(init, l);
      var live := OnLevel([], init, l);
      if w.Del? && w.level == l {
        WithoutSame(live, w.id);
        assert (exists m :: m in Additions(init, l) && m.id == w.id) || AddThenDel(init, l) <==> AddThenDel(ws, l) by {
          LastDel(ws, l);
        }
      } else {
        LastNotDel(ws, l);
        var adds := Additions(init, l);
        assert adds + [] == adds;
        if w.Add? && w.level == l {
          assert (live + [w.meta])[..|live|] == live && (adds + [w.meta])[..|adds|] == adds;
          assert |live + [w.meta]| == |live| + 1 && |adds + [w.meta]| == |adds| + 1;
        }
      }
    }
  }

  lemma {:induction false} LastDel(ws: seq<Rec>, l: nat)
    requires ws != [] && ws[|ws| - 1].Del? && ws[|ws| - 1].level == l
    ensures var n := |ws| - 1;
            AddThenDel(ws, l) <==>
            AddThenDel(ws[..n], l) || exists m :: m in Additions(ws[..n], l) && m.id == ws[n].id
  {
    hide Additions, OnLevel;
    var n := |ws| - 1;
    var init := ws[..n];
    AdditionsFrom(init, l);
    LastDelBack(ws, l);
    if AddThenDel(ws, l) {
      var i, j :| 0 <= i < j < |ws| && ws[i].Add? && ws[i].level == l && ws[j] == Del(l, ws[i].meta.id);
      if j < n {
        assert init[i] == ws[i] && init[j] == ws[j];
      } else {
        assert init[i] == Add(l, ws[i].meta);
        assert ws[i].meta in Additions(init, l);
      }
    }
  }

  lemma {:induction false} LastDelBack(ws: seq<Rec>, l: nat)
    requires ws != [] && ws[|ws| - 1].Del? && ws[|ws| - 1].level == l
    ensures var n := |ws| - 1;
            AddThenDel(ws[..n], l) || (exists m :: m in Additions(ws[..n], l) && m.id == ws[n].id) ==> AddThenDel(ws, l)
  {
    hide Additions, OnLevel;
    var n := |ws| - 1;
    var init := ws[..n];
    AdditionsFrom(init, l);
    if AddThenDel(init, l) {
      var i, j :| 0 <= i < j < n && init[i].Add? && init[i].level == l && init[j] == Del(l, init[i].meta.id);
      assert ws[i] == init[i] && ws[j] == init[j];
    } else if exists m :: m in Additions(init, l) && m.id == ws[n].id {
      var m :| m in Additions(init, l) && m.id == ws[n].id;
      var i :| 0 <= i < n && init[i] == Add(l, m);
      assert ws[i] == Add(l, m) && ws[n] == Del(l, ws[i].meta.id);
    }
  }

  lemma LastNotDel(ws: seq<Rec>, l: nat)
    requires ws != [] && !(ws[|ws| - 1].Del? && ws[|ws| - 1].level == l)
    ensures AddThenDel(ws, l) <==> AddThenDel(ws[..|ws| - 1], l)
  {
    var init := ws[..|ws| - 1];
    if AddThenDel(ws, l) {
      var i, j :| 0 <= i < j < |ws| && ws[i].Add? && ws[i].level == l && ws[j] == Del(l, ws[i].meta.id);
      assert init[i] == ws[i] && init[j] == ws[j];
    }
    if AddThenDel(init, l) {
      var i, j :| 0 <= i < j < |init| && init[i].Add? && init[i].level == l && init[j] == Del(l, init[i].meta.id);
      assert ws[i] == init[i] && ws[j] == init[j];
    }
  }

  /** Framed with the removals in front, a window means what was done exactly when
      nothing was added and removed again in it. */
  lemma {:induction false} FrameIsWindow(base: seq<Meta>, ws: seq<Rec>, adds: seq<seq<Meta>>, l: nat)
    requires l < |adds| && adds[l] == Additions(ws, l)
    ensures OnLevel(base, Removals(ws) + AllAdditions(adds), l) == OnLevel(base, ws, l) <==> !AddThenDel(ws, l)
  {
    var kept := OnLevel(base, Removals(ws), l);
    OnLevelConcat(base, Removals(ws), AllAdditions(adds), l);
    OnLevelAllAdds(kept, adds, l);
    OnLevelSplit(base, ws, l);
    SurvivingAdditions(ws, l);
    var live := OnLevel([], ws, l);
    assert (kept + adds[l])[|kept|..] == adds[l] && (kept + live)[|kept|..] == live;
  }

  /** A file added and withdrawn in one window comes back when the frame is replayed. */
  lemma WithdrawnComesBack(m: Meta)
    ensures var ws := [Add(0, m), Del(0, m.id)];
            && OnLevel([], ws, 0) == []
            && OnLevel([], Removals(ws) + AllAdditions([Additions(ws, 0)]), 0) == [m]
  {
    var ws := [Add(0, m), Del(0, m.id)];
    var one := [Add(0, m)];
    assert ws[..1] == one && one[..0] == [];
    assert Additions(one[..0], 0) == [] && OnLevel([], one[..0], 0) == [] && Removals(one[..0]) == [];
    assert Additions(one, 0) == Additions(one[..0], 0) + [m];
    assert OnLevel([], one, 0) == OnLevel([], one[..0], 0) + [m];
    assert Removals(one) == Removals(one[..0]) + [];
    assert [m][..0] == [];
    OnLevelConcat([], Removals(ws), AllAdditions([Additions(ws, 0)]), 0);
    OnLevelAllAdds(OnLevel([], Removals(ws), 0), [Additions(ws, 0)], 0);
    assert Removals(ws) == [Del(0, m.id)] && [Del(0, m.id)][..0] == [];
    assert Additions(ws, 0) == [m];
  }

  /** Replay works level by level. */
  lemma {:induction false} ApplyAllLevels(i: Image, rs: seq<Rec>)
    requires |i.files| == NUM_LEVELS && RecsOK(rs) && forall r | r in rs :: !r.Snapshot?
    ensures forall l | 0 <= l < NUM_LEVELS :: ApplyAll(i, rs).files[l] == OnLevel(i.files[l], rs, l)
    decreases |rs|
  {
    hide RecOK, Without;
    if rs != [] {
      assert rs[0] in rs && RecOK(rs[0]);
      var i1 := ApplyRec(i, rs[0]);
      ApplyAllLevels(i1, rs[1..]);
      assert rs == [rs[0]] + rs[1..];
      forall l | 0 <= l < NUM_LEVELS ensures ApplyAll(i, rs).files[l] == OnLevel(i.files[l], rs, l) {
        OnLevelConcat(i.files[l], [rs[0]], rs[1..], l);
        OneOnLevel(i.files[l], rs[0], l);
      }
    }
  }

  lemma {:induction false} OneOnLevel(base: seq<Meta>, r: Rec, l: nat)
    ensures OnLevel(base, [r], l) == match r
                                     case Add(k, m) => if k == l then base + [m] else base
                                     case Del(k, id) => if k == l then Without(base, id) else base
                                     case _ => base
  {
    assert [r][..0] == [];
  }

  // ---------------------------------------------------------------- the manifest

  function LiveFiles(files: seq<seq<Meta>>): nat {
    if files == [] then 0 else LiveFiles(files[..|files| - 1]) + |files[|files| - 1]|
  }

  /** Appended records before the log is folded back into a snapshot: a quarter of the live
      files, within bounds. */
  function FoldThreshold(files: seq<seq<Meta>>): (n: nat)
    ensures 64 <= n <= 1048576
    ensures (n > 64 ==> 4 * n <= LiveFiles(files)) && (n < 1048576 ==> LiveFiles(files) < 4 * n + 4)
  {
    var scaled := LiveFiles(files) / 4;
    var threshold := if scaled > 64 then scaled else 64;
    if threshold > 1048576 then 1048576 else threshold
  }

  /** The records of one append: counters, removals, additions by level. */
  function Frame(i: Image, dels: seq<Rec>, adds: seq<seq<Meta>>): seq<Rec> {
    [Counters(i.lastSeq, i.flushedSeq, i.nextId)] + dels + AllAdditions(adds)
  }

  lemma {:induction false} PutAllConcat(a: seq<Rec>, b: seq<Rec>)
    ensures PutAll(a + b) == PutAll(a) + PutAll(b)
  {
    hide PutRec;
    if a == [] {
      assert a + b == b;
    } else {
      PutAllConcat(a[1..], b);
      assert (a + b)[1..] == a[1..] + b && (a + b)[0] == a[0];
      Joined(PutRec(a[0]), PutAll(a[1..]), PutAll(b));
    }
  }

  lemma {:induction false} ApplyAllConcat(i: Image, a: seq<Rec>, b: seq<Rec>)
    requires |i.files| == NUM_LEVELS && RecsOK(a) && RecsOK(b)
    ensures RecsOK(a + b) && ApplyAll(i, a + b) == ApplyAll(ApplyAll(i, a), b)
    decreases |a|
  {
    hide RecOK, ApplyRec;
    if a == [] {
      assert a + b == b;
    } else {
      SnapshotLevels(a[0]);
      ApplyAllConcat(ApplyRec(i, a[0]), a[1..], b);
      assert (a + b)[1..] == a[1..] + b;
    }
  }

  lemma {:induction false} RemovalsOK(ws: seq<Rec>)
    requires Edits(ws)
    ensures Edits(Removals(ws))
  {
    if ws != [] {
      RemovalsOK(ws[..|ws| - 1]);
      assert ws[|ws| - 1] in ws;
    }
  }

  lemma {:induction false} AllAdditionsOK(adds: seq<seq<Meta>>)
    requires |adds| <= NUM_LEVELS && forall l, m | 0 <= l < |adds| && m in adds[l] :: MetaOK(m)
    ensures Edits(AllAdditions(adds))
  {
    if adds != [] {
      var n := |adds| - 1;
      AllAdditionsOK(adds[..n]);
      forall r | r in AddRecs(n, adds[n]) ensures RecOK(r) && r.Add? {
        var i :| 0 <= i < |adds[n]| && AddRecs(n, adds[n])[i] == r;
        assert adds[n][i] in adds[n];
      }
    }
  }

  /** What one append does to the replayed image. */
  lemma {:induction false} FrameReplayed(base: Image, image: Image, ws: seq<Rec>, adds: seq<seq<Meta>>)
    requires |base.files| == NUM_LEVELS && ImageOK(image) && Edits(ws) && |adds| == NUM_LEVELS
    requires forall l | 0 <= l < NUM_LEVELS :: adds[l] == Additions(ws, l) && image.files[l] == OnLevel(base.files[l], ws, l)
    ensures RecsOK(Frame(image, Removals(ws), adds))
    ensures ApplyAll(base, Frame(image, Removals(ws), adds)) == image
            <==> Replayable(ws)
  {
    hide RecOK, MetaOK, ImageOK, OnLevel, AddThenDel, AllAdditions, Removals, Additions;
    var edits := Removals(ws) + AllAdditions(adds);
    RemovalsOK(ws);
    forall l, m | 0 <= l < NUM_LEVELS && m in adds[l] ensures MetaOK(m) {
      AdditionsFrom(ws, l);
      AddedOK(ws, l, m);
    }
    AllAdditionsOK(adds);
    var head := Counters(image.lastSeq, image.flushedSeq, image.nextId);
    HeadOK(image);
    assert Frame(image, Removals(ws), adds) == [head] + edits;
    assert Frame(image, Removals(ws), adds)[1..] == edits;
    var base1 := ApplyRec(base, head);
    ApplyAllLevels(base1, edits);
    CountersKept(base1, edits);
    var got := ApplyAll(base1, edits);
    forall l | 0 <= l < NUM_LEVELS ensures got.files[l] == image.files[l] <==> !AddThenDel(ws, l) {
      FrameIsWindow(base.files[l], ws, adds, l);
    }
    assert got.files == image.files <==> forall l | 0 <= l < NUM_LEVELS :: got.files[l] == image.files[l];
  }

  lemma HeadOK(i: Image)
    requires ImageOK(i)
    ensures RecOK(Counters(i.lastSeq, i.flushedSeq, i.nextId)) && |i.files| == NUM_LEVELS
  {
  }

  lemma AddedOK(ws: seq<Rec>, l: nat, m: Meta)
    requires Edits(ws) && Add(l, m) in ws
    ensures MetaOK(m)
  {
  }

  lemma {:induction false} CountersKept(i: Image, rs: seq<Rec>)
    requires |i.files| == NUM_LEVELS && Edits(rs)
    ensures RecsOK(rs)
    ensures var j := ApplyAll(i, rs); j.lastSeq == i.lastSeq && j.flushedSeq == i.flushedSeq && j.nextId == i.nextId
    decreases |rs|
  {
    hide RecOK, Without;
    if rs != [] {
      assert rs[0] in rs;
      CountersKept(ApplyRec(i, rs[0]), rs[1..]);
    }
  }

  /** How the disk answers one update. */
  datatype Disk = Disk(appendOk: bool, appended: nat, foldOk: bool, snapshotOk: bool)

  /** The file is a whole log of this image. */
  ghost predicate Sound(file: Bytes, base: Image) {
    exists log :: RecsOK(log) && file == PutAll(log) && ApplyAll(EMPTY, log) == base
  }

  /** The staged edits lead from the base to the live image. */
  ghost predicate Leads(base: Image, ws: seq<Rec>, dels: seq<Rec>, adds: seq<seq<Meta>>, image: Image) {
    ImageOK(image) && |base.files| == NUM_LEVELS && Edits(ws) && |adds| == NUM_LEVELS && dels == Removals(ws)
    && forall l | 0 <= l < NUM_LEVELS ::
         adds[l] == Additions(ws, l) && image.files[l] == OnLevel(base.files[l], ws, l)
  }

  lemma LeadsAdd(base: Image, ws: seq<Rec>, dels: seq<Rec>, adds: seq<seq<Meta>>, image: Image, l: nat, m: Meta)
    requires Leads(base, ws, dels, adds, image) && l < NUM_LEVELS && MetaOK(m) && |image.files[l]| + 1 < Pow(4)
    ensures Leads(base, ws + [Add(l, m)], dels, adds[l := adds[l] + [m]],
                  image.(files := image.files[l := image.files[l] + [m]]))
  {
    hide MetaOK, Pow, OnLevel, Removals, Additions;
    WindowNext(ws, Add(l, m), base.files, l);
    assert Removals(ws) + [] == Removals(ws);
  }

  lemma {:induction false} LeadsDel(base: Image, ws: seq<Rec>, dels: seq<Rec>, adds: seq<seq<Meta>>, image: Image, l: nat, id: nat)
    requires Leads(base, ws, dels, adds, image) && l < NUM_LEVELS && id < Pow(8)
    ensures Leads(base, ws + [Del(l, id)], dels + [Del(l, id)], adds,
                  image.(files := image.files[l := Without(image.files[l], id)]))
  {
    hide MetaOK, Pow, OnLevel, Removals, Additions, Without;
    WindowNext(ws, Del(l, id), base.files, l);
    WithoutMembers(image.files[l], id);
  }

  lemma LeadsShape(base: Image, ws: seq<Rec>, dels: seq<Rec>, adds: seq<seq<Meta>>, image: Image)
    requires Leads(base, ws, dels, adds, image)
    ensures |image.files| == NUM_LEVELS && |adds| == NUM_LEVELS && ImageOK(image)
  {
  }

  lemma LeadsFresh(image: Image, adds: seq<seq<Meta>>)
    requires ImageOK(image) && adds == [[], [], [], [], [], [], []]
    ensures Leads(image, [], [], adds, image)
  {
    hide ImageOK;
    HeadOK(image);
    FreshWindow(image.files, adds);
  }

  lemma LeadsCounters(base: Image, ws: seq<Rec>, dels: seq<Rec>, adds: seq<seq<Meta>>, image: Image, image': Image)
    requires Leads(base, ws, dels, adds, image) && image'.files == image.files
    requires image'.lastSeq < Pow(8) && image'.flushedSeq < Pow(8) && image'.nextId < Pow(8)
    ensures Leads(base, ws, dels, adds, image')
  {
  }

  lemma {:induction false} LeadsFrame(base: Image, ws: seq<Rec>, dels: seq<Rec>, adds: seq<seq<Meta>>, image: Image)
    requires Leads(base, ws, dels, adds, image)
    ensures |base.files| == NUM_LEVELS && RecsOK(Frame(image, dels, adds))
    ensures ApplyAll(base, Frame(image, dels, adds)) == image <==> Replayable(ws)
  {
    hide Frame, Replayable, ApplyAll, RecsOK, OnLevel, Removals, Additions, Edits;
    FrameReplayed(base, image, ws, adds);
  }

  /** The file after an append, and what it replays to. */
  lemma {:induction false} AppendedFrame(file: Bytes, base: Image, ws: seq<Rec>, dels: seq<Rec>, adds: seq<seq<Meta>>, image: Image)
    requires Sound(file, base) && Leads(base, ws, dels, adds, image)
    ensures |base.files| == NUM_LEVELS && RecsOK(Frame(image, dels, adds))
    ensures var file' := file + PutAll(Frame(image, dels, adds));
            && Sound(file', ApplyAll(base, Frame(image, dels, adds)))
            && (Reload(file') == Some(image) <==> Replayable(ws))
            && (ApplyAll(base, Frame(image, dels, adds)) == image <==> Replayable(ws))
  {
    hide ImageOK, RecsOK, ApplyAll, PutAll, Replay, Frame, Replayable, Leads;
    var frame := Frame(image, dels, adds);
    LeadsFrame(base, ws, dels, adds, image);
    var log :| RecsOK(log) && file == PutAll(log) && ApplyAll(EMPTY, log) == base;
    Appended(log, frame);
    assert RecsOK(log + frame);
  }

  class Manifest {
    var image: Image
    var dels: seq<Rec>              // pending_removals_
    var adds: seq<seq<Meta>>        // pending_adds_
    var appended: nat
    var written: bool
    var dirty: bool
    var file: Bytes                 // the MANIFEST behind its magic

    ghost var base: Image           // what the file replays to while it is sound
    ghost var window: seq<Rec>      // the edits since then, in order

    ghost predicate Staged()
      reads this
    {
      Leads(base, window, dels, adds, image)
    }

    ghost predicate Valid()
      reads this
    {
      Staged() && (written && !dirty ==> Sound(file, base))
    }

    constructor ()
      ensures Valid() && image == EMPTY && !written && !dirty && appended == 0 && file == [] && window == []
    {
      image, base, dels, window := EMPTY, EMPTY, [], [];
      adds := [[], [], [], [], [], [], []];
      appended, written, dirty, file := 0, false, false, [];
      new;
      EmptyOK();
      LeadsFresh(EMPTY, adds);
    }

    method AddFile(level: int, m: Meta)
      requires Valid() && MetaOK(m)
      requires |image.files| == NUM_LEVELS && (0 <= level < NUM_LEVELS ==> |image.files[level]| + 1 < Pow(4))
      modifies this
      ensures Valid() && base == old(base) && file == old(file) && written == old(written) && dirty == old(dirty)
      ensures if 0 <= level < NUM_LEVELS
              then window == old(window) + [Add(level, m)]
                   && image == old(image).(files := old(image.files)[level := old(image.files[level]) + [m]])
              else window == old(window) && image == old(image)
    {
      if level < 0 || level >= NUM_LEVELS {
        return;
      }
      hide MetaOK, Pow, Leads, Sound;
      LeadsShape(base, window, dels, adds, image);
      LeadsAdd(base, window, dels, adds, image, level, m);
      image := image.(files := image.files[level := image.files[level] + [m]]);
      adds := adds[level := adds[level] + [m]];
      window := window + [Add(level, m)];
    }

    method RemoveFile(level: int, id: nat)
      requires Valid() && id < Pow(8) && |image.files| == NUM_LEVELS
      modifies this
      ensures Valid() && base == old(base) && file == old(file) && written == old(written) && dirty == old(dirty)
      ensures if 0 <= level < NUM_LEVELS
              then window == old(window) + [Del(level, id)]
                   && image == old(image).(files := old(image.files)[level := Without(old(image.files[level]), id)])
              else window == old(window) && image == old(image)
    {
      if level < 0 || level >= NUM_LEVELS {
        return;
      }
      hide MetaOK, Pow, Without, Leads, Sound;
      LeadsShape(base, window, dels, adds, image);
      LeadsDel(base, window, dels, adds, image, level, id);
      image := image.(files := image.files[level := Without(image.files[level], id)]);
      dels := dels + [Del(level, id)];
      window := window + [Del(level, id)];
    }

    /** WriteToFile: a new file with one snapshot, renamed over the old one. */
    method WriteToFile(ok: bool)
      requires Staged()
      modifies this
      ensures Staged() && image == old(image)
      ensures if ok then Valid() && written && !dirty && Reload(file) == Some(image) && window == [] && appended == 0
              else file == old(file) && written == old(written) && dirty == old(dirty)
                   && window == old(window) && base == old(base)
    {
      if !ok {
        return;
      }
      hide ImageOK, PutAll, Replay, Leads, RecsOK, ApplyAll;
      LeadsShape(base, window, dels, adds, image);
      SnapshotLog(image);
      file := PutAll([Snapshot(image)]);
      dels, adds, appended := [], [[], [], [], [], [], [], []], 0;
      written, dirty := true, false;
      base, window := image, [];
      LeadsFresh(image, adds);
      assert RecsOK([Snapshot(image)]);
    }

    /** Whether the next update writes a snapshot. */
    ghost predicate Folds()
      reads this
    {
      !written || dirty || appended >= FoldThreshold(image.files)
    }

    /** AppendChanges: fold when the log is long, else append one frame; a failed
        append may leave part of it in the file. */
    method AppendChanges(io: Disk) returns (ok: bool)
      requires Valid() && written && !dirty
      modifies this
      ensures image == old(image) && written && !dirty && ok == if old(Folds()) then io.foldOk else io.appendOk
      ensures !ok ==> Staged() && window == old(window)
      ensures !ok ==> var frame := PutAll(Frame(image, old(dels), old(adds)));
                      file == old(file) + if old(Folds()) then [] else frame[..if io.appended < |frame| then io.appended else |frame|]
      ensures ok ==> appended == if old(Folds()) then 0 else old(appended) + 1
      ensures ok ==> (Reload(file) == Some(image) <==> old(Folds()) || Replayable(old(window)))
      ensures ok && Reload(file) == Some(image) ==> Valid() && window == []
    {
      hide ImageOK, RecsOK, ApplyAll, PutAll, Reload, Frame, Replayable, Leads, FoldThreshold, Sound;
      if appended >= FoldThreshold(image.files) {
        WriteToFile(io.foldOk);
        return io.foldOk;
      }
      LeadsShape(base, window, dels, adds, image);
      AppendedFrame(file, base, window, dels, adds, image);
      var frame := PutAll(Frame(image, dels, adds));
      if !io.appendOk {
        file := file + frame[..if io.appended < |frame| then io.appended else |frame|];
        return false;
      }
      file := file + frame;
      base, window := ApplyAll(base, Frame(image, dels, adds)), [];
      dels, adds, appended := [], [[], [], [], [], [], [], []], appended + 1;
      LeadsFresh(image, adds);
      ok := true;
    }

    /** UpdateManifest. After a failed update the next one that succeeds is a snapshot,
        so an addition withdrawn in between does not come back. */
    method UpdateManifest(lastSeq: nat, flushedSeq: nat, nextId: nat, io: Disk) returns (ok: bool)
      requires Valid() && lastSeq < Pow(8) && flushedSeq < Pow(8) && nextId < Pow(8)
      modifies this
      ensures image == old(image).(lastSeq := lastSeq, flushedSeq := flushedSeq, nextId := nextId)
      ensures ok <==> io.snapshotOk || (old(written) && !old(dirty) && if old(Folds()) then io.foldOk else io.appendOk)
      ensures !ok ==> Valid() && Folds() && window == old(window) && old(file) <= file
      ensures ok ==> (Reload(file) == Some(image) <==> old(Folds()) || !io.appendOk || Replayable(old(window)))
      ensures ok && Reload(file) == Some(image) ==> Valid() && written && !dirty && window == []
    {
      hide Leads, Sound, Reload, Replayable, Pow, FoldThreshold;
      LeadsCounters(base, window, dels, adds, image,
                    image.(lastSeq := lastSeq, flushedSeq := flushedSeq, nextId := nextId));
      image := image.(lastSeq := lastSeq, flushedSeq := flushedSeq, nextId := nextId);
      if !written || dirty {
        WriteToFile(io.snapshotOk);
        return io.snapshotOk;
      }
      ok := AppendChanges(io);
      if !ok {
        dirty := true;
        WriteToFile(io.snapshotOk);
        ok := io.snapshotOk;
      }
    }
  }

  ghost predicate Replayable(ws: seq<Rec>) {
    forall l | 0 <= l < NUM_LEVELS :: !AddThenDel(ws, l)
  }

  lemma FreshWindow(files: seq<seq<Meta>>, adds: seq<seq<Meta>>)
    requires adds == [[], [], [], [], [], [], []] && |files| == NUM_LEVELS
    ensures Removals([]) == [] && |adds| == NUM_LEVELS
    ensures forall l | 0 <= l < NUM_LEVELS :: adds[l] == Additions([], l) && OnLevel(files[l], [], l) == files[l]
  {
  }

  lemma {:induction false} Appended(log: seq<Rec>, frame: seq<Rec>)
    requires RecsOK(log) && RecsOK(frame)
    ensures RecsOK(log + frame) && PutAll(log + frame) == PutAll(log) + PutAll(frame)
    ensures ApplyAll(EMPTY, log + frame) == ApplyAll(ApplyAll(EMPTY, log), frame)
    ensures Replay(PutAll(log + frame), EMPTY) == Some(ApplyAll(EMPTY, log + frame))
  {
    hide RecOK, PutAll, ApplyAll, Replay;
    PutAllConcat(log, frame);
    ApplyAllConcat(EMPTY, log, frame);
    ReplayWritten(log + frame, EMPTY);
  }

  lemma EmptyOK()
    ensures ImageOK(EMPTY) && forall l | 0 <= l < NUM_LEVELS :: EMPTY.files[l] == []
  {
    SmallFits(1, 8);
    SmallFits(0, 4);
  }

  lemma {:induction false} WindowNext(ws: seq<Rec>, w: Rec, base: seq<seq<Meta>>, level: nat)
    requires (w.Add? || w.Del?) && w.level == level && |base| == NUM_LEVELS
    ensures Removals(ws + [w]) == Removals(ws) + if w.Del? then [w] else []
    ensures forall l: nat :: Additions(ws + [w], l) == if w.Add? && l == level then Additions(ws, l) + [w.meta] else Additions(ws, l)
    ensures forall l | 0 <= l < NUM_LEVELS && l != level :: OnLevel(base[l], ws + [w], l) == OnLevel(base[l], ws, l)
    ensures level < NUM_LEVELS ==>
              OnLevel(base[level], ws + [w], level)
              == if w.Add? then OnLevel(base[level], ws, level) + [w.meta]
                 else Without(OnLevel(base[level], ws, level), w.id)
  {
    assert (ws + [w])[..|ws|] == ws;
    assert forall l: nat :: Additions(ws, l) + [] == Additions(ws, l);
  }

  lemma {:induction false} WithoutMembers(ms: seq<Meta>, id: nat)
    ensures |Without(ms, id)| <= |ms| && forall m | m in Without(ms, id) :: m in ms
  {
    if ms != [] {
      WithoutMembers(ms[..|ms| - 1], id);
    }
  }

  lemma SnapshotLog(i: Image)
    requires ImageOK(i)
    ensures var log := [Snapshot(i)];
            RecsOK(log) && ApplyAll(EMPTY, log) == i && Replay(PutAll(log), EMPTY) == Some(i)
  {
    hide PutRec, ImageOK;
    var log := [Snapshot(i)];
    assert RecOK(log[0]);
    assert |EMPTY.files| == NUM_LEVELS;
    ReplayWritten(log, EMPTY);
    assert log[1..] == [];
  }
}
