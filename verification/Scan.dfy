/** MergingIterator: ordered scans over memtables and tables at a snapshot. */
module Scan {
  import opened Bytes
  import opened Versions
  import opened History
  import opened MemTables
  import opened VersionSet

  /** One source: its entries in table order and how far it has been read. */
  datatype Cursor = Cursor(entries: seq<Version>, pos: nat, recency: int) {
    predicate Live() {
      pos < |entries|
    }
    function Head(): Version
      requires Live()
    {
      entries[pos]
    }
  }

  ghost predicate CursorsOK(ss: seq<Cursor>) {
    forall i | 0 <= i < |ss| :: ss[i].pos <= |ss[i].entries| && Sorted(ss[i].entries)
  }

  ghost function AllOf(ss: seq<Cursor>): set<Version> {
    set i, v | 0 <= i < |ss| && v in ss[i].entries :: v
  }

  ghost function RestOf(ss: seq<Cursor>): set<Version> {
    set i, v | 0 <= i < |ss| && ss[i].pos <= |ss[i].entries| && v in ss[i].entries[ss[i].pos..] :: v
  }

  ghost predicate SameSources(a: seq<Cursor>, b: seq<Cursor>) {
    |a| == |b| && forall i | 0 <= i < |a| :: a[i].entries == b[i].entries && a[i].recency == b[i].recency
  }

  predicate IsMarker(k: Bytes) {
    |k| >= 4 && k[..4] == MARKER
  }

  /** A reader at snapshot `s` may see `v`: the newest visible version of its key, a
      value, not hidden by a range tombstone. */
  ghost predicate Readable(v: Version, all: set<Version>, tombs: seq<Tomb>, s: nat) {
    IsNewest(v, all, v.key, s) && v.kind == Value && !IsMarker(v.key) && !Hidden(tombs, v.key, v.seqno, s)
  }

  /** The keys a positioning call asks for: from `lo` on, or past it. */
  predicate Reached(k: Bytes, lo: Bytes, past: bool) {
    if past then Less(lo, k) else LessEq(lo, k)
  }

  /** `cur` stands on the least readable key that was asked for. */
  ghost predicate Positioned(cur: Option<Version>, all: set<Version>, tombs: seq<Tomb>, s: nat, lo: Bytes, past: bool) {
    match cur
    case None => forall v: Version :: !(Reached(v.key, lo, past) && Readable(v, all, tombs, s))
    case Some(c) =>
      && Reached(c.key, lo, past) && Readable(c, all, tombs, s)
      && forall v: Version | Reached(v.key, lo, past) && Readable(v, all, tombs, s) :: LessEq(c.key, v.key)
  }

  /** What was read past: newer than the snapshot, or a whole key nobody may see. */
  ghost predicate Consumed(all: set<Version>, rest: set<Version>, tombs: seq<Tomb>, s: nat, lo: Bytes, past: bool) {
    && rest <= all && (forall v | v in rest :: Reached(v.key, lo, past))
    && forall v | v in all && v !in rest && v.seqno <= s && Reached(v.key, lo, past) ::
         !Readable(v, all, tombs, s) && forall w | w in rest :: w.key != v.key
  }

  ghost predicate AtFront(v: Version, rest: set<Version>) {
    v in rest && forall w | w in rest :: !Before(w, v)
  }

  // ---------------------------------------------------------------- sources

  predicate Ahead(a: Version, b: Version, ra: int, rb: int) {
    Before(a, b) || (a.key == b.key && a.seqno == b.seqno && ra > rb)
  }

  /** The source with the least head: key, then newer version, then newer file. */
  method FindMinimum(ss: seq<Cursor>) returns (best: int)
    ensures -1 <= best < |ss|
    ensures best < 0 ==> forall i | 0 <= i < |ss| :: !ss[i].Live()
    ensures best >= 0 ==> ss[best].Live() && forall i | 0 <= i < |ss| && ss[i].Live() ::
                            !Ahead(ss[i].Head(), ss[best].Head(), ss[i].recency, ss[best].recency)
  {
    hide Less;
    TotalOrder();
    best := -1;
    for i := 0 to |ss|
      invariant -1 <= best < i
      invariant best < 0 ==> forall j | 0 <= j < i :: !ss[j].Live()
      invariant best >= 0 ==> ss[best].Live() && forall j | 0 <= j < i && ss[j].Live() ::
                                !Ahead(ss[j].Head(), ss[best].Head(), ss[j].recency, ss[best].recency)
    {
      if ss[i].Live() {
        if best < 0 || Ahead(ss[i].Head(), ss[best].Head(), ss[i].recency, ss[best].recency) {
          best := i;
        }
      }
    }
  }

  /** A least head is before everything that is left. */
  lemma LeastHead(ss: seq<Cursor>, best: nat)
    requires CursorsOK(ss) && best < |ss| && ss[best].Live()
    requires forall i | 0 <= i < |ss| && ss[i].Live() :: !Before(ss[i].Head(), ss[best].Head())
    ensures AtFront(ss[best].Head(), RestOf(ss))
  {
    hide Less;
    TotalOrder();
    assert ss[best].Head() in ss[best].entries[ss[best].pos..];
    forall w | w in RestOf(ss) ensures !Before(w, ss[best].Head()) {
      var i :| 0 <= i < |ss| && w in ss[i].entries[ss[i].pos..];
      var j :| 0 <= j < |ss[i].entries| - ss[i].pos && ss[i].entries[ss[i].pos..][j] == w;
      assert ss[i].entries[ss[i].pos + j] == w && ss[i].Live();
      assert j > 0 ==> Before(ss[i].Head(), w);
      assert !Before(ss[i].Head(), ss[best].Head());
    }
  }

  /** Source Seek: the first entry whose key is not below the target. */
  method SeekAll(ss: seq<Cursor>, target: Bytes) returns (r: seq<Cursor>)
    requires CursorsOK(ss)
    ensures CursorsOK(r) && SameSources(ss, r)
    ensures forall v :: v in RestOf(r) <==> v in AllOf(ss) && LessEq(target, v.key)
  {
    r := [];
    for i := 0 to |ss|
      invariant |r| == i && SameSources(ss[..i], r) && CursorsOK(r)
      invariant forall j | 0 <= j < i :: SeekedTo(r[j], target)
    {
      var pos := 0;
      while pos < |ss[i].entries| && Less(ss[i].entries[pos].key, target)
        invariant 0 <= pos <= |ss[i].entries|
        invariant forall j | 0 <= j < pos :: Less(ss[i].entries[j].key, target)
      {
        pos := pos + 1;
      }
      r := r + [ss[i].(pos := pos)];
    }
    assert ss[..|ss|] == ss;
    SeekedRest(ss, r, target);
  }

  ghost predicate SeekedTo(c: Cursor, target: Bytes) {
    && c.pos <= |c.entries|
    && (forall j | 0 <= j < c.pos :: Less(c.entries[j].key, target))
    && (c.Live() ==> LessEq(target, c.Head().key))
  }

  lemma SeekedRest(ss: seq<Cursor>, r: seq<Cursor>, target: Bytes)
    requires CursorsOK(r) && SameSources(ss, r) && forall j | 0 <= j < |r| :: SeekedTo(r[j], target)
    ensures forall v :: v in RestOf(r) <==> v in AllOf(ss) && LessEq(target, v.key)
  {
    hide Less;
    TotalOrder();
    forall i, v | 0 <= i < |r| ensures v in r[i].entries[r[i].pos..] <==> v in r[i].entries && LessEq(target, v.key) {
      var c := r[i];
      if v in c.entries && LessEq(target, v.key) {
        var j :| 0 <= j < |c.entries| && c.entries[j] == v;
        assert j >= c.pos;
        assert c.entries[c.pos..][j - c.pos] == v;
      }
      if v in c.entries[c.pos..] {
        var j :| 0 <= j < |c.entries| - c.pos && c.entries[c.pos..][j] == v;
        assert c.entries[c.pos + j] == v;
        assert j > 0 ==> Before(c.Head(), v);
      }
    }
  }

  /** Every source moves past all its versions of `k`. */
  method SkipKey(ss: seq<Cursor>, k: Bytes) returns (r: seq<Cursor>)
    requires CursorsOK(ss) && forall v | v in RestOf(ss) :: LessEq(k, v.key)
    ensures CursorsOK(r) && SameSources(ss, r) && Left(r) <= Left(ss)
    ensures forall v :: v in RestOf(r) <==> v in RestOf(ss) && v.key != k
    ensures (exists i | 0 <= i < |ss| :: ss[i].Live() && ss[i].Head().key == k) ==> Left(r) < Left(ss)
  {
    r := [];
    for i := 0 to |ss|
      invariant |r| == i && SameSources(ss[..i], r) && CursorsOK(r)
      invariant forall j | 0 <= j < i :: SkippedFrom(ss[j], r[j], k)
    {
      var pos := ss[i].pos;
      while pos < |ss[i].entries| && ss[i].entries[pos].key == k
        invariant ss[i].pos <= pos <= |ss[i].entries|
        invariant forall j | ss[i].pos <= j < pos :: ss[i].entries[j].key == k
      {
        pos := pos + 1;
      }
      r := r + [ss[i].(pos := pos)];
    }
    assert ss[..|ss|] == ss;
    SkippedRest(ss, r, k);
    LeftDrops(ss, r);
    assert forall i | 0 <= i < |ss| && ss[i].Live() && ss[i].Head().key == k :: ss[i].pos < r[i].pos;
  }

  ghost predicate SkippedFrom(a: Cursor, b: Cursor, k: Bytes) {
    && a.entries == b.entries && a.pos <= b.pos <= |b.entries|
    && (forall j | a.pos <= j < b.pos :: a.entries[j].key == k)
    && (b.Live() ==> b.Head().key != k)
  }

  lemma SkippedRest(ss: seq<Cursor>, r: seq<Cursor>, k: Bytes)
    requires CursorsOK(ss) && |ss| == |r| && forall j | 0 <= j < |r| :: SkippedFrom(ss[j], r[j], k)
    requires forall v | v in RestOf(ss) :: LessEq(k, v.key)
    ensures forall v :: v in RestOf(r) <==> v in RestOf(ss) && v.key != k
  {
    hide Less, Sorted, SkippedFrom;
    forall v ensures v in RestOf(r) <==> v in RestOf(ss) && v.key != k {
      if v in RestOf(r) {
        var i :| 0 <= i < |r| && r[i].pos <= |r[i].entries| && v in r[i].entries[r[i].pos..];
        assert forall w | w in ss[i].entries[ss[i].pos..] :: w in RestOf(ss);
        SkippedOne(ss[i], r[i], k, v);
      }
      if v in RestOf(ss) && v.key != k {
        var i :| 0 <= i < |ss| && ss[i].pos <= |ss[i].entries| && v in ss[i].entries[ss[i].pos..];
        assert forall w | w in ss[i].entries[ss[i].pos..] :: w in RestOf(ss);
        SkippedOne(ss[i], r[i], k, v);
      }
    }
  }

  lemma SkippedOne(a: Cursor, b: Cursor, k: Bytes, v: Version)
    requires SkippedFrom(a, b, k) && Sorted(a.entries)
    requires a.pos <= |a.entries| && forall w | w in a.entries[a.pos..] :: LessEq(k, w.key)
    ensures b.pos <= |b.entries|
    ensures v in b.entries[b.pos..] <==> v in a.entries[a.pos..] && v.key != k
  {
    hide Less;
    TotalOrder();
    if v in a.entries[a.pos..] && v.key != k {
      var j :| 0 <= j < |a.entries| - a.pos && a.entries[a.pos..][j] == v;
      assert a.entries[a.pos + j] == v;
      assert a.pos + j >= b.pos;
      assert b.entries[b.pos..][a.pos + j - b.pos] == v;
    }
    if v in b.entries[b.pos..] {
      var j :| 0 <= j < |b.entries| - b.pos && b.entries[b.pos..][j] == v;
      assert b.entries[b.pos + j] == v && a.entries[a.pos..][b.pos + j - a.pos] == v;
      assert a.entries[a.pos..][b.pos - a.pos] == b.Head();
      assert b.Head() in a.entries[a.pos..] && Less(k, b.Head().key);
      assert j > 0 ==> Before(a.entries[b.pos], a.entries[b.pos + j]);
    }
  }

  /** One source drops its head. */
  lemma AdvancedRest(ss: seq<Cursor>, c: nat)
    requires CursorsOK(ss) && c < |ss| && ss[c].Live()
    ensures var r := ss[c := ss[c].(pos := ss[c].pos + 1)];
            && CursorsOK(r) && SameSources(ss, r) && Left(r) < Left(ss)
            && RestOf(r) <= RestOf(ss) <= RestOf(r) + {ss[c].Head()}
  {
    hide Sorted, Left;
    var r := ss[c := ss[c].(pos := ss[c].pos + 1)];
    LeftDrops(ss, r);
    var e, p := ss[c].entries, ss[c].pos;
    assert e[p..] == [e[p]] + e[p + 1..];
    forall v | v in RestOf(ss) ensures v in RestOf(r) || v == e[p] {
      var i :| 0 <= i < |ss| && v in ss[i].entries[ss[i].pos..];
      assert i != c ==> v in r[i].entries[r[i].pos..];
    }
    forall v | v in RestOf(r) ensures v in RestOf(ss) {
      var i :| 0 <= i < |r| && v in r[i].entries[r[i].pos..];
      assert v in ss[i].entries[ss[i].pos..];
    }
  }

  /** How much is left to read. */
  ghost function Left(ss: seq<Cursor>): nat {
    if ss == [] then 0
    else
      var c := ss[|ss| - 1];
      Left(ss[..|ss| - 1]) + if c.pos < |c.entries| then |c.entries| - c.pos else 0
  }

  lemma {:induction false} LeftDrops(a: seq<Cursor>, b: seq<Cursor>)
    requires |a| == |b| && forall i | 0 <= i < |a| :: a[i].entries == b[i].entries && a[i].pos <= b[i].pos <= |b[i].entries|
    ensures Left(b) <= Left(a) && ((exists i | 0 <= i < |a| :: a[i].pos < b[i].pos) ==> Left(b) < Left(a))
  {
    if a != [] {
      var n := |a| - 1;
      LeftDrops(a[..n], b[..n]);
      if exists i | 0 <= i < |a| :: a[i].pos < b[i].pos {
        var i :| 0 <= i < |a| && a[i].pos < b[i].pos;
        assert i < n ==> a[..n][i].pos < b[..n][i].pos;
      }
    }
  }

  // ---------------------------------------------------------------- consumption

  lemma SameAll(a: seq<Cursor>, b: seq<Cursor>)
    requires SameSources(a, b)
    ensures AllOf(a) == AllOf(b)
  {
  }

  lemma SameSelf(a: seq<Cursor>)
    ensures SameSources(a, a)
  {
  }

  lemma SameChain(a: seq<Cursor>, b: seq<Cursor>, c: seq<Cursor>)
    requires SameSources(a, b) && SameSources(b, c)
    ensures SameSources(a, c)
  {
  }

  /** At the front of what is left stands the newest visible version of its key. */
  lemma FrontIsNewest(all: set<Version>, rest: set<Version>, tombs: seq<Tomb>, s: nat, lo: Bytes, past: bool, v: Version)
    requires Consumed(all, rest, tombs, s, lo, past) && AtFront(v, rest) && v.seqno <= s
    ensures IsNewest(v, all, v.key, s)
  {
    forall w | w in all && Visible(w, v.key, s) ensures w.seqno <= v.seqno {
      if w in rest {
        assert !Before(w, v);
      }
    }
  }

  /** A newer version goes alone. */
  lemma DropInvisible(all: set<Version>, rest: set<Version>, rest': set<Version>, tombs: seq<Tomb>, s: nat,
                      lo: Bytes, past: bool, v: Version)
    requires Consumed(all, rest, tombs, s, lo, past) && v.seqno > s
    requires rest' <= rest <= rest' + {v}
    ensures Consumed(all, rest', tombs, s, lo, past)
  {
  }

  /** A key nobody may see goes with all its versions. */
  lemma DropKey(all: set<Version>, rest: set<Version>, rest': set<Version>, tombs: seq<Tomb>, s: nat,
                lo: Bytes, past: bool, v: Version)
    requires Consumed(all, rest, tombs, s, lo, past) && Distinct(all)
    requires v in rest && !Readable(v, all, tombs, s) && IsNewest(v, all, v.key, s)
    requires forall w :: w in rest' <==> w in rest && w.key != v.key
    ensures Consumed(all, rest', tombs, s, lo, past)
  {
    forall w | w in all && w !in rest' && w.seqno <= s && Reached(w.key, lo, past)
      ensures !Readable(w, all, tombs, s) && forall u | u in rest' :: u.key != w.key
    {
      if w in rest && w != v {
        assert w.key == v.key && w.seqno != v.seqno && Visible(w, v.key, s);
      }
    }
  }

  /** Where the skipping stops is where the scan should be. */
  lemma StopHere(all: set<Version>, rest: set<Version>, tombs: seq<Tomb>, s: nat, lo: Bytes, past: bool, v: Version)
    requires Consumed(all, rest, tombs, s, lo, past) && AtFront(v, rest) && Readable(v, all, tombs, s)
    ensures Positioned(Some(v), all, tombs, s, lo, past)
  {
    hide Less;
    TotalOrder();
    forall u: Version | Reached(u.key, lo, past) && Readable(u, all, tombs, s) ensures LessEq(v.key, u.key) {
      assert u in rest;
    }
  }

  /** After the current key was passed, the same holds past it. */
  lemma PassKey(all: set<Version>, rest: set<Version>, rest': set<Version>, tombs: seq<Tomb>, s: nat,
                lo: Bytes, past: bool, v: Version)
    requires Consumed(all, rest, tombs, s, lo, past) && AtFront(v, rest)
    requires forall w :: w in rest' <==> w in rest && w.key != v.key
    ensures Consumed(all, rest', tombs, s, v.key, true)
  {
    hide Less, Readable;
    TotalOrder();
    forall w | w in all && w !in rest' && w.seqno <= s && Reached(w.key, v.key, true)
      ensures !Readable(w, all, tombs, s) && forall u | u in rest' :: u.key != w.key
    {
      assert Reached(v.key, lo, past);
      assert w !in rest;
    }
  }

  /** Markers sort behind every key a client can use. */
  lemma MarkersLast(m: Bytes, k: Bytes)
    requires IsMarker(m) && LessEq(m, k)
    ensures IsMarker(k)
  {
    LessTotal(m, k);
    if m != k {
      var n: nat :| LessAt(m, k, n);
      assert m[0] == 255 && m[1] == 255 && m[2] == 255 && m[3] == 255 by {
        assert m[..4] == MARKER;
      }
      if n < 4 {
        assert false;
      }
      assert k[..4] == m[..4];
    }
  }

  // ---------------------------------------------------------------- the iterator

  lemma FreshConsumed(all: set<Version>, rest: set<Version>, tombs: seq<Tomb>, s: nat, target: Bytes)
    requires forall v :: v in rest <==> v in all && LessEq(target, v.key)
    ensures Consumed(all, rest, tombs, s, target, false)
  {
  }

  lemma EndHere(all: set<Version>, tombs: seq<Tomb>, s: nat, lo: Bytes, past: bool)
    requires Consumed(all, {}, tombs, s, lo, past)
    ensures Positioned(None, all, tombs, s, lo, past)
  {
  }

  /** A tombstone more never makes anything readable. */
  lemma MoreTombs(all: set<Version>, rest: set<Version>, tombs: seq<Tomb>, t: Tomb, s: nat, lo: Bytes, past: bool)
    requires Consumed(all, rest, tombs, s, lo, past)
    ensures Consumed(all, rest, tombs + [t], s, lo, past)
  {
    forall v | v in all && !Readable(v, all, tombs, s) ensures !Readable(v, all, tombs + [t], s) {
      if Hidden(tombs, v.key, v.seqno, s) {
        var i :| 0 <= i < |tombs| && Hides(tombs[i], v.key, v.seqno, s);
        assert (tombs + [t])[i] == tombs[i];
      }
    }
  }

  lemma FrontLeast(rest: set<Version>, v: Version)
    requires AtFront(v, rest)
    ensures v in rest && forall w | w in rest :: LessEq(v.key, w.key)
    ensures IsMarker(v.key) ==> forall w | w in rest :: IsMarker(w.key)
  {
    hide Less, IsMarker;
    TotalOrder();
    if IsMarker(v.key) {
      forall w | w in rest ensures IsMarker(w.key) {
        MarkersLast(v.key, w.key);
      }
    }
  }

  lemma OneReadable(all: set<Version>, tombs: seq<Tomb>, s: nat, v: Version, w: Version)
    requires Distinct(all) && Readable(v, all, tombs, s) && Readable(w, all, tombs, s) && v.key == w.key
    ensures v == w
  {
    assert Visible(v, w.key, s) && Visible(w, v.key, s);
  }

  // ---------------------------------------------------------------- the iterator

  class MergingIterator {
    var sources: seq<Cursor>
    var tombs: seq<Tomb>
    var current: int
    const snap: nat

    ghost const all: set<Version>
    ghost var lo: Bytes
    ghost var past: bool

    ghost predicate Valid()
      reads this
    {
      && CursorsOK(sources) && AllOf(sources) == all && Distinct(all) && -1 <= current < |sources|
      && (current >= 0 ==> sources[current].Live() && AtFront(sources[current].Head(), RestOf(sources))
                           && Consumed(all, RestOf(sources), tombs, snap, lo, past))
    }

    ghost function Current(): Option<Version>
      reads this
    {
      if 0 <= current < |sources| && sources[current].Live() then Some(sources[current].Head()) else None
    }

    constructor (ss: seq<Cursor>, ts: seq<Tomb>, snapshot: nat)
      requires CursorsOK(ss) && Distinct(AllOf(ss))
      ensures Valid() && sources == ss && tombs == ts && snap == snapshot && all == AllOf(ss)
    {
      sources, tombs, current, snap := ss, ts, -1, snapshot;
      all, lo, past := AllOf(ss), [], false;
    }

    /** The sources have moved: the least of them is current. */
    method Settle(rest: seq<Cursor>)
      requires CursorsOK(rest) && AllOf(rest) == all && Distinct(all)
      requires Consumed(all, RestOf(rest), tombs, snap, lo, past)
      modifies this
      ensures Valid() && sources == rest && tombs == old(tombs) && lo == old(lo) && past == old(past)
      ensures current < 0 ==> RestOf(rest) == {}
    {
      hide Consumed, Less, Distinct, AllOf;
      sources := rest;
      current := FindMinimum(rest);
      if current >= 0 {
        LeastHead(rest, current);
      } else {
        assert forall i | 0 <= i < |rest| :: rest[i].entries[rest[i].pos..] == [];
      }
    }

    /** SkipUnreadable: move on until the current entry is one the snapshot may see. */
    method SkipUnreadable()
      requires Valid() && Consumed(all, RestOf(sources), tombs, snap, lo, past)
      requires current < 0 ==> RestOf(sources) == {}
      modifies this
      ensures Valid() && Left(sources) <= old(Left(sources)) && SameSources(old(sources), sources)
      ensures Positioned(Current(), all, old(tombs), snap, lo, past)
      ensures current >= 0 ==> tombs == old(tombs)
      ensures lo == old(lo) && past == old(past)
    {
      hide Less, IsNewest, Distinct, Hidden, Consumed, AllOf, Positioned, RestOf, Sorted, IsMarker, Left, AtFront, CursorsOK, SameSources;
      ghost var ts := tombs;
      SameSelf(sources);
      while current >= 0
        invariant Valid() && lo == old(lo) && past == old(past)
        invariant Left(sources) <= old(Left(sources)) && SameSources(old(sources), sources)
        invariant Consumed(all, RestOf(sources), ts, snap, lo, past)
        invariant tombs == ts || forall w | w in RestOf(sources) :: IsMarker(w.key)
        invariant current < 0 ==> RestOf(sources) == {}
        decreases Left(sources)
      {
        ghost var rest := RestOf(sources);
        var v := sources[current].Head();
        FrontLeast(rest, v);
        if v.seqno > snap {
          AdvancedRest(sources, current);
          var next := sources[current := sources[current].(pos := sources[current].pos + 1)];
          SameAll(sources, next);
          SameChain(old(sources), sources, next);
          DropInvisible(all, rest, RestOf(next), ts, snap, lo, past, v);
          DropInvisible(all, rest, RestOf(next), tombs, snap, lo, past, v);
          Settle(next);
          continue;
        }
        FrontIsNewest(all, rest, ts, snap, lo, past, v);
        if IsMarker(v.key) {
          var next := SkipKey(sources, v.key);
          SameAll(sources, next);
          SameChain(old(sources), sources, next);
          DropKey(all, rest, RestOf(next), ts, snap, lo, past, v);
          DropKey(all, rest, RestOf(next), tombs, snap, lo, past, v);
          var t := Tomb(MarkerBegin(v.key), v.value, v.seqno);
          MoreTombs(all, RestOf(next), tombs, t, snap, lo, past);
          tombs := tombs + [t];
          Settle(next);
          continue;
        }
        var covered := FindHiding(tombs, v.key, v.seqno, snap);
        if v.kind == Deletion || covered {
          var next := SkipKey(sources, v.key);
          SameAll(sources, next);
          SameChain(old(sources), sources, next);
          DropKey(all, rest, RestOf(next), ts, snap, lo, past, v);
          Settle(next);
          continue;
        }
        StopHere(all, rest, ts, snap, lo, past, v);
        return;
      }
      EndHere(all, ts, snap, lo, past);
    }

    /** Seek; SeekToFirst is the seek to the empty key. */
    method Seek(target: Bytes)
      requires Valid()
      modifies this
      ensures Valid() && SameSources(old(sources), sources) && (current >= 0 ==> tombs == old(tombs))
      ensures Positioned(Current(), all, old(tombs), snap, target, false)
    {
      hide Less, Distinct, Consumed, AllOf, Positioned, RestOf, Sorted, Left, AtFront, CursorsOK, SameSources;
      var next := SeekAll(sources, target);
      SameAll(sources, next);
      FreshConsumed(all, RestOf(next), tombs, snap, target);
      lo, past := target, false;
      Settle(next);
      SkipUnreadable();
      SameChain(old(sources), next, sources);
    }

    /** Next: from a readable key to the next one. */
    method Next()
      requires Valid()
      modifies this
      ensures Valid() && SameSources(old(sources), sources) && (current >= 0 ==> tombs == old(tombs))
      ensures old(current) < 0 ==> current == old(current) && tombs == old(tombs)
      ensures old(current) >= 0 ==>
                && Left(sources) < old(Left(sources))
                && Positioned(Current(), all, old(tombs), snap, old(sources[current].Head().key), true)
    {
      if current < 0 {
        SameSelf(sources);
        return;
      }
      hide Less, Distinct, Consumed, AllOf, Positioned, RestOf, Sorted, Left, AtFront, CursorsOK, SameSources;
      var v := sources[current].Head();
      FrontLeast(RestOf(sources), v);
      var next := SkipKey(sources, v.key);
      SameAll(sources, next);
      PassKey(all, RestOf(sources), RestOf(next), tombs, snap, lo, past, v);
      lo, past := v.key, true;
      Settle(next);
      SkipUnreadable();
      SameChain(old(sources), next, sources);
    }

    /** A whole scan: every readable key once, in order, and nothing else. */
    method Collect() returns (out: seq<Version>)
      requires Valid()
      modifies this
      ensures forall v :: v in out <==> Readable(v, all, old(tombs), snap)
      ensures forall i, j | 0 <= i < j < |out| :: Less(out[i].key, out[j].key)
    {
      hide Less, Distinct, Consumed, AllOf, RestOf, Sorted, Left, AtFront, Readable, SameSources, CursorsOK;
      TotalOrder();
      ghost var ts, at, beyond := tombs, [], false;
      out := [];
      Seek([]);
      FromStart(all, ts, snap);
      while current >= 0
        invariant Valid() && (current >= 0 ==> tombs == ts)
        invariant Positioned(Current(), all, ts, snap, at, beyond)
        invariant forall v | v in out :: Readable(v, all, ts, snap) && !Reached(v.key, at, beyond)
        invariant forall v | Readable(v, all, ts, snap) :: v in out || Reached(v.key, at, beyond)
        invariant forall i, j | 0 <= i < j < |out| :: Less(out[i].key, out[j].key)
        decreases Left(sources)
      {
        var v := sources[current].Head();
        Advance(all, ts, snap, at, beyond, v, out);
        out := out + [v];
        at, beyond := v.key, true;
        Next();
      }
    }
  }

  function MarkerBegin(k: Bytes): Bytes
    requires IsMarker(k)
  {
    k[4..]
  }

  lemma FromStart(all: set<Version>, tombs: seq<Tomb>, s: nat)
    ensures forall v | Readable(v, all, tombs, s) :: Reached(v.key, [], false)
  {
    forall v | Readable(v, all, tombs, s) ensures Reached(v.key, [], false) {
      LessTotal([], v.key);
      assert !Less(v.key, []);
    }
  }

  lemma Advance(all: set<Version>, tombs: seq<Tomb>, s: nat, lo: Bytes, past: bool, v: Version, out: seq<Version>)
    requires Distinct(all) && Positioned(Some(v), all, tombs, s, lo, past)
    requires forall w | w in out :: Readable(w, all, tombs, s) && !Reached(w.key, lo, past)
    requires forall w | Readable(w, all, tombs, s) :: w in out || Reached(w.key, lo, past)
    ensures forall w | w in out + [v] :: Readable(w, all, tombs, s) && !Reached(w.key, v.key, true)
    ensures forall w | Readable(w, all, tombs, s) :: w in out + [v] || Reached(w.key, v.key, true)
    ensures forall w | w in out :: Less(w.key, v.key)
  {
    hide Less, Readable, Distinct;
    TotalOrder();
    forall w | Readable(w, all, tombs, s) ensures w in out + [v] || Reached(w.key, v.key, true) {
      if w.key == v.key {
        OneReadable(all, tombs, s, v, w);
      }
    }
  }

  // ---------------------------------------------------------------- scans and point reads

  /** A scan shows a key exactly when a point read finds it, with the same value. */
  lemma {:induction false} ScanIsGet(vs: set<Version>, tombs: seq<Tomb>, hist: seq<Write>, k: Bytes, s: nat)
    requires Faithful(vs, hist) && Complete(vs, hist, s) && TombsOf(tombs, hist)
    requires AllDistinct(hist) && ValidKey(k)
    ensures forall v: Version | v.key == k && Readable(v, vs, tombs, s) :: Outcome(UpTo(hist, s), k) == Some(Unwrap(v.value))
    ensures Outcome(UpTo(hist, s), k).Some? ==> exists v: Version :: v.key == k && Readable(v, vs, tombs, s)
  {
    hide Faithful, Complete, TombsOf, AllDistinct, Hidden;
    forall v: Version | v.key == k && Readable(v, vs, tombs, s) ensures Outcome(UpTo(hist, s), k) == Some(Unwrap(v.value)) {
      AnswerIsOutcome(vs, tombs, hist, k, s, Some(v));
    }
    if NoneVisible(vs, k, s) {
      AnswerIsOutcome(vs, tombs, hist, k, s, None);
    } else {
      var v := NewestOf(vs, k, s);
      AnswerIsOutcome(vs, tombs, hist, k, s, Some(v));
      assert Outcome(UpTo(hist, s), k).Some? ==> Readable(v, vs, tombs, s);
    }
  }

  /** The hiding of a list of tombstones only depends on which ones it holds. */
  lemma SameHiding(a: seq<Tomb>, b: seq<Tomb>, all: set<Version>, s: nat, v: Version)
    requires forall t :: t in a <==> t in b
    ensures Readable(v, all, a, s) <==> Readable(v, all, b, s)
  {
    if Hidden(a, v.key, v.seqno, s) {
      var i :| 0 <= i < |a| && Hides(a[i], v.key, v.seqno, s);
      assert a[i] in b;
    }
    if Hidden(b, v.key, v.seqno, s) {
      var i :| 0 <= i < |b| && Hides(b[i], v.key, v.seqno, s);
      assert b[i] in a;
    }
  }
}
