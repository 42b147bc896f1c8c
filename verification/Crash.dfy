/** The store together with what it leaves on disk: the logs and the levels the MANIFEST
    names. A run, a crash between two operations, a reopening and a read. */
module Crash {
  import opened Bytes
  import opened Versions
  import opened History
  import opened MemTables
  import opened Levels
  import opened VersionSet
  import opened Engine
  import opened Batches
  import opened Database
  import opened Recovery
  import Compaction

  // ---------------------------------------------------------------- logs

  /** A log file: its number, the first sequence number it may hold, and its records. */
  datatype Log = Log(id: nat, from: nat, records: seq<Record>)

  /** The log holds exactly the writes of the history in [from, to), in order. A write
      whose append failed left no record. */
  ghost predicate LogOK(log: Log, hist: seq<Write>, to: nat) {
    && log.from <= to <= |hist|
    && (forall i | 0 <= i < |log.records| :: log.from <= log.records[i].seqno < to && log.records[i].write == hist[log.records[i].seqno])
    && (forall i, j | 0 <= i < j < |log.records| :: log.records[i].seqno < log.records[j].seqno)
    && forall q | log.from <= q < to && hist[q] != [] :: Record(q, hist[q]) in log.records
  }

  /** Everything that is not flushed is in a log. */
  ghost predicate LogsOK(previous: Option<Log>, wal: Log, hist: seq<Write>, immFrom: nat, memFrom: nat) {
    && LogOK(wal, hist, |hist|) && wal.from <= memFrom
    && match previous
       case None => wal.from <= immFrom
       case Some(p) => LogOK(p, hist, wal.from) && p.from <= immFrom && p.id < wal.id
  }

  lemma LogGrows(log: Log, hist: seq<Write>, w: Write)
    requires LogOK(log, hist, |hist|)
    ensures LogOK(if w == [] then log else log.(records := log.records + [Record(|hist|, w)]), hist + [w], |hist| + 1)
  {
    var n, hist' := |hist|, hist + [w];
    var log' := if w == [] then log else log.(records := log.records + [Record(n, w)]);
    forall q | log.from <= q < n + 1 && hist'[q] != [] ensures Record(q, hist'[q]) in log'.records {
      if q < n {
        assert Record(q, hist[q]) in log.records;
      } else {
        assert log'.records[|log.records|] == Record(q, w);
      }
    }
  }

  lemma LogKeeps(log: Log, hist: seq<Write>, w: Write, to: nat)
    requires LogOK(log, hist, to)
    ensures LogOK(log, hist + [w], to)
  {
  }

  lemma LogsGrow(previous: Option<Log>, wal: Log, hist: seq<Write>, immFrom: nat, memFrom: nat, w: Write)
    requires LogsOK(previous, wal, hist, immFrom, memFrom)
    ensures LogsOK(previous, if w == [] then wal else wal.(records := wal.records + [Record(|hist|, w)]), hist + [w], immFrom, memFrom)
  {
    hide LogOK;
    LogGrows(wal, hist, w);
    if previous.Some? {
      LogKeeps(previous.value, hist, w, wal.from);
    }
  }

  // ---------------------------------------------------------------- the levels on disk

  /** The last write to a key, unless it is in a log, is in these tables. */
  ghost predicate CompleteBelow(vs: set<Version>, hist: seq<Write>, immFrom: nat) {
    forall k, q: nat | ValidKey(k) && LastTouch(hist, k, |hist|, q) && q < immFrom :: VersionOf(OpOn(hist[q], k), q) in vs
  }

  /** The markers in the tables are tombstones of the history, and every flushed tombstone
      has left its own or that of a later one from the same key. */
  ghost predicate MarkersOK(vs: set<Version>, tombs: seq<Tomb>, immFrom: nat) {
    && (forall v | v in vs && !ValidKey(v.key) :: exists t :: t in tombs && v == MarkerOf(t))
    && forall t | t in tombs && t.seqno < immFrom :: exists u :: u in tombs && MarkerLeft(t, u, vs)
  }

  ghost predicate MarkerLeft(t: Tomb, u: Tomb, vs: set<Version>) {
    u.begin == t.begin && u.seqno >= t.seqno && MarkerOf(u) in vs
  }

  /** What the tables the MANIFEST names have to hold. */
  ghost predicate TablesOK(vs: set<Version>, hist: seq<Write>, tombs: seq<Tomb>, immFrom: nat) {
    && Faithful(vs, hist) && CompleteBelow(vs, hist, immFrom) && MarkersOK(vs, tombs, immFrom)
    && forall v | v in vs :: v.seqno < immFrom
  }

  lemma TablesKept(vs: set<Version>, hist: seq<Write>, w: Write, tombs: seq<Tomb>, tombs': seq<Tomb>, immFrom: nat)
    requires TablesOK(vs, hist, tombs, immFrom) && immFrom <= |hist|
    requires TombsOf(tombs, hist) && TombsOf(tombs', hist + [w])
    ensures TablesOK(vs, hist + [w], tombs', immFrom) && (MarkersOK(vs, tombs, immFrom) ==> MarkersOK(vs, tombs', immFrom))
  {
    hide VersionOf;
    MarkersKept(vs, hist, w, tombs, tombs', immFrom);
    hide MarkersOK, TombsOf;
    var hist' := hist + [w];
    assert forall q | 0 <= q < |hist| :: hist'[q] == hist[q];
    forall k, q: nat | ValidKey(k) && LastTouch(hist', k, |hist'|, q) && q < immFrom
      ensures VersionOf(OpOn(hist'[q], k), q) in vs
    {
      assert LastTouch(hist, k, |hist|, q);
    }
  }

  lemma MarkersKept(vs: set<Version>, hist: seq<Write>, w: Write, tombs: seq<Tomb>, tombs': seq<Tomb>, immFrom: nat)
    requires MarkersOK(vs, tombs, immFrom) && immFrom <= |hist|
    requires TombsOf(tombs, hist) && TombsOf(tombs', hist + [w])
    ensures MarkersOK(vs, tombs', immFrom)
  {
    hide MarkerOf;
    assert forall t | t in tombs :: t in tombs' by {
      assert forall q | 0 <= q < |hist| :: (hist + [w])[q] == hist[q];
    }
    assert forall t | t in tombs' && t.seqno < immFrom :: t in tombs by {
      assert forall q | 0 <= q < |hist| :: (hist + [w])[q] == hist[q];
    }
    hide TombsOf;
    forall t | t in tombs' && t.seqno < immFrom ensures exists u :: u in tombs' && MarkerLeft(t, u, vs) {
      var u :| u in tombs && MarkerLeft(t, u, vs);
    }
  }

  /** A merge keeps the last marker of every begin key. */
  lemma MarkersThinned(vs: set<Version>, vs': set<Version>, tombs: seq<Tomb>, immFrom: nat)
    requires MarkersOK(vs, tombs, immFrom) && Thinned(vs, vs')
    ensures MarkersOK(vs', tombs, immFrom)
  {
    forall t | t in tombs && t.seqno < immFrom ensures exists u :: u in tombs && MarkerLeft(t, u, vs') {
      var u :| u in tombs && MarkerLeft(t, u, vs);
      var v := MarkerOf(u);
      if v !in vs' {
        var w :| w in vs' && w.key == v.key && w.seqno > v.seqno;
        MarkerKeys(u.begin, []);
        var x :| x in tombs && w == MarkerOf(x);
        MarkerKeys(u.begin, x.begin);
        assert MarkerLeft(t, x, vs');
      }
    }
  }

  /** A flushed memtable leaves the markers of its tombstones. */
  lemma MarkersFlushed(vs: set<Version>, entries: seq<Version>, flushed: seq<Tomb>, tombs: seq<Tomb>, immFrom: nat, memFrom: nat)
    requires MarkersOK(vs, tombs, immFrom) && immFrom <= memFrom
    requires (forall v | v in entries :: ValidKey(v.key)) && (forall t | t in flushed :: t in tombs)
    requires forall t | t in tombs && immFrom <= t.seqno < memFrom :: t in flushed
    ensures MarkersOK(vs + (Elems(entries) + Elems(Markers(flushed))), tombs, memFrom)
  {
    hide MarkerOf;
    var vs' := vs + (Elems(entries) + Elems(Markers(flushed)));
    forall v | v in vs' && !ValidKey(v.key) ensures exists t :: t in tombs && v == MarkerOf(t) {
      if v !in vs {
        var i :| 0 <= i < |flushed| && Markers(flushed)[i] == v;
        assert flushed[i] in tombs;
      }
    }
    forall t | t in tombs && t.seqno < memFrom ensures exists u :: u in tombs && MarkerLeft(t, u, vs') {
      if t.seqno < immFrom {
        var u :| u in tombs && MarkerLeft(t, u, vs);
        assert MarkerLeft(t, u, vs');
      } else {
        var i :| 0 <= i < |flushed| && flushed[i] == t;
        assert Markers(flushed)[i] == MarkerOf(t) && MarkerOf(t) in Markers(flushed);
        assert MarkerLeft(t, t, vs');
      }
    }
  }

  // ---------------------------------------------------------------- what a reopening finds

  /** The records in the order in which a reopening replays them. */
  function ReplayOrder(previous: Option<Log>, wal: Log): seq<Record> {
    match previous
    case None => wal.records
    case Some(p) => if Less(LogName(p.id), LogName(wal.id)) then p.records + wal.records else wal.records + p.records
  }

  predicate NamesInOrder(previous: Option<Log>, wal: Log) {
    previous.None? || Less(LogName(previous.value.id), LogName(wal.id))
  }

  /** With the names in order, the logs are one log of everything that is not flushed. */
  lemma OneLog(previous: Option<Log>, wal: Log, hist: seq<Write>, immFrom: nat, memFrom: nat) returns (whole: Log)
    requires LogsOK(previous, wal, hist, immFrom, memFrom) && NamesInOrder(previous, wal)
    ensures whole.records == ReplayOrder(previous, wal) && LogOK(whole, hist, |hist|) && whole.from <= immFrom
  {
    hide LogName, Less;
    whole := wal;
    if previous.Some? {
      var p := previous.value;
      whole := Log(wal.id, p.from, p.records + wal.records);
      forall q | p.from <= q < |hist| && hist[q] != [] ensures Record(q, hist[q]) in whole.records {
        assert q < wal.from ==> Record(q, hist[q]) in p.records;
        assert q >= wal.from ==> Record(q, hist[q]) in wal.records;
      }
    }
  }

  lemma BootFaithful(log: Log, hist: seq<Write>)
    requires LogOK(log, hist, |hist|) && AllDistinct(hist)
    ensures Faithful(Elems(Boot(log.records)), hist)
  {
    hide KeySorted, Boot;
    BootMembers(log.records);
    forall v | v in Boot(log.records)
      ensures v.seqno < |hist| && Touches(hist[v.seqno], v.key) && v == VersionOf(OpOn(hist[v.seqno], v.key), v.seqno)
    {
      var i, j :| 0 <= i < |log.records| && 0 <= j < |log.records[i].write| && !log.records[i].write[j].DeleteRange?
                  && v == VersionOf(log.records[i].write[j], log.records[i].seqno);
      assert DistinctKeys(hist[v.seqno]);
      OpOnUnique(hist[v.seqno], v.key, j);
    }
  }

  lemma {:induction false} BootHolds(log: Log, hist: seq<Write>, k: Bytes, q: nat)
    requires LogOK(log, hist, |hist|) && log.from <= q < |hist| && Touches(hist[q], k)
    ensures VersionOf(OpOn(hist[q], k), q) in Boot(log.records)
    ensures Record(q, hist[q]) in log.records && LastOn(hist[q], k).Some?
  {
    hide KeySorted, Boot;
    BootMembers(log.records);
    var j :| 0 <= j < |hist[q]| && OnKey(hist[q][j], k) && hist[q][j] == OpOn(hist[q], k);
    var i :| 0 <= i < |log.records| && log.records[i] == Record(q, hist[q]);
    assert VersionOf(log.records[i].write[j], log.records[i].seqno) in Boot(log.records);
  }

  lemma BootComplete(log: Log, hist: seq<Write>, vs: set<Version>, immFrom: nat)
    requires LogOK(log, hist, |hist|) && log.from <= immFrom && CompleteBelow(vs, hist, immFrom)
    ensures Complete(Elems(Boot(log.records)) + vs, hist, |hist|)
  {
    hide LogOK, Boot, VersionOf;
    forall k, q: nat | ValidKey(k) && LastTouch(hist, k, |hist|, q)
      ensures VersionOf(OpOn(hist[q], k), q) in Elems(Boot(log.records)) + vs
    {
      if q >= immFrom {
        BootHolds(log, hist, k, q);
      }
    }
  }

  lemma BootInOrder(log: Log, hist: seq<Write>, vs: set<Version>, k: Bytes)
    requires LogOK(log, hist, |hist|) && Faithful(vs, hist) && ValidKey(k)
    ensures InOrder(log.records, vs, k)
  {
    hide VersionOf;
    var last := LastNaming(log.records, k);
    if last.Some? {
      LastIsLast(log.records, k);
      var n :| 0 <= n < |log.records| && log.records[n] == last.value;
      forall v | v in vs && v.key == k ensures v.seqno <= last.value.seqno {
        if v.seqno >= log.from {
          BootHolds(log, hist, k, v.seqno);
          var i :| 0 <= i < |log.records| && log.records[i] == Record(v.seqno, hist[v.seqno]);
        }
      }
    }
  }

  lemma {:induction false} LastIsLast(rs: seq<Record>, k: Bytes)
    requires (forall i, j | 0 <= i < j < |rs| :: rs[i].seqno < rs[j].seqno) && LastNaming(rs, k).Some?
    ensures forall i | 0 <= i < |rs| && LastOn(rs[i].write, k).Some? :: rs[i].seqno <= LastNaming(rs, k).value.seqno
  {
    hide LastOn;
    var n := |rs| - 1;
    if LastOn(rs[n].write, k).None? {
      LastIsLast(rs[..n], k);
      assert forall i | 0 <= i < n :: rs[..n][i] == rs[i];
    }
  }

  /** The tombstones of the replayed records. */
  function BootTombs(rs: seq<Record>): seq<Tomb> {
    if rs == [] then []
    else
      var n := |rs| - 1;
      BootTombs(rs[..n]) + RangeTombs(rs[n].write, rs[n].seqno)
  }

  lemma {:induction false} BootTombsMembers(rs: seq<Record>)
    ensures forall t :: t in BootTombs(rs) <==>
              exists i | 0 <= i < |rs| :: t.seqno == rs[i].seqno && DeleteRange(t.begin, t.end) in rs[i].write
  {
    if rs != [] {
      var n := |rs| - 1;
      BootTombsMembers(rs[..n]);
      RangeTombsMembers(rs[n].write, rs[n].seqno);
      assert forall i | 0 <= i < n :: rs[..n][i] == rs[i];
      forall t ensures t in BootTombs(rs) <==>
                       exists i | 0 <= i < |rs| :: t.seqno == rs[i].seqno && DeleteRange(t.begin, t.end) in rs[i].write
      {
        if t in BootTombs(rs[..n]) {
          var i :| 0 <= i < n && t.seqno == rs[..n][i].seqno && DeleteRange(t.begin, t.end) in rs[..n][i].write;
          assert t.seqno == rs[i].seqno;
        }
      }
    }
  }

  /** A later range deletion from the same key reaches at least as far. */
  ghost predicate Nested(tombs: seq<Tomb>) {
    forall t, u | t in tombs && u in tombs && t.begin == u.begin && t.seqno < u.seqno :: LessEq(t.end, u.end)
  }

  /** The tombstones a reopening collects: those of the logs and those of the tables. */
  ghost predicate Collected(rebuilt: seq<Tomb>, rs: seq<Record>, vs: set<Version>) {
    forall t :: t in rebuilt <==> t in BootTombs(rs) || exists v :: v in vs && MarkerTomb(v) == Some(t)
  }

  lemma CollectedWithin(rebuilt: seq<Tomb>, log: Log, hist: seq<Write>, vs: set<Version>, tombs: seq<Tomb>, immFrom: nat)
    requires Collected(rebuilt, log.records, vs) && LogOK(log, hist, |hist|) && TombsOf(tombs, hist) && MarkersOK(vs, tombs, immFrom)
    ensures forall t | t in rebuilt :: t in tombs
  {
    hide BootTombs, MarkerOf;
    BootTombsMembers(log.records);
    forall t | t in rebuilt ensures t in tombs {
      if t !in BootTombs(log.records) {
        var v :| v in vs && MarkerTomb(v) == Some(t);
        var u :| u in tombs && v == MarkerOf(u);
        MarkerBack(u);
      }
    }
  }

  /** Where later range deletions reach as far, the collected tombstones are good for all. */
  lemma CollectedReaches(rebuilt: seq<Tomb>, log: Log, hist: seq<Write>, vs: set<Version>, tombs: seq<Tomb>, immFrom: nat)
    requires Collected(rebuilt, log.records, vs) && LogOK(log, hist, |hist|) && log.from <= immFrom
    requires TombsOf(tombs, hist) && MarkersOK(vs, tombs, immFrom) && AllDistinct(hist) && Nested(tombs)
    ensures Outreaches(rebuilt, tombs)
  {
    CollectedWithin(rebuilt, log, hist, vs, tombs, immFrom);
    forall t | t in tombs
      ensures exists u :: u in rebuilt && u.begin == t.begin && u.seqno >= t.seqno && LessEq(t.end, u.end)
    {
      LessIrreflexive(t.end);
      if t.seqno >= log.from {
        TombReplayed(log, hist, tombs, t);
        assert t in rebuilt;
      } else {
        var u :| u in tombs && MarkerLeft(t, u, vs);
        MarkerBack(u);
        assert u in rebuilt;
        SameTomb(hist, tombs, t, u);
      }
    }
  }

  lemma TombReplayed(log: Log, hist: seq<Write>, tombs: seq<Tomb>, t: Tomb)
    requires LogOK(log, hist, |hist|) && TombsOf(tombs, hist) && t in tombs && t.seqno >= log.from
    ensures t in BootTombs(log.records)
  {
    hide BootTombs;
    BootTombsMembers(log.records);
    var i :| 0 <= i < |log.records| && log.records[i] == Record(t.seqno, hist[t.seqno]);
    assert t.seqno == log.records[i].seqno;
  }

  /** A write has one range deletion from a key. */
  lemma SameTomb(hist: seq<Write>, tombs: seq<Tomb>, t: Tomb, u: Tomb)
    requires AllDistinct(hist) && TombsOf(tombs, hist) && t in tombs && u in tombs && t.begin == u.begin
    ensures t.seqno == u.seqno ==> t == u
  {
    if t.seqno == u.seqno {
      var w := hist[t.seqno];
      assert DistinctKeys(w);
      var i :| 0 <= i < |w| && w[i] == DeleteRange(t.begin, t.end);
      var j :| 0 <= j < |w| && w[j] == DeleteRange(u.begin, u.end);
    }
  }

  // ---------------------------------------------------------------- reopening

  /** One record into the memtable, operation by operation. */
  method ReplayRecord(mem: MemTable, r: Record)
    requires KeySorted(mem.entries)
    modifies mem
    ensures KeySorted(mem.entries) && mem.entries == Applied(old(mem.entries), r.write, r.seqno)
    ensures mem.tombs == old(mem.tombs) + RangeTombs(r.write, r.seqno)
  {
    hide KeySorted, Linked;
    var w, q := r.write, r.seqno;
    for i := 0 to |w|
      invariant KeySorted(mem.entries) && mem.entries == Applied(old(mem.entries), w[..i], q)
      invariant mem.tombs == old(mem.tombs) + RangeTombs(w[..i], q)
    {
      assert w[..i + 1][..i] == w[..i];
      if w[i].DeleteRange? {
        mem.InsertRangeDeletion(Tomb(w[i].begin, w[i].end, q));
      } else {
        mem.Insert(VersionOf(w[i], q));
      }
    }
    assert w[..|w|] == w;
  }

  /** Every log into one memtable; the sequence counter ends behind every record. */
  method ReplayLogs(rs: seq<Record>, manifestSeq: nat) returns (mem: MemTable, lastSeq: nat)
    ensures fresh(mem) && KeySorted(mem.entries) && mem.entries == Boot(rs) && mem.tombs == BootTombs(rs)
    ensures manifestSeq <= lastSeq && (forall i | 0 <= i < |rs| :: rs[i].seqno < lastSeq)
    ensures lastSeq == manifestSeq || exists i | 0 <= i < |rs| :: lastSeq == rs[i].seqno + 1
  {
    hide KeySorted, Applied, RangeTombs;
    mem := new MemTable();
    lastSeq := manifestSeq;
    assert KeySorted(mem.entries) by {
      NothingReplayed([], 0);
    }
    for n := 0 to |rs|
      invariant fresh(mem) && KeySorted(mem.entries) && mem.entries == Boot(rs[..n]) && mem.tombs == BootTombs(rs[..n])
      invariant manifestSeq <= lastSeq && (forall i | 0 <= i < n :: rs[i].seqno < lastSeq)
      invariant lastSeq == manifestSeq || exists i | 0 <= i < n :: lastSeq == rs[i].seqno + 1
    {
      assert rs[..n + 1][..n] == rs[..n];
      ReplayRecord(mem, rs[n]);
      if lastSeq < rs[n].seqno + 1 {
        lastSeq := rs[n].seqno + 1;
      }
    }
    assert rs[..|rs|] == rs;
  }

  /** LoadRangeTombstonesFromSSTables, behind those of the logs. */
  method CollectTombs(first: seq<Tomb>, levels: seq<seq<Table>>) returns (r: seq<Tomb>)
    ensures forall t :: t in r <==> t in first || exists v :: v in LevelsSet(levels) && MarkerTomb(v) == Some(t)
    ensures forall t | t in first :: t in r
  {
    hide MarkerTomb, LevelSet, LevelsSet, TombsIn;
    r := first;
    NothingCollected();
    assert levels[..0] == [];
    for l := 0 to |levels|
      invariant forall t :: t in r <==> t in first || exists v :: v in LevelsSet(levels[..l]) && MarkerTomb(v) == Some(t)
    {
      ghost var before := r;
      assert levels[l][..0] == [];
      for i := 0 to |levels[l]|
        invariant forall t :: t in r <==> t in before || exists v :: v in LevelSet(levels[l][..i]) && MarkerTomb(v) == Some(t)
      {
        TombsInMembers(levels[l][i].entries);
        LevelSetSnoc(levels[l], i);
        r := r + TombsIn(levels[l][i].entries);
      }
      assert levels[l][..|levels[l]|] == levels[l];
      LevelsSetNext(levels, l);
    }
    assert levels[..|levels|] == levels;
  }

  lemma NothingCollected()
    ensures LevelSet([]) == {} && LevelsSet([]) == {}
  {
  }

  /** The levels as Initialize rebuilds them from the lists of the MANIFEST. */
  method ReloadLevels(lists: seq<seq<Table>>, ghost named: seq<seq<Table>>) returns (r: seq<seq<Table>>)
    requires |lists| == |named| == NUM_LEVELS
    ensures |r| == NUM_LEVELS && (Ordered(named) && Listed(lists, named) ==> r == named)
  {
    hide LevelSorted, DistinctStarts, Reorders, WellFormed;
    r := [lists[0]];
    for l := 1 to NUM_LEVELS
      invariant |r| == l && (Ordered(named) && Listed(lists, named) ==> r == named[..l])
    {
      var level := Reload(lists[l], named[l]);
      r := r + [level];
    }
    assert named[..NUM_LEVELS] == named;
  }

  /** The MANIFEST lists level 0 in flush order and the files of a deeper level in any
      order; no two of those start with the same key. */
  ghost predicate Listed(lists: seq<seq<Table>>, named: seq<seq<Table>>)
    requires |lists| == |named| == NUM_LEVELS
  {
    lists[0] == named[0] && forall l | 1 <= l < NUM_LEVELS :: Reorders(lists[l], named[l]) && DistinctStarts(named[l])
  }

  // ---------------------------------------------------------------- a read of a reopened store

  lemma {:induction false} AllVisible(t: seq<Version>, k: Bytes, s: nat, s': nat)
    requires forall i | 0 <= i < |t| :: t[i].seqno <= s && t[i].seqno <= s'
    ensures FirstVisible(t, k, s) == FirstVisible(t, k, s')
  {
    if t != [] {
      AllVisible(t[1..], k, s, s');
    }
  }

  lemma AllSeen(best: Option<Version>, vs: set<Version>, k: Bytes, s: nat, s': nat)
    requires BestOf(best, vs, k, s) && forall v | v in vs :: v.seqno <= s && v.seqno <= s'
    ensures BestOf(best, vs, k, s')
  {
  }

  lemma AllHidden(tombs: seq<Tomb>, k: Bytes, version: nat, s: nat, s': nat)
    requires forall t | t in tombs :: t.seqno <= s && t.seqno <= s'
    ensures Hidden(tombs, k, version, s) <==> Hidden(tombs, k, version, s')
  {
    if Hidden(tombs, k, version, s) {
      var i :| 0 <= i < |tombs| && Hides(tombs[i], k, version, s);
      assert tombs[i] in tombs && Hides(tombs[i], k, version, s');
    }
    if Hidden(tombs, k, version, s') {
      var i :| 0 <= i < |tombs| && Hides(tombs[i], k, version, s');
      assert tombs[i] in tombs && Hides(tombs[i], k, version, s);
    }
  }

  /** What a read of the reopened store makes of the version it found is the outcome of the
      history: the counter it restored lies behind everything on disk. */
  lemma {:induction false} ReopenedAnswer(found: Option<Version>, log: Log, vs: set<Version>, rebuilt: seq<Tomb>, tombs: seq<Tomb>,
                       hist: seq<Write>, immFrom: nat, s: nat, k: Bytes)
    requires LogOK(log, hist, |hist|) && log.from <= immFrom <= s <= |hist| && (forall i | 0 <= i < |log.records| :: log.records[i].seqno < s)
    requires TablesOK(vs, hist, tombs, immFrom) && TombsOf(tombs, hist) && AllDistinct(hist) && Nested(tombs)
    requires Collected(rebuilt, log.records, vs) && ValidKey(k) && Finds(found, log.records, vs, k, s)
    ensures Answer(found, rebuilt, k, s) == Outcome(hist, k)
  {
    var n := |hist|;
    assert forall i | 0 <= i < |log.records| :: log.records[i].seqno < n;
    BootSeqs(log.records, s);
    hide LogOK, Boot, CompleteBelow, MarkersOK, TombsOf, AllDistinct, Nested, Outcome, InOrder, Complete, FirstVisible, BestOf, Hidden;
    AllVisible(Boot(log.records), k, s, n);
    if FirstVisible(Boot(log.records), k, s).None? {
      AllSeen(found, vs, k, s, n);
    }
    assert Finds(found, log.records, vs, k, n);
    CollectedSeqs(rebuilt, log, vs, s, immFrom);
    if found.Some? {
      AllHidden(rebuilt, k, found.value.seqno, s, n);
    }
    BootFaithful(log, hist);
    BothFaithful(Elems(Boot(log.records)), vs, hist);
    BootComplete(log, hist, vs, immFrom);
    BootInOrder(log, hist, vs, k);
    CollectedReaches(rebuilt, log, hist, vs, tombs, immFrom);
    ReopenedGet(found, log.records, vs, rebuilt, tombs, hist, k);
  }

  lemma BothFaithful(a: set<Version>, b: set<Version>, hist: seq<Write>)
    requires Faithful(a, hist) && Faithful(b, hist)
    ensures Faithful(a + b, hist)
  {
  }

  lemma {:induction false} BootSeqs(rs: seq<Record>, s: nat)
    requires forall i | 0 <= i < |rs| :: rs[i].seqno < s
    ensures forall i | 0 <= i < |Boot(rs)| :: Boot(rs)[i].seqno < s
  {
    hide Boot, KeySorted;
    BootMembers(rs);
    forall i | 0 <= i < |Boot(rs)| ensures Boot(rs)[i].seqno < s {
      assert Boot(rs)[i] in Boot(rs);
    }
  }

  lemma CollectedSeqs(rebuilt: seq<Tomb>, log: Log, vs: set<Version>, s: nat, immFrom: nat)
    requires Collected(rebuilt, log.records, vs) && immFrom <= s
    requires (forall i | 0 <= i < |log.records| :: log.records[i].seqno < s) && forall v | v in vs :: v.seqno < immFrom
    ensures forall t | t in rebuilt :: t.seqno <= s
  {
    hide BootTombs;
    BootTombsMembers(log.records);
  }

  /** Get on the rebuilt memtable, levels and tombstones. */
  method ReadReopened(mem: MemTable, tombs: seq<Tomb>, levels: seq<seq<Table>>, s: nat, probes: nat, k: Bytes, ghost rs: seq<Record>)
    returns (r: Option<Bytes>, ghost found: Option<Version>)
    requires KeySorted(mem.entries) && mem.entries == Boot(rs) && (forall t | t in mem.tombs :: t in tombs)
    requires |levels| == NUM_LEVELS
    ensures Laid(levels) && (forall v | v in LevelsSet(levels) :: v.seqno <= s) ==> Finds(found, rs, LevelsSet(levels), k, s)
    ensures r == Answer(found, tombs, k, s)
  {
    hide Laid, LevelsSet, KeySorted, Hidden, BestOf, FirstVisible, Boot;
    var m := mem.Find(k, s);
    if m != NotFound {
      found := FirstVisible(mem.entries, k, s);
      HiddenMore(mem.tombs, tombs, k, found.value.seqno, s);
      if m.Deleted? {
        return None, found;
      }
      var hidden := FindHiding(tombs, k, m.seqno, s);
      r := if hidden then None else Some(Unwrap(m.value));
      return;
    }
    var best := SearchLevels(levels, probes, k, s);
    found := best;
    if best.None? || best.value.kind == Deletion {
      return None, found;
    }
    var hidden := FindHiding(tombs, k, best.value.seqno, s);
    r := if hidden then None else Some(Unwrap(best.value.value));
  }

  // ---------------------------------------------------------------- the store and its disk

  lemma DbTables(db: DB)
    requires db.Valid()
    ensures Faithful(LevelsSet(db.levels), db.hist) && CompleteBelow(LevelsSet(db.levels), db.hist, db.immFrom)
    ensures forall v | v in LevelsSet(db.levels) :: v.seqno < db.immFrom
    ensures TombsOf(db.tombs, db.hist) && AllDistinct(db.hist) && db.immFrom <= db.memFrom <= |db.hist| == db.lastSeq
    ensures |db.levels| == NUM_LEVELS && Laid(db.levels)
  {
    hide LevelsSet, Laid, IdsOK, TombsOf, AllDistinct, VersionOf, Sorted;
    forall k, q: nat | ValidKey(k) && LastTouch(db.hist, k, |db.hist|, q) && q < db.immFrom
      ensures VersionOf(OpOn(db.hist[q], k), q) in LevelsSet(db.levels)
    {
      var v := VersionOf(OpOn(db.hist[q], k), q);
      assert v in db.Versions();
      VersionSeq(OpOn(db.hist[q], k), q);
    }
  }

  lemma VersionSeq(op: Op, q: nat)
    requires !op.DeleteRange?
    ensures VersionOf(op, q).seqno == q
  {
  }

  lemma EmptyStore(db: DB, wal: Log, named: seq<seq<Table>>)
    requires db.Valid() && db.hist == [] && wal.records == [] && wal.from == 0
    requires |named| == NUM_LEVELS && LevelsSet(named) == {}
    ensures LogsOK(None, wal, db.hist, db.immFrom, db.memFrom) && TablesOK(LevelsSet(named), db.hist, db.tombs, db.immFrom)
    ensures MarkersOK(LevelsSet(db.levels), db.tombs, db.immFrom) && db.immFrom == 0
  {
    DbTables(db);
    assert LevelsSet(db.levels) == {};
    assert forall t :: t !in db.tombs;
  }

  lemma DbImm(db: DB)
    requires db.Valid() && db.imm != null
    ensures (forall v | v in db.imm.entries :: ValidKey(v.key)) && (forall t | t in db.imm.tombs :: t in db.tombs)
    ensures forall t | t in db.tombs && db.immFrom <= t.seqno < db.memFrom :: t in db.imm.tombs
  {
    hide LevelsSet, Laid, IdsOK, TombsOf, AllDistinct, Sorted, Faithful, Complete;
  }

  lemma DbFlushed(db: DB)
    requires db.Valid() && db.imm == null
    ensures db.immFrom == db.memFrom
  {
    hide LevelsSet, Laid, IdsOK, TombsOf, AllDistinct, Sorted, Faithful, Complete;
  }

  lemma TablesAre(vs: set<Version>, hist: seq<Write>, tombs: seq<Tomb>, immFrom: nat)
    requires Faithful(vs, hist) && CompleteBelow(vs, hist, immFrom) && MarkersOK(vs, tombs, immFrom)
    requires forall v | v in vs :: v.seqno < immFrom
    ensures TablesOK(vs, hist, tombs, immFrom)
  {
  }

  lemma RotatedLogs(wal: Log, hist: seq<Write>, immFrom: nat, memFrom: nat, next: nat)
    requires LogsOK(None, wal, hist, immFrom, memFrom) && wal.id < next && memFrom <= |hist|
    ensures LogsOK(Some(wal), Log(next, |hist|, []), hist, immFrom, |hist|) && LogsOK(None, wal, hist, immFrom, |hist|)
  {
  }

  lemma FlushedLogs(previous: Option<Log>, wal: Log, hist: seq<Write>, immFrom: nat, memFrom: nat)
    requires LogsOK(previous, wal, hist, immFrom, memFrom)
    ensures LogsOK(None, wal, hist, memFrom, memFrom)
  {
  }

  /** The counter a reopening restores is not beyond the history. */
  lemma CountedWithin(log: Log, hist: seq<Write>, manifestSeq: nat, lastSeq: nat)
    requires LogOK(log, hist, |hist|) && manifestSeq <= |hist|
    requires lastSeq == manifestSeq || exists i | 0 <= i < |log.records| :: lastSeq == log.records[i].seqno + 1
    ensures lastSeq <= |hist|
  {
  }

  lemma {:induction false} CollectedIs(tombs: seq<Tomb>, rs: seq<Record>, vs: set<Version>)
    requires forall t :: t in tombs <==> t in BootTombs(rs) || exists v :: v in vs && MarkerTomb(v) == Some(t)
    ensures Collected(tombs, rs, vs)
  {
  }

  /** The record that a client call appends as number `q`, if it succeeds. */
  function RecordsOf(c: Command, q: nat): seq<Record> {
    if Logged(c) == [] || Logged(c)[0] == [] then [] else [Record(q, Logged(c)[0])]
  }

  /** A compaction step that succeeds and writes the MANIFEST. */
  ghost predicate Named(levels: seq<seq<Table>>, c: Command)
    requires |levels| == NUM_LEVELS
  {
    match Chosen(levels, c)
    case None => false
    case Some(m) => Outputs(levels, m.level, m.take, m.min, m.max, m.env).Some? && m.install.manifestOk
  }

  class Store {
    const db: DB
    var wal: Log
    var previous: Option<Log>       // imm_wal_
    var nextLog: nat
    var named: seq<seq<Table>>      // the levels the MANIFEST on disk names
    var manifestSeq: nat            // last_seq in the MANIFEST

    ghost predicate Valid()
      reads this, db, db.mem, db.imm
    {
      && db.Valid()
      && LogsOK(previous, wal, db.hist, db.immFrom, db.memFrom) && wal.id < nextLog
      && (previous.Some? ==> db.imm != null)
      && |named| == NUM_LEVELS && Laid(named) && TablesOK(LevelsSet(named), db.hist, db.tombs, db.immFrom)
      && MarkersOK(LevelsSet(db.levels), db.tombs, db.immFrom)
      && db.immFrom <= manifestSeq <= |db.hist|
    }

    constructor (bitsPerKey: nat)
      ensures Valid() && db.hist == [] && fresh(db) && fresh(db.mem) && Strict(db.levels)
    {
      hide DB.Valid, Laid, Strict, LogsOK, TablesOK, MarkersOK, LevelsSet;
      db := new DB(bitsPerKey);
      wal, previous, nextLog := Log(1, 0, []), None, 2;
      named := seq(NUM_LEVELS, _ => []);
      manifestSeq := 0;
      new;
      EmptyLevels(named);
      EmptyStore(db, wal, named);
    }

    /** The names of the logs are in order, the MANIFEST lists files that start with
        different keys, and later range deletions from a key reach as far as earlier ones. */
    ghost predicate Recoverable(lists: seq<seq<Table>>)
      requires |lists| == |named| == NUM_LEVELS
      reads this, db
    {
      NamesInOrder(previous, wal) && Listed(lists, named) && Nested(db.tombs)
    }

    /** After a write: what was appended to the log. */
    method Logs(ghost before: seq<Write>, ghost tombs: seq<Tomb>, w: Write, q: nat)
      requires db.Valid() && db.hist == before + [w] && q == |before| && TombsOf(tombs, before)
      requires LogsOK(previous, wal, before, db.immFrom, db.memFrom) && wal.id < nextLog && (previous.Some? ==> db.imm != null)
      requires |named| == NUM_LEVELS && Laid(named) && TablesOK(LevelsSet(named), before, tombs, db.immFrom)
      requires MarkersOK(LevelsSet(db.levels), tombs, db.immFrom) && db.immFrom <= manifestSeq <= |before|
      modifies this`wal
      ensures Valid() && wal == old(wal).(records := old(wal).records + if w == [] then [] else [Record(q, w)])
    {
      hide DB.Valid, LogsOK, Laid, TablesOK, MarkersOK, LevelsSet, TombsOf;
      DbTables(db);
      LogsGrow(previous, wal, before, db.immFrom, db.memFrom, w);
      TablesKept(LevelsSet(named), before, w, tombs, db.tombs, db.immFrom);
      MarkersKept(LevelsSet(db.levels), before, w, tombs, db.tombs, db.immFrom);
      if w != [] {
        wal := wal.(records := wal.records + [Record(q, w)]);
      }
    }

    /** The log has the record; the rest of the disk is as it was. */
    twostate predicate Wrote(c: Command)
      reads this, db
    {
      && wal == old(wal).(records := old(wal).records + RecordsOf(c, |old(db.hist)|)) && previous == old(previous)
      && nextLog == old(nextLog) && named == old(named) && manifestSeq == old(manifestSeq)
      && db.mem == old(db.mem) && db.imm == old(db.imm) && db.levels == old(db.levels)
    }

    /** A client call, and its record if the append succeeded. */
    method Write(c: Command)
      requires Valid() && Allowed(c) && (c.DoPut? || c.DoDelete? || c.DoDeleteRange? || c.DoBatch?)
      modifies this, db, db.mem
      ensures Valid() && db.hist == old(db.hist) + Logged(c) && db.mem == old(db.mem) && db.levels == old(db.levels)
      ensures Wrote(c)
    {
      hide DB.Valid, LogsOK, Laid, TablesOK, MarkersOK, LevelsSet, TombsOf;
      ghost var before, tombs := db.hist, db.tombs;
      DbTables(db);
      var q := db.lastSeq;
      var status: Status;
      match c
      case DoPut(k, v, ok) =>
        status := db.Put(k, v, ok);
        Logs(before, tombs, if ok then [Put(k, v)] else [], q);
      case DoDelete(k, ok) =>
        status := db.Delete(k, ok);
        Logs(before, tombs, if ok then [Delete(k)] else [], q);
      case DoDeleteRange(b, e, ok) =>
        status := db.DeleteRange(b, e, ok);
        if Less(b, e) {
          Logs(before, tombs, if ok then [DeleteRange(b, e)] else [], q);
        }
      case DoBatch(ops, ok) =>
        status := db.BatchWrite(ops, ok);
        if ops != [] {
          Logs(before, tombs, if ok then ops else [], q);
        }
    }

    /** A memtable with content became the immutable one, unless another still waits; it
        kept its log to itself if the next one could be opened. The number of that log is
        used up either way. */
    twostate predicate Rotated(openOk: bool)
      reads this, db, db.mem
    {
      && named == old(named) && manifestSeq == old(manifestSeq) && db.levels == old(db.levels)
      && if old(db.mem.HasContent()) && old(db.imm) == null
         then && db.imm == old(db.mem) && fresh(db.mem) && !db.mem.HasContent() && nextLog == old(nextLog) + 1
              && if openOk then previous == Some(old(wal)) && wal == Log(old(nextLog), |db.hist|, [])
                 else previous == old(previous) && wal == old(wal)
         else && db.imm == old(db.imm) && db.mem == old(db.mem)
              && previous == old(previous) && wal == old(wal) && nextLog == old(nextLog)
    }

    /** Rotation: the next log if it can be opened, else the memtables share the current one. */
    method Rotate(openOk: bool)
      requires Valid()
      modifies this, db
      ensures Valid() && db.hist == old(db.hist) && db.levels == old(db.levels) && (db.mem == old(db.mem) || fresh(db.mem))
      ensures Rotated(openOk)
    {
      hide DB.Valid, LogsOK, Laid, TablesOK, MarkersOK, LevelsSet, TombsOf;
      if !db.mem.HasContent() || db.imm != null {
        return;
      }
      DbTables(db);
      RotatedLogs(wal, db.hist, db.immFrom, db.memFrom, nextLog);
      db.TriggerFlush();
      DbTables(db);
      if openOk {
        previous, wal := Some(wal), Log(nextLog, db.lastSeq, []);
      }
      nextLog := nextLog + 1;
    }

    /** A waiting memtable whose table could be named in the MANIFEST is gone, and its log
        with it; otherwise nothing changed. */
    twostate predicate Flushed(manifestOk: bool)
      requires old(db.levels) != []
      reads this, db
    {
      && wal == old(wal) && nextLog == old(nextLog) && db.mem == old(db.mem)
      && if old(db.imm) != null && manifestOk
         then && db.imm == null && Flushes(old(db.levels), db.levels, old(db.imm.entries), old(db.imm.tombs))
              && previous == None && named == db.levels && manifestSeq == |db.hist|
         else && db.imm == old(db.imm) && db.levels == old(db.levels)
              && previous == old(previous) && named == old(named) && manifestSeq == old(manifestSeq)
    }

    /** Flush: a table that was named replaces the immutable memtable and its log; nothing
        changes without a memtable to flush or when the MANIFEST cannot be written. */
    method Flush(manifestOk: bool)
      requires Valid()
      modifies this, db
      ensures Valid() && db.hist == old(db.hist) && db.mem == old(db.mem)
      ensures Strict(old(db.levels)) ==> Strict(db.levels)
      ensures Flushed(manifestOk)
    {
      hide DB.Valid, LogsOK, Laid, TablesOK, MarkersOK, LevelsSet, TombsOf, Strict;
      if db.imm == null {
        return;
      }
      DbTables(db);
      DbImm(db);
      ghost var vs, entries, flushed, immFrom := LevelsSet(db.levels), db.imm.entries, db.imm.tombs, db.immFrom;
      db.FlushMemTable(manifestOk);
      if manifestOk {
        FlushedLogs(previous, wal, db.hist, immFrom, db.memFrom);
        ghost var t :| db.levels == Pushed(old(db.levels), t) && Elems(t.entries) == Elems(entries) + Elems(Markers(flushed));
        PushedSets(old(db.levels), t);
        MarkersFlushed(vs, entries, flushed, db.tombs, immFrom, db.memFrom);
        DbTables(db);
        DbFlushed(db);
        previous, named, manifestSeq := None, db.levels, db.lastSeq;
        TablesAre(LevelsSet(db.levels), db.hist, db.tombs, db.immFrom);
      }
    }

    /** After a merge, and after its MANIFEST update if that succeeded. */
    method Settle(ghost vs: set<Version>, written: bool)
      requires db.Valid() && Thinned(vs, LevelsSet(db.levels)) && MarkersOK(vs, db.tombs, db.immFrom)
      requires LogsOK(previous, wal, db.hist, db.immFrom, db.memFrom) && wal.id < nextLog && (previous.Some? ==> db.imm != null)
      requires |named| == NUM_LEVELS && Laid(named) && TablesOK(LevelsSet(named), db.hist, db.tombs, db.immFrom)
      requires db.immFrom <= manifestSeq <= |db.hist|
      modifies this
      ensures Valid() && unchanged(`wal) && unchanged(`previous) && unchanged(`nextLog)
      ensures if written then named == db.levels && manifestSeq == |db.hist| else unchanged(this)
    {
      hide DB.Valid, LogsOK, Laid, TablesOK, MarkersOK, LevelsSet, TombsOf, Thinned, Faithful, CompleteBelow;
      DbTables(db);
      MarkersThinned(vs, LevelsSet(db.levels), db.tombs, db.immFrom);
      if written {
        named, manifestSeq := db.levels, db.lastSeq;
        TablesAre(LevelsSet(db.levels), db.hist, db.tombs, db.immFrom);
      }
    }

    /** What a compaction does to the store: the logs stay, and a sound one that moved the
        levels names them in the MANIFEST exactly if that can be written. */
    twostate predicate Compacted(c: Command, sound: bool)
      requires |old(db.levels)| == NUM_LEVELS
      reads this, db
    {
      && LevelsMove(old(db.levels), db.levels, c) && (sound <==> StepSound(old(db.levels), c))
      && wal == old(wal) && previous == old(previous) && nextLog == old(nextLog)
      && db.mem == old(db.mem) && db.imm == old(db.imm)
      && (sound ==>
            && Thinned(LevelsSet(old(db.levels)), LevelsSet(db.levels))
            && if Named(old(db.levels), c) then named == db.levels && manifestSeq == |db.hist|
               else named == old(named) && manifestSeq == old(manifestSeq))
    }

    /** A compaction that moved the levels names them in the MANIFEST, if that can be written. */
    method CompactLevel0(maxFiles: nat, trigger: nat, env: Compaction.Env, install: Install) returns (sound: bool)
      requires Valid()
      modifies this, db
      ensures db.hist == old(db.hist) && db.mem == old(db.mem) && db.imm == old(db.imm) && (sound ==> Valid())
      ensures Compacted(DoCompact0(maxFiles, trigger, env, install), sound)
    {
      hide DB.Valid, LogsOK, Laid, TablesOK, MarkersOK, LevelsSet, TombsOf, Strict, StepSpares, Thinned, DB.Serves,
        Moved, MergeSound, MergeOpens, MergeApart, MinKey, MaxKey;
      ghost var vs := LevelsSet(db.levels);
      DbTables(db);
      var moves := db.levels[0] != [];
      var status, warned;
      status, warned, sound := db.DoLevel0Compaction(maxFiles, trigger, env, install);
      if sound {
        Settle(vs, moves && status == Ok);
      }
    }

    method CompactLevel(level: int, env: Compaction.Env, install: Install) returns (sound: bool)
      requires Valid() && level != 0
      modifies this, db
      ensures db.hist == old(db.hist) && db.mem == old(db.mem) && db.imm == old(db.imm) && (sound ==> Valid())
      ensures Compacted(DoCompact(level, env, install), sound)
    {
      hide DB.Valid, LogsOK, Laid, TablesOK, MarkersOK, LevelsSet, TombsOf, Strict, StepSpares, Thinned, DB.Serves,
        Moved, MergeSound, MergeOpens, MergeApart;
      ghost var vs := LevelsSet(db.levels);
      DbTables(db);
      var moves := 0 < level < NUM_LEVELS - 1 && db.levels[level] != [];
      var status, warned;
      status, warned, sound := db.DoLevelCompaction(level, env, install);
      if sound {
        Settle(vs, moves && status == Ok);
      }
    }

    method Step(c: Command, openOk: bool) returns (sound: bool)
      requires Valid() && Allowed(c)
      modifies this, db, db.mem
      ensures sound ==> Valid() && LevelStep(old(db.levels), db.levels, c)
      ensures sound <==> StepSound(old(db.levels), c)
      ensures db.hist == old(db.hist) + Logged(c) && (db.mem == old(db.mem) || fresh(db.mem))
      ensures LevelsMove(old(db.levels), db.levels, c)
      ensures c.DoRotate? ==> Rotated(openOk)
      ensures c.DoFlush? ==> Flushed(c.manifestOk)
      ensures c.DoCompact0? || c.DoCompact? ==> Compacted(c, sound)
      ensures !c.DoRotate? && !c.DoFlush? && !c.DoCompact0? && !c.DoCompact? ==> Wrote(c)
    {
      hide DB.Valid, LogsOK, Laid, TablesOK, MarkersOK, LevelsSet, TombsOf, Strict, Compacts, MergeSound, MinKey, MaxKey;
      DbTables(db);
      sound := true;
      if c.DoRotate? {
        Rotate(openOk);
      } else if c.DoFlush? {
        Flush(c.manifestOk);
      } else if c.DoCompact0? {
        sound := CompactLevel0(c.maxFiles, c.trigger, c.env0, c.install0);
      } else if c.DoCompact? {
        sound := CompactLevel(c.level, c.env, c.install);
      } else {
        Write(c);
      }
    }

    /** Every run keeps what a reopening needs on disk, up to its first compaction that is
        not sound. `trace` holds the levels of the steps done. */
    method Run(cs: seq<Command>, opens: nat -> bool) returns (sound: bool, ghost trace: seq<seq<seq<Table>>>)
      requires Valid() && forall c | c in cs :: Allowed(c)
      modifies this, db, db.mem
      ensures sound ==> Valid() && db.hist == old(db.hist) + LoggedAll(cs)
      ensures 0 < |trace| <= |cs| + 1 && trace[0] == old(db.levels)
      ensures Traces(trace, cs[..|trace| - 1]) && RunSound(trace, cs[..|trace| - 1])
      ensures if sound then |trace| == |cs| + 1 && trace[|cs|] == db.levels
              else |trace| <= |cs| && !StepSound(trace[|trace| - 1], cs[|trace| - 1])
      ensures (forall c | c in cs :: !c.DoCompact0? && !c.DoCompact?) ==> sound
    {
      hide Valid, Allowed, Logged, LevelStep, LevelsMove, MergeSound;
      sound, trace := true, [db.levels];
      HasLevels();
      for i := 0 to |cs|
        invariant sound && Valid() && db.hist == old(db.hist) + LoggedAll(cs[..i])
        invariant db.mem == old(db.mem) || fresh(db.mem)
        invariant Traces(trace, cs[..i]) && RunSound(trace, cs[..i]) && trace[0] == old(db.levels) && trace[i] == db.levels
      {
        assert cs[..i + 1][..i] == cs[..i];
        ghost var before := trace;
        sound := Step(cs[i], opens(i));
        if !sound {
          assert cs[i] in cs;
          return;
        }
        trace := trace + [db.levels];
        HasLevels();
        TraceNext(before, db.levels, cs, i);
        SoundNext(before, db.levels, cs, i);
      }
      assert cs[..|cs|] == cs;
    }

    lemma HasLevels()
      requires Valid()
      ensures |db.levels| == NUM_LEVELS
    {
      hide LogsOK, TablesOK, MarkersOK, DB.Valid;
      DbTables(db);
    }

    /** What a read returns after a crash and a reopening that finds these file lists. */
    method CrashThenGet(lists: seq<seq<Table>>, k: Bytes) returns (r: Option<Bytes>)
      requires Valid() && ValidKey(k) && |lists| == NUM_LEVELS
      ensures Recoverable(lists) ==> r == Outcome(db.hist, k)
      ensures Recoverable(lists) && (forall p | 0 <= p < |db.hist| :: NoPutThenRange(db.hist[p])) ==> r == Replay(db.hist, k)
    {
      hide DB.Valid, LogsOK, LogOK, Laid, TombsOf, MarkersOK, LevelsSet, Boot, Finds, Outcome, Replay, Nested, CompleteBelow,
        KeySorted, Faithful, AllDistinct, NoPutThenRange, Collected, ReplayOrder, NamesInOrder, Listed;
      r := None;
      var rs := ReplayOrder(previous, wal);
      var mem, lastSeq := ReplayLogs(rs, manifestSeq);
      var levels := ReloadLevels(lists, named);
      var tombs := CollectTombs(mem.tombs, levels);
      DbTables(db);
      LaidIsOrdered(named);
      if Recoverable(lists) {
        assert levels == named;
      }
      ghost var found;
      r, found := ReadReopened(mem, tombs, levels, lastSeq, db.probes, k, rs);
      if Recoverable(lists) {
        var whole := OneLog(previous, wal, db.hist, db.immFrom, db.memFrom);
        CountedWithin(whole, db.hist, manifestSeq, lastSeq);
        CollectedIs(tombs, rs, LevelsSet(named));
        assert forall v | v in LevelsSet(named) :: v.seqno <= lastSeq;
        ReopenedAnswer(found, whole, LevelsSet(named), tombs, db.tombs, db.hist, db.immFrom, lastSeq, k);
        if forall p | 0 <= p < |db.hist| :: NoPutThenRange(db.hist[p]) {
          OutcomeIsReplay(db.hist, k);
        }
      }
    }

    /** A run, a crash, a reopening and a read: the read returns what replaying the writes of
        the run behind the earlier history gives. */
    method RunCrashGet(cs: seq<Command>, opens: nat -> bool, lists: seq<seq<Table>>, k: Bytes)
      returns (sound: bool, r: Option<Bytes>, ghost trace: seq<seq<seq<Table>>>)
      requires Valid() && ValidKey(k) && |lists| == NUM_LEVELS && forall c | c in cs :: Allowed(c)
      requires forall p | 0 <= p < |db.hist + LoggedAll(cs)| :: NoPutThenRange((db.hist + LoggedAll(cs))[p])
      modifies this, db, db.mem
      ensures sound ==> |named| == NUM_LEVELS && (Recoverable(lists) ==> r == Replay(old(db.hist) + LoggedAll(cs), k))
      ensures 0 < |trace| <= |cs| + 1 && trace[0] == old(db.levels)
      ensures Traces(trace, cs[..|trace| - 1]) && RunSound(trace, cs[..|trace| - 1])
      ensures if sound then |trace| == |cs| + 1 && trace[|cs|] == db.levels
              else |trace| <= |cs| && !StepSound(trace[|trace| - 1], cs[|trace| - 1])
      ensures (forall c | c in cs :: !c.DoCompact0? && !c.DoCompact?) ==> sound
    {
      hide DB.Valid, LogsOK, Laid, TablesOK, MarkersOK, NoPutThenRange, LoggedAll, Replay, Outcome, Allowed, Recoverable,
        RunSound, StepSound, LevelStep;
      r := None;
      sound, trace := Run(cs, opens);
      if sound {
        r := CrashThenGet(lists, k);
      }
    }
  }
}
