/** DBImpl: the write path, rotation, flush, compaction and point lookups, kept
    against the history of writes. */
module Database {
  import opened Bytes
  import opened Versions
  import opened History
  import opened MemTables
  import opened Levels
  import opened VersionSet
  import opened Engine
  import opened Batches
  import Compaction
  import Bloom
  import opened Scan

  datatype Status = Ok | InvalidArgument | IOError

  /** The range tombstones a write leaves, in order. */
  function RangeTombs(w: Write, q: nat): seq<Tomb> {
    if w == [] then []
    else
      var n := |w| - 1;
      RangeTombs(w[..n], q) + if w[n].DeleteRange? then [Tomb(w[n].begin, w[n].end, q)] else []
  }

  lemma {:induction false} RangeTombsMembers(w: Write, q: nat)
    ensures forall t :: t in RangeTombs(w, q) <==> t.seqno == q && DeleteRange(t.begin, t.end) in w
  {
    if w != [] {
      var n := |w| - 1;
      RangeTombsMembers(w[..n], q);
      assert w == w[..n] + [w[n]];
    }
  }

  lemma {:induction false} RangeTombsDistinct(w: Write, q: nat)
    requires DistinctKeys(w)
    ensures forall i, j | 0 <= i < j < |RangeTombs(w, q)| :: RangeTombs(w, q)[i].begin != RangeTombs(w, q)[j].begin
  {
    if w != [] {
      var n := |w| - 1;
      var init := RangeTombs(w[..n], q);
      assert DistinctKeys(w[..n]);
      RangeTombsDistinct(w[..n], q);
      RangeTombsMembers(w[..n], q);
      forall i | 0 <= i < |init| && w[n].DeleteRange? ensures init[i].begin != w[n].begin {
        assert init[i] in init;
        var j :| 0 <= j < n && w[j] == DeleteRange(init[i].begin, init[i].end);
      }
    }
  }

  lemma {:induction false} TombsAfterWrite(tombs: seq<Tomb>, hist: seq<Write>, w: Write)
    requires TombsOf(tombs, hist)
    ensures TombsOf(tombs + RangeTombs(w, |hist|), hist + [w])
  {
    RangeTombsMembers(w, |hist|);
  }

  lemma {:induction false} MemTombsAfterWrite(tombs: seq<Tomb>, from: nat, q: nat, w: Write)
    requires DistinctKeys(w) && from <= q
    requires TombsOK(tombs, from, q)
    ensures TombsOK(tombs + RangeTombs(w, q), from, q + 1)
  {
    RangeTombsMembers(w, q);
    RangeTombsDistinct(w, q);
    var ts := tombs + RangeTombs(w, q);
    forall i, j | 0 <= i < j < |ts| && ts[i].begin == ts[j].begin ensures ts[i].seqno != ts[j].seqno {
      assert j >= |tombs| ==> RangeTombs(w, q)[j - |tombs|] in RangeTombs(w, q);
      assert i < |tombs| ==> tombs[i] in tombs;
    }
  }

  // ---------------------------------------------------------------- runs

  /** A step of a run: a client call or background work, with the I/O outcomes and
      choices that the environment decides. */
  datatype Command =
    | DoPut(key: Bytes, value: Bytes, walOk: bool)
    | DoDelete(key: Bytes, walOk: bool)
    | DoDeleteRange(begin: Bytes, end: Bytes, walOk: bool)
    | DoBatch(ops: seq<Op>, walOk: bool)
    | DoRotate
    | DoFlush(manifestOk: bool)
    | DoCompact0(maxFiles: nat, trigger: nat, env0: Compaction.Env, install0: Install)
    | DoCompact(level: int, env: Compaction.Env, install: Install)

  /** How installing the outputs of a merge goes: which of them could be opened again, and
      whether the MANIFEST could be written. */
  datatype Install = Install(openOk: nat -> bool, manifestOk: bool)

  ghost predicate Allowed(c: Command) {
    match c
    case DoPut(k, _, _) => ValidKey(k)
    case DoDelete(k, _) => ValidKey(k)
    case DoBatch(ops, _) => DistinctKeys(ops) && ValidKeys(ops)
    case DoCompact(level, _, _) => level != 0
    case _ => true
  }

  /** The writes a step adds to the history. */
  function Logged(c: Command): seq<Write> {
    match c
    case DoPut(k, v, ok) => [if ok then [Put(k, v)] else []]
    case DoDelete(k, ok) => [if ok then [Delete(k)] else []]
    case DoDeleteRange(b, e, ok) => if Less(b, e) then [if ok then [DeleteRange(b, e)] else []] else []
    case DoBatch(ops, ok) => if ops == [] then [] else [if ok then ops else []]
    case _ => []
  }

  function LoggedAll(cs: seq<Command>): seq<Write> {
    if cs == [] then [] else LoggedAll(cs[..|cs| - 1]) + Logged(cs[|cs| - 1])
  }

  /** The outputs of the merge that takes the first `take` files of level `l` down, if it
      succeeds. */
  ghost function Outputs(levels: seq<seq<Table>>, l: nat, take: nat, min: Bytes, max: Bytes, env: Compaction.Env)
    : Option<seq<seq<Version>>>
    requires l + 1 < |levels| && take <= |levels[l]|
  {
    Compaction.Compacted(MergeSources(levels, l, take, min, max), env)
  }

  /** The first `take` files of level `l` went down: the outputs of the merge of them with
      the files they overlap, numbered from `id` on, joined the rest of the next level as far
      as they could be opened; no other level moved. */
  ghost predicate Moved(before: seq<seq<Table>>, after: seq<seq<Table>>, l: nat, take: nat, min: Bytes, max: Bytes,
                        outs: seq<seq<Version>>, openOk: nat -> bool, id: nat)
    requires l + 1 < |before| && take <= |before[l]|
  {
    && |after| == |before| && after[l] == before[l][take..]
    && (forall m | 0 <= m < |before| && m != l && m != l + 1 :: after[m] == before[m])
    && forall t :: t in after[l + 1] <==> t in Remaining(before[l + 1], min, max) || t in Opened(NewTables(outs, id), openOk)
  }

  /** Every output of the merge, if it succeeds, can be opened again. */
  ghost predicate MergeOpens(levels: seq<seq<Table>>, l: nat, take: nat, min: Bytes, max: Bytes, env: Compaction.Env,
                             install: Install)
    requires l + 1 < |levels| && take <= |levels[l]|
  {
    var outs := Outputs(levels, l, take, min, max, env);
    outs.Some? ==> AllOpened(outs.value, install.openOk)
  }

  /** The merge loses no output, and none of them starts with the key of a file or output
      that belongs in front of it. */
  ghost predicate MergeSound(levels: seq<seq<Table>>, l: nat, take: nat, min: Bytes, max: Bytes, env: Compaction.Env,
                             install: Install)
    requires l + 1 < |levels| && take <= |levels[l]|
  {
    var outs := Outputs(levels, l, take, min, max, env);
    && MergeOpens(levels, l, take, min, max, env, install)
    && (outs.Some? ==> !AnyTied(Remaining(levels[l + 1], min, max), NewTables(outs.value, 0)))
  }

  /** The merge cuts its outputs between keys. */
  ghost predicate MergeApart(levels: seq<seq<Table>>, l: nat, take: nat, min: Bytes, max: Bytes, env: Compaction.Env)
    requires l + 1 < |levels| && take <= |levels[l]|
  {
    var outs := Outputs(levels, l, take, min, max, env);
    outs.Some? ==> Compaction.CutsApart(Compaction.Flatten(outs.value), env.full)
  }

  /** The merge a compaction step takes on, if it finds files to move. */
  datatype Merge = Merge(level: nat, take: nat, min: Bytes, max: Bytes, env: Compaction.Env, install: Install)

  ghost function Chosen(levels: seq<seq<Table>>, c: Command): (r: Option<Merge>)
    requires |levels| == NUM_LEVELS
    ensures r.Some? ==> r.value.level + 1 < NUM_LEVELS && 0 < r.value.take <= |levels[r.value.level]|
  {
    match c
    case DoCompact0(maxFiles, trigger, env, install) =>
      if levels[0] == [] then None
      else
        var take := BatchSize(|levels[0]|, maxFiles, trigger);
        Some(Merge(0, take, MinKey(levels[0][..take]), MaxKey(levels[0][..take]), env, install))
    case DoCompact(level, env, install) =>
      if level <= 0 || level + 1 >= NUM_LEVELS || levels[level] == [] then None
      else Some(Merge(level, 1, levels[level][0].Smallest(), levels[level][0].Largest(), env, install))
    case _ => None
  }

  ghost predicate StepOpens(levels: seq<seq<Table>>, c: Command)
    requires |levels| == NUM_LEVELS
  {
    match Chosen(levels, c)
    case None => true
    case Some(m) => MergeOpens(levels, m.level, m.take, m.min, m.max, m.env, m.install)
  }

  /** The step keeps the levels in order: it is no compaction, or a sound one. */
  ghost predicate StepSound(levels: seq<seq<Table>>, c: Command)
    requires |levels| == NUM_LEVELS
  {
    match Chosen(levels, c)
    case None => true
    case Some(m) => MergeSound(levels, m.level, m.take, m.min, m.max, m.env, m.install)
  }

  ghost predicate StepApart(levels: seq<seq<Table>>, c: Command)
    requires |levels| == NUM_LEVELS
  {
    match Chosen(levels, c)
    case None => true
    case Some(m) => MergeApart(levels, m.level, m.take, m.min, m.max, m.env)
  }

  /** Ties are about keys, not about file numbers. */
  lemma TiesIgnoreIds(files: seq<Table>, outs: seq<seq<Version>>, a: nat, b: nat)
    ensures AnyTied(files, NewTables(outs, a)) ==> AnyTied(files, NewTables(outs, b))
  {
    var ta, tb := NewTables(outs, a), NewTables(outs, b);
    if AnyTied(files, ta) {
      var i :| 0 <= i < |outs| && Tied(files + ta[..i], ta[i]);
      var f :| f in files + ta[..i] && Precedes(f, ta[i]) && f.Smallest() == ta[i].Smallest();
      if f in files {
        assert f in files + tb[..i];
      } else {
        var j :| 0 <= j < i && ta[j] == f;
        assert tb[j] in files + tb[..i] && Precedes(tb[j], tb[i]) && tb[j].Smallest() == tb[i].Smallest();
      }
      assert Tied(files + tb[..i], tb[i]);
    }
  }

  /** The merge spares what a snapshot reads: of the versions it takes, those that an
      observed oldest snapshot can see are visible to this one too. */
  ghost predicate Spares(levels: seq<seq<Table>>, l: nat, take: nat, min: Bytes, max: Bytes, env: Compaction.Env, s: nat)
    requires l + 1 < |levels| && take <= |levels[l]|
  {
    Compaction.Protected(Inputs(levels, l, take, min, max),
                         Compaction.Observed(env, Compaction.Queries(MergeSources(levels, l, take, min, max), env)), s)
  }

  ghost predicate StepSpares(levels: seq<seq<Table>>, c: Command, s: nat)
    requires |levels| == NUM_LEVELS
  {
    match Chosen(levels, c)
    case None => true
    case Some(m) => Spares(levels, m.level, m.take, m.min, m.max, m.env, s)
  }

  /** A table of the entries and the tombstone markers joined level 0. */
  ghost predicate Flushes(before: seq<seq<Table>>, after: seq<seq<Table>>, entries: seq<Version>, tombs: seq<Tomb>)
    requires before != []
  {
    exists t :: after == Pushed(before, t) && Elems(t.entries) == Elems(entries) + Elems(Markers(tombs))
  }

  /** Every oldest snapshot the merge can observe is at or below `s`. */
  ghost predicate Watches(env: Compaction.Env, s: nat) {
    env.oldest <= s && forall i :: env.refresh(i) <= s
  }

  ghost predicate Watched(c: Command, s: nat) {
    (c.DoCompact0? ==> Watches(c.env0, s)) && (c.DoCompact? ==> Watches(c.env, s))
  }

  /** Versions may go, but never the newest of a key. */
  ghost predicate Thinned(before: set<Version>, after: set<Version>) {
    && after <= before
    && forall v | v in before :: v in after || exists w :: w in after && w.key == v.key && w.seqno > v.seqno
  }

  /** What a step does to the levels; only a flush brings new versions. */
  ghost predicate LevelStep(before: seq<seq<Table>>, after: seq<seq<Table>>, c: Command)
    requires |before| == NUM_LEVELS
  {
    LevelsMove(before, after, c) && (!c.DoFlush? ==> Thinned(LevelsSet(before), LevelsSet(after)))
  }

  ghost predicate LevelsMove(before: seq<seq<Table>>, after: seq<seq<Table>>, c: Command)
    requires |before| == NUM_LEVELS
  {
    if c.DoFlush? then after == before || (c.manifestOk && exists t :: after == Pushed(before, t))
    else
      match Chosen(before, c)
      case None => after == before
      case Some(m) =>
        exists id, status :: Compacts(before, after, m.level, m.take, m.min, m.max, m.env, m.install, id, status)
  }

  /** The levels before each step of a run and behind the last. */
  ghost predicate Traces(trace: seq<seq<seq<Table>>>, cs: seq<Command>) {
    && |trace| == |cs| + 1 && (forall i | 0 <= i < |trace| :: |trace[i]| == NUM_LEVELS)
    && forall i | 0 <= i < |cs| :: LevelStep(trace[i], trace[i + 1], cs[i])
  }

  ghost predicate RunSpares(trace: seq<seq<seq<Table>>>, cs: seq<Command>, s: nat)
    requires Traces(trace, cs)
  {
    forall i | 0 <= i < |cs| :: StepSpares(trace[i], cs[i], s)
  }

  /** Every compaction of the run was sound. */
  ghost predicate RunSound(trace: seq<seq<seq<Table>>>, cs: seq<Command>)
    requires Traces(trace, cs)
  {
    forall i | 0 <= i < |cs| :: StepSound(trace[i], cs[i])
  }

  /** The step opens all its outputs and cuts them between keys. */
  ghost predicate StepClean(levels: seq<seq<Table>>, c: Command)
    requires |levels| == NUM_LEVELS
  {
    StepOpens(levels, c) && StepApart(levels, c)
  }

  ghost predicate AllOpened(outs: seq<seq<Version>>, openOk: nat -> bool) {
    forall i | 0 <= i < |outs| :: openOk(i)
  }

  /** What a compaction does and reports. A merge that fails changes nothing. One that
      succeeds changes the levels before the MANIFEST is written, so a failure to write it
      is reported about levels that moved. */
  ghost predicate Compacts(before: seq<seq<Table>>, after: seq<seq<Table>>, l: nat, take: nat, min: Bytes, max: Bytes,
                           env: Compaction.Env, install: Install, id: nat, status: Status)
    requires l + 1 < |before| && take <= |before[l]|
  {
    var outs := Outputs(before, l, take, min, max, env);
    if outs.None? then after == before && status == IOError
    else
      && status == (if install.manifestOk then Ok else IOError)
      && Moved(before, after, l, take, min, max, outs.value, install.openOk, id)
      && (AllOpened(outs.value, install.openOk) ==>
            && LevelSet(after[l + 1]) == LevelSet(Remaining(before[l + 1], min, max)) + Elems(Compaction.Flatten(outs.value))
            && (Laid(after) <==> MergeSound(before, l, take, min, max, env, install)))
  }

  /** What the predicates on steps say about a compaction of level 0. */
  lemma {:induction false} Level0Step(levels: seq<seq<Table>>, c: Command)
    requires |levels| == NUM_LEVELS && c.DoCompact0?
    ensures levels[0] == [] ==> StepSound(levels, c) && StepOpens(levels, c) && StepApart(levels, c)
    ensures levels[0] != [] ==>
              var take := BatchSize(|levels[0]|, c.maxFiles, c.trigger);
              var min, max := MinKey(levels[0][..take]), MaxKey(levels[0][..take]);
              && (StepSound(levels, c) <==> MergeSound(levels, 0, take, min, max, c.env0, c.install0))
              && (StepOpens(levels, c) <==> MergeOpens(levels, 0, take, min, max, c.env0, c.install0))
              && (StepApart(levels, c) <==> MergeApart(levels, 0, take, min, max, c.env0))
              && forall s :: StepSpares(levels, c, s) <==> Spares(levels, 0, take, min, max, c.env0, s)
  {
    hide MinKey, MaxKey, MergeSound, MergeOpens, MergeApart, Spares;
  }

  lemma {:induction false} MovedInto(levels: seq<seq<Table>>, l: nat, take: nat, min: Bytes, max: Bytes, lower: seq<Table>,
                  outs: seq<seq<Version>>, openOk: nat -> bool, id: nat)
    requires l + 1 < |levels| && take <= |levels[l]|
    requires forall t :: t in lower <==> t in Remaining(levels[l + 1], min, max) || t in Opened(NewTables(outs, id), openOk)
    ensures Moved(levels, Replaced(levels, l, take, lower), l, take, min, max, outs, openOk, id)
    ensures Installed(levels, l, take, min, max, lower, Elems(Compaction.Flatten(outs))) ==>
              var after := Replaced(levels, l, take, lower);
              LevelSet(after[l + 1]) == LevelSet(Remaining(levels[l + 1], min, max)) + Elems(Compaction.Flatten(outs))
  {
    hide Remaining, Opened, Inputs, LevelSet, Compaction.Flatten;
    var after := Replaced(levels, l, take, lower);
    assert after[l] == levels[l][take..] && after[l + 1] == lower;
  }

  /** How many level-0 files one compaction takes: all, or at least half of them. The limit
      is four times the trigger unless one is set, and never below four. */
  function BatchSize(files: nat, maxFiles: nat, trigger: nat): (take: nat)
    requires files > 0
    ensures 0 < take <= files && files / 2 <= take
    ensures var limit := if maxFiles == 0 then trigger * 4 else maxFiles;
            && (take == files <==> files <= limit || files <= 4)
            && (take < files ==> limit <= take && 4 <= take && (take == limit || take == 4 || take == files / 2))
  {
    var limit := if maxFiles == 0 then trigger * 4 else maxFiles;
    var batch := if limit < 4 then 4 else limit;
    if files <= batch then files else if batch > files / 2 then batch else files / 2
  }

  class DB {
    var lastSeq: nat
    var mem: MemTable
    var imm: MemTable?
    var levels: seq<seq<Table>>
    var tombs: seq<Tomb>
    var nextId: nat
    const probes: nat

    ghost var hist: seq<Write>    // one entry per sequence number
    ghost var memFrom: nat        // mem holds sequence numbers from here on
    ghost var immFrom: nat        // imm holds [immFrom, memFrom), the levels less

    ghost function Versions(): set<Version>
      reads this, mem, imm
    {
      Elems(mem.entries) + (if imm == null then {} else Elems(imm.entries)) + LevelsSet(levels)
    }

    ghost predicate Shape()
      reads this, mem, imm
    {
      && lastSeq == |hist| && immFrom <= memFrom <= lastSeq
      && MemOK(mem.entries, mem.tombs, memFrom, lastSeq)
      && (imm == null ==> immFrom == memFrom)
      && (imm != null ==> imm != mem && imm.HasContent() && MemOK(imm.entries, imm.tombs, immFrom, memFrom))
      && |levels| == NUM_LEVELS && Laid(levels) && IdsOK(levels, nextId)
      && (forall v | v in LevelsSet(levels) :: v.seqno < immFrom)
    }

    ghost predicate Valid()
      reads this, mem, imm
    {
      && Shape() && AllDistinct(hist)
      && TombsOf(tombs, hist)
      && (forall t | t in mem.tombs :: t in tombs)
      && (imm != null ==> forall t | t in imm.tombs :: t in tombs)
      && (forall t | t in tombs && memFrom <= t.seqno :: t in mem.tombs)
      && (imm != null ==> forall t | t in tombs && immFrom <= t.seqno < memFrom :: t in imm.tombs)
      && Faithful(Versions(), hist) && Complete(Versions(), hist, lastSeq)
    }

    /** The snapshot still finds the last write to every key it can see. */
    ghost predicate Serves(s: nat)
      reads this, mem, imm
    {
      Complete(Versions(), hist, s)
    }

    constructor (bitsPerKey: nat)
      ensures Valid() && Strict(levels) && hist == [] && fresh(mem) && imm == null && probes == Bloom.Probes(bitsPerKey)
    {
      lastSeq, nextId, tombs := 0, 1, [];
      mem := new MemTable();
      imm := null;
      levels := seq(NUM_LEVELS, _ => []);
      probes := Bloom.Probes(bitsPerKey);
      hist, memFrom, immFrom := [], 0, 0;
      new;
      hide Laid, Strict, IdsOK, LevelsSet;
      EmptyLevels(levels);
      assert Versions() == {};
    }

    // -------------------------------------------------------------- writes

    /** The locked part of every write: log record, memtable entries, tombstones.
        A failed log append has already consumed its sequence number. */
    method Commit(w: Write, walOk: bool) returns (status: Status)
      requires Valid() && DistinctKeys(w) && ValidKeys(w)
      modifies this, mem
      ensures Valid() && mem == old(mem) && imm == old(imm) && levels == old(levels)
      ensures hist == old(hist) + [if walOk then w else []] && immFrom == old(immFrom) && memFrom == old(memFrom)
      ensures forall s | old(Serves(s)) :: Serves(s)
      ensures status == if walOk then Ok else IOError
    {
      hide Faithful, Complete, Laid, TombsOf, IdsOK, LevelsSet, PointVersions, RangeTombs, Sorted;
      var q := lastSeq;
      ghost var done := if walOk then w else [];
      ghost var before, vs, memTombs := mem.entries, Versions(), mem.tombs;
      WriteStep(vs, hist, done);
      TombsAfterWrite(tombs, hist, done);
      MemTombsAfterWrite(memTombs, memFrom, q, done);
      RangeTombsMembers(done, q);
      PointVersionsBounds(done, q);
      lastSeq := lastSeq + 1;
      status := IOError;
      if walOk {
        ApplyOps(mem, w, q);
        tombs := tombs + RangeTombs(w, q);
        status := Ok;
      }
      hist := hist + [done];
      assert Elems(mem.entries) == Elems(before) + PointVersions(done, q);
      assert mem.tombs == memTombs + RangeTombs(done, q);
      MemAfterWrite(before, memTombs, memFrom, q, done, mem.entries);
      assert Versions() == vs + PointVersions(done, q);
      assert tombs == old(tombs) + RangeTombs(done, q);
    }

    /** Put, as WriteImpl runs it. */
    method Put(k: Bytes, v: Bytes, walOk: bool) returns (status: Status)
      requires Valid() && ValidKey(k)
      modifies this, mem
      ensures Valid() && mem == old(mem) && imm == old(imm) && levels == old(levels)
      ensures immFrom == old(immFrom) && memFrom == old(memFrom) && forall s | old(Serves(s)) :: Serves(s)
      ensures hist == old(hist) + [if walOk then [History.Put(k, v)] else []]
      ensures status == if walOk then Ok else IOError
    {
      status := Commit([History.Put(k, v)], walOk);
    }

    method Delete(k: Bytes, walOk: bool) returns (status: Status)
      requires Valid() && ValidKey(k)
      modifies this, mem
      ensures Valid() && mem == old(mem) && imm == old(imm) && levels == old(levels)
      ensures immFrom == old(immFrom) && memFrom == old(memFrom) && forall s | old(Serves(s)) :: Serves(s)
      ensures hist == old(hist) + [if walOk then [History.Delete(k)] else []]
      ensures status == if walOk then Ok else IOError
    {
      status := Commit([History.Delete(k)], walOk);
    }

    /** An empty or inverted range is refused before a sequence number is taken. */
    method DeleteRange(b: Bytes, e: Bytes, walOk: bool) returns (status: Status)
      requires Valid()
      modifies this, mem
      ensures Valid() && mem == old(mem) && imm == old(imm) && levels == old(levels)
      ensures immFrom == old(immFrom) && memFrom == old(memFrom) && forall s | old(Serves(s)) :: Serves(s)
      ensures if Less(b, e)
              then hist == old(hist) + [if walOk then [History.DeleteRange(b, e)] else []]
                   && status == (if walOk then Ok else IOError)
              else hist == old(hist) && status == InvalidArgument && tombs == old(tombs)
    {
      if !Less(b, e) {
        return InvalidArgument;
      }
      status := Commit([History.DeleteRange(b, e)], walOk);
    }

    method BatchWrite(ops: seq<Op>, walOk: bool) returns (status: Status)
      requires Valid() && DistinctKeys(ops) && ValidKeys(ops)
      modifies this, mem
      ensures Valid() && mem == old(mem) && imm == old(imm) && levels == old(levels)
      ensures immFrom == old(immFrom) && memFrom == old(memFrom) && forall s | old(Serves(s)) :: Serves(s)
      ensures if ops == [] then hist == old(hist) && status == Ok && tombs == old(tombs)
              else hist == old(hist) + [if walOk then ops else []]
                   && status == (if walOk then Ok else IOError)
    {
      if ops == [] {
        return Ok;
      }
      status := Commit(ops, walOk);
    }

    // -------------------------------------------------------------- rotation and flush

    /** TriggerFlush: callers rotate a memtable that has content, and only while no
        other one waits for its flush. */
    method TriggerFlush()
      requires Valid() && mem.HasContent()
      modifies this
      ensures Valid() && hist == old(hist) && levels == old(levels) && tombs == old(tombs) && immFrom == old(immFrom)
      ensures forall s | old(Serves(s)) :: Serves(s)
      ensures if old(imm) == null then imm == old(mem) && fresh(mem) && !mem.HasContent() && memFrom == lastSeq
              else imm == old(imm) && mem == old(mem) && memFrom == old(memFrom)
    {
      if imm != null {
        return;
      }
      ghost var vs := Versions();
      imm := mem;
      mem := new MemTable();
      memFrom := lastSeq;
      assert Versions() == vs;
    }

    /** WriteLevel0Table up to the finished file: entries and tombstone markers of
        the immutable memtable in table order. */
    method BuildTable() returns (t: Table)
      requires Valid() && imm != null
      ensures t.id == nextId && WellFormed(t)
      ensures Elems(t.entries) == Elems(imm.entries) + Elems(Markers(imm.tombs))
      ensures forall v | v in t.entries :: immFrom <= v.seqno < memFrom
    {
      hide Faithful, Complete, Laid, TombsOf, IdsOK, LevelsSet, WellFormed, Sorted;
      FlushDistinct(imm.entries, imm.tombs, immFrom, memFrom);
      var es := SortEntries(imm.entries + Markers(imm.tombs));
      t := Table(nextId, es);
      FlushedTable(imm.entries, imm.tombs, immFrom, memFrom, t);
    }

    /** The MANIFEST names the table: it replaces the immutable memtable. */
    method Publish(t: Table)
      requires Valid() && imm != null && t.id < nextId && IdsOK(levels, t.id) && WellFormed(t)
      requires Elems(t.entries) == Elems(imm.entries) + Elems(Markers(imm.tombs))
      requires forall v | v in t.entries :: immFrom <= v.seqno < memFrom
      modifies this
      ensures Valid() && hist == old(hist) && mem == old(mem) && imm == null && tombs == old(tombs)
      ensures immFrom == memFrom == old(memFrom) && forall s | old(Serves(s)) :: Serves(s)
      ensures levels == Pushed(old(levels), t) && (Strict(old(levels)) ==> Strict(levels))
    {
      hide Faithful, Complete, Laid, Strict, TombsOf, LevelsSet, WellFormed, Sorted;
      ghost var vs := Versions();
      PushLevel0(levels, t, immFrom);
      AddMarkers(vs, hist, imm.tombs);
      levels := Pushed(levels, t);
      imm := null;
      immFrom := memFrom;
      assert Versions() == vs + Elems(Markers(old(imm.tombs)));
    }

    /** FlushMemTable: the table joins level 0, and leaves it again if the MANIFEST
        could not be written. */
    method FlushMemTable(manifestOk: bool)
      requires Valid()
      modifies this
      ensures Valid() && hist == old(hist) && mem == old(mem) && tombs == old(tombs) && memFrom == old(memFrom)
      ensures if manifestOk then imm == null else imm == old(imm) && levels == old(levels) && immFrom == old(immFrom)
      ensures old(imm) != null && manifestOk ==> Flushes(old(levels), levels, old(imm.entries), old(imm.tombs))
      ensures forall s | old(Serves(s)) :: Serves(s)
      ensures old(imm) == null ==> levels == old(levels)
      ensures Strict(old(levels)) ==> Strict(levels)
    {
      hide Faithful, Complete, Laid, Strict, TombsOf, LevelsSet, WellFormed, MemOK, IdsOK, AllDistinct;
      if imm == null {
        return;
      }
      var t := BuildTable();
      IdsGrow(levels, nextId);
      nextId := nextId + 1;
      if manifestOk {
        Publish(t);
      } else {
        var l0 := Withdraw(levels[0], t);
        levels := levels[0 := l0];
        assert levels == old(levels);
      }
    }

    // -------------------------------------------------------------- compaction

    /** The shared part of both compactions: merge the first `take` files of level
        `l` with what they overlap below, and put the outputs in their place. `warned`
        is the overlap warning: without one, strict levels stay strict. */
    method MergeDown(l: nat, take: nat, min: Bytes, max: Bytes, env: Compaction.Env, install: Install)
      returns (status: Status, warned: bool, sound: bool)
      requires Valid() && l + 1 < NUM_LEVELS && 0 < take <= |levels[l]|
      requires InBounds(levels[l][..take], min, max)
      modifies this
      ensures hist == old(hist) && mem == old(mem) && imm == old(imm)
      ensures sound ==> Valid()
      ensures sound && !warned && Strict(old(levels)) ==> Strict(levels)
      ensures Compacts(old(levels), levels, l, take, min, max, env, install, old(nextId), status)
      ensures sound <==> MergeSound(old(levels), l, take, min, max, env, install)
      ensures Strict(old(levels)) && MergeOpens(old(levels), l, take, min, max, env, install) ==>
                (warned <==> !MergeApart(old(levels), l, take, min, max, env)) && (!warned ==> sound)
      ensures sound ==> forall s | old(Serves(s)) && Spares(old(levels), l, take, min, max, env, s) :: Serves(s)
      ensures tombs == old(tombs) && immFrom == old(immFrom) && memFrom == old(memFrom)
      ensures sound ==> Thinned(LevelsSet(old(levels)), LevelsSet(levels))
    {
      hide Faithful, Complete, Laid, Strict, TombsOf, LevelsSet, WellFormed, Sorted, LevelSet, MemOK, IdsOK,
        Installed, Inputs, Compaction.Merges, InBounds, Replaced, Moved, Compaction.Compacted, Compaction.Flatten,
        Compaction.Queries, Compaction.Observed, AnyTied, Compaction.CutsApart, Compaction.Protected;
      var merged, used, overlap, tied, lost, outs, lower := MergeLevels(levels, l, take, min, max, nextId, env, install.openOk);
      if merged.None? {
        return IOError, false, true;
      }
      warned, sound, status := overlap, !lost && !tied, if install.manifestOk then Ok else IOError;
      ghost var observed := Compaction.Observed(env, Compaction.Queries(MergeSources(levels, l, take, min, max), env));
      if !lost {
        ghost var other := Elems(mem.entries) + if imm == null then {} else Elems(imm.entries);
        CompactedVersions(levels, l, take, min, max, outs, lower, other, hist, observed);
        MergeThins(levels, l, take, min, max, outs, lower, observed);
      }
      MovedInto(levels, l, take, min, max, lower, outs, install.openOk, nextId);
      MergeOutcome(levels, l, take, min, max, env, install, outs, nextId, tied, lost);
      if Strict(levels) && !lost && !warned {
        StrictIsLaid(merged.value);
      }
      levels, nextId := merged.value, nextId + used;
    }

    /** DoLevel0Compaction: the oldest files of level 0, at least half of them. */
    method DoLevel0Compaction(maxFiles: nat, trigger: nat, env: Compaction.Env, install: Install)
      returns (status: Status, warned: bool, sound: bool)
      requires Valid()
      modifies this
      ensures hist == old(hist) && mem == old(mem) && imm == old(imm)
      ensures sound ==> Valid()
      ensures sound && !warned && Strict(old(levels)) ==> Strict(levels)
      ensures old(levels[0]) == [] ==> status == Ok && !warned && sound && levels == old(levels)
      ensures old(levels[0]) != [] ==>
                var take := BatchSize(|old(levels[0])|, maxFiles, trigger);
                var batch := old(levels[0])[..take];
                Compacts(old(levels), levels, 0, take, MinKey(batch), MaxKey(batch), env, install, old(nextId), status)
      ensures var c := DoCompact0(maxFiles, trigger, env, install);
              && (sound <==> StepSound(old(levels), c))
              && (Strict(old(levels)) && StepOpens(old(levels), c) ==> (warned <==> !StepApart(old(levels), c)) && (!warned ==> sound))
      ensures sound ==> forall s | old(Serves(s)) && StepSpares(old(levels), DoCompact0(maxFiles, trigger, env, install), s) :: Serves(s)
      ensures tombs == old(tombs) && immFrom == old(immFrom) && memFrom == old(memFrom)
      ensures sound ==> Thinned(LevelsSet(old(levels)), LevelsSet(levels))
    {
      hide Faithful, Complete, Laid, TombsOf, MemOK, IdsOK, LevelsSet, MinKey, MaxKey, InBounds, Compacts, Strict, Spares,
        MergeSound, MergeOpens, MergeApart, StepSound, StepOpens, StepApart, StepSpares;
      Level0Step(levels, DoCompact0(maxFiles, trigger, env, install));
      if levels[0] == [] {
        return Ok, false, true;
      }
      var batch := if maxFiles == 0 then trigger * 4 else maxFiles;
      if batch < 4 {
        batch := 4;
      }
      var take := |levels[0]|;
      if take > batch {
        take := if batch > take / 2 then batch else take / 2;
      }
      assert take == BatchSize(|levels[0]|, maxFiles, trigger);
      var picked := levels[0][..take];
      var min, max := Level0Range(picked);
      LaidIsOrdered(levels);
      BatchBounds(levels, take);
      status, warned, sound := MergeDown(0, take, min, max, env, install);
    }

    /** DoLevelCompaction: the first file of the level; the last level stays. */
    method DoLevelCompaction(level: int, env: Compaction.Env, install: Install)
      returns (status: Status, warned: bool, sound: bool)
      requires Valid() && level != 0
      modifies this
      ensures hist == old(hist) && mem == old(mem) && imm == old(imm)
      ensures sound ==> Valid()
      ensures sound && !warned && Strict(old(levels)) ==> Strict(levels)
      ensures level < 0 || level + 1 >= NUM_LEVELS || old(levels[level]) == [] ==>
                status == Ok && !warned && sound && levels == old(levels)
      ensures 0 < level < NUM_LEVELS - 1 && old(levels[level]) != [] ==>
                var front := old(levels[level])[0];
                Compacts(old(levels), levels, level, 1, front.Smallest(), front.Largest(), env, install, old(nextId), status)
      ensures var c := DoCompact(level, env, install);
              && (sound <==> StepSound(old(levels), c))
              && (Strict(old(levels)) && StepOpens(old(levels), c) ==> (warned <==> !StepApart(old(levels), c)) && (!warned ==> sound))
      ensures sound ==> forall s | old(Serves(s)) && StepSpares(old(levels), DoCompact(level, env, install), s) :: Serves(s)
      ensures tombs == old(tombs) && immFrom == old(immFrom) && memFrom == old(memFrom)
      ensures sound ==> Thinned(LevelsSet(old(levels)), LevelsSet(levels))
    {
      hide Compacts, Strict, Laid, Spares, LevelsSet, Faithful, Complete, TombsOf, MemOK, IdsOK, MergeSound, MergeOpens, MergeApart;
      if level < 0 || level + 1 >= NUM_LEVELS || levels[level] == [] {
        return Ok, false, true;
      }
      var picked := levels[level][0];
      FrontBounds(levels[level]);
      status, warned, sound := MergeDown(level, 1, picked.Smallest(), picked.Largest(), env, install);
    }

    // -------------------------------------------------------------- reads

    /** The history a read sees: all of it, or up to its snapshot. */
    ghost function Seen(snapshot: nat): seq<Write>
      reads this
    {
      if snapshot == 0 then hist else UpTo(hist, snapshot)
    }

    /** A read at `s` can be answered from the history: the snapshot is served, and the
        levels are strict or there is nothing newer. */
    ghost predicate Answerable(s: nat)
      reads this, mem, imm
    {
      Serves(s) && (Strict(levels) || lastSeq <= s + 1)
    }

    /** The table part of a read, when no memtable has a visible version. */
    method GetFromTables(k: Bytes, s: nat) returns (r: Option<Bytes>)
      requires Valid() && ValidKey(k)
      requires NoneVisible(Elems(mem.entries), k, s) && (imm != null ==> NoneVisible(Elems(imm.entries), k, s))
      ensures Answerable(s) ==> r == Outcome(UpTo(hist, s), k)
    {
      hide Faithful, Complete, Laid, TombsOf, IdsOK, LevelsSet, WellFormed, Sorted, LevelSet, Strict, IsNewest,
        NoneVisible, AllDistinct, Outcome, Hidden, MemOK;
      ghost var inMem, inImm, below := Elems(mem.entries), if imm == null then {} else Elems(imm.entries), LevelsSet(levels);
      assert Versions() == inMem + (inImm + below);
      if imm == null {
        NoneInEmpty(k, s);
      }
      var best := SearchLevels(levels, probes, k, s);
      if Answerable(s) {
        BestBelow(best, inImm, below, k, s);
        BestBelow(best, inMem, inImm + below, k, s);
        AnswerIsOutcome(Versions(), tombs, hist, k, s, best);
      }
      if best.None? || best.value.kind == Deletion {
        return None;
      }
      var hidden := FindHiding(tombs, k, best.value.seqno, s);
      r := if hidden then None else Some(Unwrap(best.value.value));
    }

    /** A read at sequence number `s`: memtable, immutable memtable, tables; a memtable hit
        decides. */
    method GetAt(k: Bytes, s: nat) returns (r: Option<Bytes>)
      requires Valid() && ValidKey(k)
      ensures Answerable(s) ==> r == Outcome(UpTo(hist, s), k)
    {
      hide Faithful, Complete, Laid, TombsOf, IdsOK, LevelsSet, WellFormed, Sorted, LevelSet, Strict, IsNewest,
        NoneVisible, AllDistinct, Outcome, Hidden, MemOK, KeySorted;
      MemFacts(mem.entries, mem.tombs, memFrom, lastSeq);
      if imm != null {
        MemFacts(imm.entries, imm.tombs, immFrom, memFrom);
      }
      ghost var inMem, inImm, below := Elems(mem.entries), if imm == null then {} else Elems(imm.entries), LevelsSet(levels);
      assert Versions() == inMem + (inImm + below) == (inMem + inImm) + below;
      assert forall v: Version | v in inImm + below :: v.seqno < memFrom;
      FirstVisibleIsNewest(mem.entries, k, s);
      var m := mem.Find(k, s);
      if m != NotFound {
        ghost var found := FirstVisible(mem.entries, k, s);
        NewestAbove(found.value, inMem, inImm + below, memFrom, k, s);
        HiddenMore(mem.tombs, tombs, k, found.value.seqno, s);
        if Serves(s) {
          AnswerIsOutcome(Versions(), tombs, hist, k, s, found);
        }
        r := FromMem(m, k, s);
        return;
      }
      if imm != null {
        FirstVisibleIsNewest(imm.entries, k, s);
        m := imm.Find(k, s);
        if m != NotFound {
          ghost var found := FirstVisible(imm.entries, k, s);
          NewestAbove(found.value, inImm, below, immFrom, k, s);
          BestBelow(found, inMem, inImm + below, k, s);
          HiddenMore(imm.tombs, tombs, k, found.value.seqno, s);
          if Serves(s) {
            AnswerIsOutcome(Versions(), tombs, hist, k, s, found);
          }
          r := FromMem(m, k, s);
          return;
        }
      }
      r := GetFromTables(k, s);
    }

    /** Get: snapshot 0 asks for the latest state. */
    method Get(k: Bytes, snapshot: nat) returns (r: Option<Bytes>)
      requires Valid() && ValidKey(k)
      ensures snapshot == 0 || Answerable(snapshot) ==> r == Outcome(Seen(snapshot), k)
      ensures (snapshot == 0 || Answerable(snapshot)) && (forall p | 0 <= p < |hist| :: NoPutThenRange(hist[p])) ==>
                r == Replay(Seen(snapshot), k)
    {
      hide Faithful, Complete, Laid, TombsOf, IdsOK, LevelsSet, Strict, AllDistinct, NoPutThenRange, Outcome, Replay, MemOK;
      var s := if snapshot > 0 then snapshot else lastSeq;
      r := GetAt(k, s);
      if forall p | 0 <= p < |hist| :: NoPutThenRange(hist[p]) {
        SeenIsReplay(hist, s, k);
      }
    }

    /** What Get makes of a memtable hit: the DB-wide tombstones still count. */
    method FromMem(m: Lookup, k: Bytes, s: nat) returns (r: Option<Bytes>)
      requires m != NotFound
      ensures r == if m.Deleted? || Hidden(tombs, k, m.seqno, s) then None else Some(Unwrap(m.value))
    {
      if m.Deleted? {
        return None;
      }
      var hidden := FindHiding(tombs, k, m.seqno, s);
      r := if hidden then None else Some(Unwrap(m.value));
    }

    // -------------------------------------------------------------- scans

    /** The sources of an iterator: memtables, then the files of every level. */
    method Sources() returns (ss: seq<Cursor>)
      requires Valid()
      ensures CursorsOK(ss) && AllOf(ss) == Versions()
    {
      hide Faithful, Complete, Laid, TombsOf, IdsOK, LevelsSet, Sorted, AllOf, LevelSet;
      ss := [Cursor(mem.entries, 0, 0)];
      CursorAdds([], ss[0]);
      if imm != null {
        CursorAdds(ss, Cursor(imm.entries, 0, 0));
        ss := ss + [Cursor(imm.entries, 0, 0)];
      }
      ghost var inMemory := AllOf(ss);
      LaidIsOrdered(levels);
      LevelsSetNext(levels, 0);
      for l := 0 to NUM_LEVELS
        invariant CursorsOK(ss) && AllOf(ss) == inMemory + LevelsSet(levels[..l])
      {
        ghost var before := AllOf(ss);
        LevelSetEmpty();
        LevelTables(levels, l);
        for i := 0 to |levels[l]|
          invariant CursorsOK(ss) && AllOf(ss) == before + LevelSet(levels[l][..i])
        {
          var t := levels[l][i];
          CursorAdds(ss, Cursor(t.entries, 0, t.id));
          LevelSetSnoc(levels[l], i);
          ss := ss + [Cursor(t.entries, 0, t.id)];
        }
        assert levels[l][..|levels[l]|] == levels[l];
        LevelsSetNext(levels, l);
      }
      assert levels[..NUM_LEVELS] == levels;
    }

    /** A full scan at a snapshot: in key order, exactly the keys Get finds there,
        with the values Get returns. */
    method ScanAll(s: nat) returns (out: seq<Version>)
      requires Valid()
      ensures forall i, j | 0 <= i < j < |out| :: Less(out[i].key, out[j].key)
      ensures forall v | v in out :: ValidKey(v.key)
      ensures Serves(s) ==> forall v | v in out :: Outcome(UpTo(hist, s), v.key) == Some(Unwrap(v.value))
      ensures Serves(s) ==> forall k | ValidKey(k) && Outcome(UpTo(hist, s), k).Some? :: exists v :: v in out && v.key == k
    {
      hide Faithful, Complete, Laid, TombsOf, IdsOK, LevelsSet, Sorted, AllOf, LevelSet, Less, Readable,
        CursorsOK, Distinct, AllDistinct;
      var ss := Sources();
      ghost var vs, waiting := Versions(), if imm == null then [] else imm.entries;
      assert imm == null ==> Sorted(waiting) by {
        EmptySorted();
      }
      VersionsDistinct(mem.entries, waiting, levels, immFrom, memFrom);
      assert vs == Elems(mem.entries) + Elems(waiting) + LevelsSet(levels);
      var seeded := mem.tombs + (if imm == null then [] else imm.tombs) + tombs;
      var it := new MergingIterator(ss, seeded, s);
      out := it.Collect();
      forall v ensures v in out <==> Readable(v, vs, tombs, s) {
        SameHiding(seeded, tombs, vs, s, v);
      }
      forall k | ValidKey(k) && Serves(s)
        ensures forall v | v in out && v.key == k :: Outcome(UpTo(hist, s), k) == Some(Unwrap(v.value))
        ensures Outcome(UpTo(hist, s), k).Some? ==> exists v :: v in out && v.key == k
      {
        ScanIsGet(vs, tombs, hist, k, s);
      }
      forall v | v in out ensures ValidKey(v.key) {
        ReadableKey(v, vs, tombs, s);
      }
    }

    // -------------------------------------------------------------- whole runs

    /** A step is sound unless it is a compaction that loses an output or breaks the order
        of a level. Only a rotation changes which memtables there are, and only a flush
        that can write the MANIFEST and a compaction change the levels. */
    method Step(c: Command) returns (warned: bool, sound: bool)
      requires Valid() && Allowed(c)
      modifies this, mem
      ensures sound <==> StepSound(old(levels), c)
      ensures Strict(old(levels)) && StepOpens(old(levels), c) ==>
                (warned <==> !StepApart(old(levels), c)) && (!warned ==> sound)
      ensures LevelsMove(old(levels), levels, c) && (sound ==> Valid() && LevelStep(old(levels), levels, c))
      ensures if c.DoRotate? && old(mem.HasContent()) && old(imm) == null then imm == old(mem) && fresh(mem) && !mem.HasContent()
              else mem == old(mem) && (!c.DoFlush? ==> imm == old(imm))
      ensures c.DoFlush? ==>
                if old(imm) != null && c.manifestOk
                then imm == null && Flushes(old(levels), levels, old(imm.entries), old(imm.tombs))
                else imm == old(imm) && levels == old(levels)
      ensures c.DoRotate? || c.DoFlush? || c.DoCompact0? || c.DoCompact? ==>
                old(mem).entries == old(mem.entries) && old(mem).tombs == old(mem.tombs)
      ensures sound && !warned && Strict(old(levels)) ==> Strict(levels)
      ensures hist == old(hist) + Logged(c) && (mem == old(mem) || fresh(mem))
      ensures sound ==> forall s | old(Serves(s)) && StepSpares(old(levels), c, s) :: Serves(s)
      ensures sound && !c.DoFlush? ==> Thinned(LevelsSet(old(levels)), LevelsSet(levels))
    {
      hide Valid, Shape, Strict, Compacts, Spares, LevelsSet, Serves, MergeOpens, MergeApart, MergeSound;
      warned, sound := false, true;
      HasLevels();
      var status := Ok;
      match c
      case DoPut(k, v, ok) => status := Put(k, v, ok);
      case DoDelete(k, ok) => status := Delete(k, ok);
      case DoDeleteRange(b, e, ok) => status := DeleteRange(b, e, ok);
      case DoBatch(ops, ok) => status := BatchWrite(ops, ok);
      case DoRotate =>
        if mem.HasContent() {
          TriggerFlush();
        }
      case DoFlush(ok) => FlushMemTable(ok);
      case DoCompact0(maxFiles, trigger, env, install) =>
        status, warned, sound := DoLevel0Compaction(maxFiles, trigger, env, install);
      case DoCompact(level, env, install) => status, warned, sound := DoLevelCompaction(level, env, install);
    }

    /** Every run keeps the invariant that makes Get answer from the history, through
        overlap warnings, up to its first compaction that is not sound; without a warning it
        keeps the levels strict, and there is none on strict levels while every compaction
        opens its outputs and cuts them between keys. A snapshot that every merge of the run
        spares stays served. `trace` holds the levels of the steps done. */
    method Run(cs: seq<Command>) returns (warned: bool, sound: bool, ghost trace: seq<seq<seq<Table>>>)
      requires Valid() && forall c | c in cs :: Allowed(c)
      modifies this, mem
      ensures sound ==> Valid() && hist == old(hist) + LoggedAll(cs)
      ensures sound && !warned && Strict(old(levels)) ==> Strict(levels)
      ensures 0 < |trace| <= |cs| + 1 && trace[0] == old(levels)
      ensures Traces(trace, cs[..|trace| - 1]) && RunSound(trace, cs[..|trace| - 1])
      ensures if sound then |trace| == |cs| + 1 && trace[|cs|] == levels
              else |trace| <= |cs| && !StepSound(trace[|trace| - 1], cs[|trace| - 1])
      ensures sound ==> Traces(trace, cs) && RunSound(trace, cs)
      ensures (forall c | c in cs :: !c.DoCompact0? && !c.DoCompact?) ==> sound
      ensures Strict(old(levels)) && (forall i | 0 <= i < |trace| && i < |cs| :: StepClean(trace[i], cs[i])) ==>
                sound && !warned && Strict(levels)
      ensures sound ==> forall s | old(Serves(s)) && RunSpares(trace, cs, s) :: Serves(s)
    {
      hide Valid, Shape, Strict, Allowed, Logged, LevelStep, LevelsMove, StepSpares, LevelsSet, Serves, StepOpens, StepApart,
        MergeSound, Flushes;
      warned, sound, trace := false, true, [levels];
      assert |levels| == NUM_LEVELS by {
        HasLevels();
      }
      for i := 0 to |cs|
        invariant sound && Valid() && hist == old(hist) + LoggedAll(cs[..i])
        invariant !warned && Strict(old(levels)) ==> Strict(levels)
        invariant mem == old(mem) || fresh(mem)
        invariant Traces(trace, cs[..i]) && RunSound(trace, cs[..i]) && trace[0] == old(levels) && trace[i] == levels
        invariant Strict(old(levels)) && (forall j | 0 <= j < i :: StepClean(trace[j], cs[j])) ==> !warned
        invariant forall s | old(Serves(s)) && RunSpares(trace, cs[..i], s) :: Serves(s)
      {
        assert cs[..i + 1][..i] == cs[..i];
        ghost var before := trace;
        label previous:
        var overlap;
        overlap, sound := Step(cs[i]);
        warned := warned || overlap;
        if !sound {
          assert cs[i] in cs;
          return;
        }
        trace := trace + [levels];
        HasLevels();
        TraceNext(before, levels, cs, i);
        SoundNext(before, levels, cs, i);
        forall s | old(Serves(s)) && RunSpares(trace, cs[..i + 1], s) ensures Serves(s) {
          SparesNext(before, levels, cs, i, s);
          assert old@previous(Serves(s));
        }
      }
      assert cs[..|cs|] == cs;
    }

    lemma HasLevels()
      requires Valid()
      ensures |levels| == NUM_LEVELS
    {
    }

    /** The refinement: after any run whose compactions are sound, a read answers from
        replaying the writes of the run behind the earlier history; a run that compacts
        nothing is one. */
    method RunThenGet(cs: seq<Command>, k: Bytes)
      returns (sound: bool, r: Option<Bytes>, ghost trace: seq<seq<seq<Table>>>)
      requires Valid() && ValidKey(k) && forall c | c in cs :: Allowed(c)
      requires forall p | 0 <= p < |hist + LoggedAll(cs)| :: NoPutThenRange((hist + LoggedAll(cs))[p])
      modifies this, mem
      ensures sound ==> r == Replay(old(hist) + LoggedAll(cs), k)
      ensures 0 < |trace| <= |cs| + 1 && trace[0] == old(levels)
      ensures Traces(trace, cs[..|trace| - 1]) && RunSound(trace, cs[..|trace| - 1])
      ensures if sound then |trace| == |cs| + 1 && trace[|cs|] == levels
              else |trace| <= |cs| && !StepSound(trace[|trace| - 1], cs[|trace| - 1])
      ensures (forall c | c in cs :: !c.DoCompact0? && !c.DoCompact?) ==> sound
      ensures Strict(old(levels)) && (forall i | 0 <= i < |trace| && i < |cs| :: StepClean(trace[i], cs[i])) ==> sound
    {
      hide Valid, Shape, NoPutThenRange, LoggedAll, Replay, Outcome, Allowed, Strict, Serves, RunSpares, RunSound, StepSound,
        StepClean, LevelStep;
      r := None;
      var warned;
      warned, sound, trace := Run(cs);
      if sound {
        r := Get(k, 0);
      }
    }

    /** A snapshot that every merge of the run spares reads after the run what it read
        before, as long as there was no overlap warning. That is so when every table
        version is visible to it and the run flushes nothing, and when every merge
        observes only snapshots at or below it. */
    method RunThenGetAt(cs: seq<Command>, k: Bytes, snapshot: nat)
      returns (warned: bool, sound: bool, r: Option<Bytes>, ghost trace: seq<seq<seq<Table>>>)
      requires Valid() && Strict(levels) && ValidKey(k) && forall c | c in cs :: Allowed(c)
      requires Serves(snapshot) && 0 < snapshot < |hist|
      modifies this, mem
      ensures sound ==> Traces(trace, cs) && trace[0] == old(levels) && trace[|cs|] == levels
      ensures 0 < |trace| <= |cs| + 1 && trace[0] == old(levels)
      ensures Traces(trace, cs[..|trace| - 1]) && RunSound(trace, cs[..|trace| - 1])
      ensures !sound ==> |trace| <= |cs| && !StepSound(trace[|trace| - 1], cs[|trace| - 1])
      ensures (forall c | c in cs :: !c.DoCompact0? && !c.DoCompact?) ==> sound
      ensures (forall i | 0 <= i < |trace| && i < |cs| :: StepClean(trace[i], cs[i])) ==> sound && !warned
      ensures sound && !warned && RunSpares(trace, cs, snapshot) ==> r == Outcome(UpTo(old(hist), snapshot), k)
      ensures sound && (forall v | v in LevelsSet(old(levels)) :: v.seqno <= snapshot) && (forall c | c in cs :: !c.DoFlush?) ==>
                RunSpares(trace, cs, snapshot)
      ensures sound && (forall c | c in cs :: Watched(c, snapshot)) ==> RunSpares(trace, cs, snapshot)
    {
      hide Valid, Shape, LoggedAll, Outcome, Allowed, Strict, NoPutThenRange, Replay, Serves, LevelsSet, RunSpares, Watched,
        RunSound, StepSound, StepClean, LevelStep;
      r := None;
      ghost var before := hist;
      warned, sound, trace := Run(cs);
      if sound {
        if (forall v | v in LevelsSet(old(levels)) :: v.seqno <= snapshot) && (forall c | c in cs :: !c.DoFlush?) {
          UnflushedSpared(trace, cs, snapshot);
        }
        if forall c | c in cs :: Watched(c, snapshot) {
          WatchedSpared(trace, cs, snapshot);
        }
        r := Get(k, snapshot);
        assert hist[..snapshot + 1] == before[..snapshot + 1];
      }
    }
  }

  /** The flags of a merge say whether it is sound. */
  lemma {:induction false} MergeOutcome(levels: seq<seq<Table>>, l: nat, take: nat, min: Bytes, max: Bytes, env: Compaction.Env,
                     install: Install, outs: seq<seq<Version>>, id: nat, tied: bool, lost: bool)
    requires l + 1 < |levels| && take <= |levels[l]| && Outputs(levels, l, take, min, max, env) == Some(outs)
    requires lost <==> exists i | 0 <= i < |outs| :: !install.openOk(i)
    requires !lost ==> (tied <==> AnyTied(Remaining(levels[l + 1], min, max), NewTables(outs, id)))
    ensures lost <==> !AllOpened(outs, install.openOk)
    ensures MergeSound(levels, l, take, min, max, env, install) <==> !lost && !tied
  {
    hide Outputs, AnyTied, Remaining;
    TiesIgnoreIds(Remaining(levels[l + 1], min, max), outs, id, 0);
    TiesIgnoreIds(Remaining(levels[l + 1], min, max), outs, 0, id);
  }

  lemma {:induction false} MergeThins(levels: seq<seq<Table>>, l: nat, take: nat, min: Bytes, max: Bytes,
                   outs: seq<seq<Version>>, lower: seq<Table>, observed: set<nat>)
    requires l + 1 < |levels| && take <= |levels[l]|
    requires Installed(levels, l, take, min, max, lower, Elems(Compaction.Flatten(outs)))
    requires Compaction.Merges(Inputs(levels, l, take, min, max), Compaction.Flatten(outs), observed)
    ensures Thinned(LevelsSet(levels), LevelsSet(Replaced(levels, l, take, lower)))
  {
    hide LevelsSet, Inputs, Installed, Replaced;
    var kept := Compaction.Flatten(outs);
    hide Compaction.Flatten;
    ReplacedSets(levels, l, take, min, max, lower, Elems(kept));
    var before, after := LevelsSet(levels), LevelsSet(Replaced(levels, l, take, lower));
    forall v | v in before && v !in after ensures exists w :: w in after && w.key == v.key && w.seqno > v.seqno {
      var w, o :| w in kept && o in observed && w.key == v.key && v.seqno < w.seqno <= o;
      assert w in Elems(kept);
    }
  }

  lemma InputsWithin(levels: seq<seq<Table>>, l: nat, take: nat, min: Bytes, max: Bytes)
    requires l + 1 < |levels| && take <= |levels[l]|
    ensures Inputs(levels, l, take, min, max) <= LevelsSet(levels)
  {
    hide LevelSet;
    SplitSets(levels[l + 1], min, max);
    LevelSetConcat(levels[l][..take], levels[l][take..]);
    assert levels[l] == levels[l][..take] + levels[l][take..];
    LevelSetConcat(levels[l][..take], Selected(levels[l + 1], min, max));
  }

  /** A merge of versions the snapshot can see spares it. */
  lemma SeenIsSpared(levels: seq<seq<Table>>, c: Command, s: nat)
    requires |levels| == NUM_LEVELS && forall v | v in LevelsSet(levels) :: v.seqno <= s
    ensures StepSpares(levels, c, s)
  {
    hide LevelsSet, Inputs, Chosen;
    if Chosen(levels, c).Some? {
      var m := Chosen(levels, c).value;
      InputsWithin(levels, m.level, m.take, m.min, m.max);
    }
  }

  lemma {:induction false} Unflushed(trace: seq<seq<seq<Table>>>, cs: seq<Command>, i: nat)
    requires Traces(trace, cs) && i <= |cs| && forall c | c in cs :: !c.DoFlush?
    ensures LevelsSet(trace[i]) <= LevelsSet(trace[0])
    decreases i
  {
    hide LevelsMove, LevelsSet;
    if i > 0 {
      Unflushed(trace, cs, i - 1);
      assert LevelStep(trace[i - 1], trace[i - 1 + 1], cs[i - 1]) && cs[i - 1] in cs;
    }
  }

  lemma UnflushedSpared(trace: seq<seq<seq<Table>>>, cs: seq<Command>, s: nat)
    requires Traces(trace, cs) && forall c | c in cs :: !c.DoFlush?
    requires forall v | v in LevelsSet(trace[0]) :: v.seqno <= s
    ensures RunSpares(trace, cs, s)
  {
    hide LevelStep, LevelsSet, StepSpares;
    forall i | 0 <= i < |cs| ensures StepSpares(trace[i], cs[i], s) {
      Unflushed(trace, cs, i);
      SeenIsSpared(trace[i], cs[i], s);
    }
  }

  lemma {:induction false} ObservedWithin(env: Compaction.Env, n: nat, s: nat)
    requires Watches(env, s)
    ensures forall o | o in Compaction.Observed(env, n) :: o <= s
  {
    if n > 0 {
      ObservedWithin(env, n - 1, s);
    }
  }

  lemma WatchedSpared(trace: seq<seq<seq<Table>>>, cs: seq<Command>, s: nat)
    requires Traces(trace, cs) && forall c | c in cs :: Watched(c, s)
    ensures RunSpares(trace, cs, s)
  {
    hide LevelStep, Inputs, MinKey, MaxKey, Compaction.Queries, Compaction.Observed;
    forall i | 0 <= i < |cs| ensures StepSpares(trace[i], cs[i], s) {
      var c := cs[i];
      assert c in cs;
      forall n: nat, env | Watches(env, s) ensures forall o | o in Compaction.Observed(env, n) :: o <= s {
        ObservedWithin(env, n, s);
      }
    }
  }

  lemma TraceNext(trace: seq<seq<seq<Table>>>, levels: seq<seq<Table>>, cs: seq<Command>, i: nat)
    requires i < |cs| && Traces(trace, cs[..i]) && |levels| == NUM_LEVELS && LevelStep(trace[i], levels, cs[i])
    ensures Traces(trace + [levels], cs[..i + 1])
  {
    hide LevelStep;
    var t, d := trace + [levels], cs[..i + 1];
    forall j | 0 <= j < |d| ensures LevelStep(t[j], t[j + 1], d[j]) {
      assert j < i ==> cs[..i][j] == d[j] && t[j] == trace[j] && t[j + 1] == trace[j + 1];
    }
  }

  lemma SoundNext(trace: seq<seq<seq<Table>>>, levels: seq<seq<Table>>, cs: seq<Command>, i: nat)
    requires i < |cs| && Traces(trace, cs[..i]) && Traces(trace + [levels], cs[..i + 1])
    requires RunSound(trace, cs[..i]) && StepSound(trace[i], cs[i])
    ensures RunSound(trace + [levels], cs[..i + 1])
  {
    hide StepSound, LevelStep;
    var t, d := trace + [levels], cs[..i + 1];
    forall j | 0 <= j < |d| ensures StepSound(t[j], d[j]) {
      assert j < i ==> StepSound(trace[j], cs[..i][j]);
    }
  }

  lemma SparesNext(trace: seq<seq<seq<Table>>>, levels: seq<seq<Table>>, cs: seq<Command>, i: nat, s: nat)
    requires i < |cs| && Traces(trace, cs[..i]) && Traces(trace + [levels], cs[..i + 1])
    requires RunSpares(trace + [levels], cs[..i + 1], s)
    ensures RunSpares(trace, cs[..i], s) && StepSpares(trace[i], cs[i], s)
  {
    hide StepSpares, LevelStep;
    var t, d := trace + [levels], cs[..i + 1];
    forall j | 0 <= j < i ensures StepSpares(trace[j], cs[..i][j], s) {
      assert StepSpares(t[j], d[j], s);
    }
    assert StepSpares(t[i], d[i], s);
  }

  lemma HiddenMore(some: seq<Tomb>, all: seq<Tomb>, k: Bytes, version: nat, s: nat)
    requires forall t | t in some :: t in all
    ensures Hidden(some, k, version, s) ==> Hidden(all, k, version, s)
  {
    if Hidden(some, k, version, s) {
      var i :| 0 <= i < |some| && Hides(some[i], k, version, s);
      assert some[i] in all;
      var j :| 0 <= j < |all| && all[j] == some[i];
      assert Hides(all[j], k, version, s);
    }
  }

  lemma IdsGrow(levels: seq<seq<Table>>, n: nat)
    requires IdsOK(levels, n) && levels != []
    ensures IdsOK(levels, n + 1) && forall i | 0 <= i < |levels[0]| :: levels[0][i].id < n
  {
    assert LevelIds(levels[0], n);
    forall l | 0 <= l < |levels| ensures LevelIds(levels[l], n + 1) {
      assert LevelIds(levels[l], n);
    }
  }

  /** A hit in the newer container decides, a miss leaves it to the older one. */
  lemma NewestAbove(v: Version, top: set<Version>, rest: set<Version>, bound: nat, k: Bytes, s: nat)
    requires IsNewest(v, top, k, s) && bound <= v.seqno && forall w | w in rest :: w.seqno < bound
    ensures IsNewest(v, top + rest, k, s)
  {
  }

  lemma BestBelow(best: Option<Version>, top: set<Version>, rest: set<Version>, k: Bytes, s: nat)
    requires NoneVisible(top, k, s) && BestOf(best, rest, k, s)
    ensures BestOf(best, top + rest, k, s)
  {
  }

  lemma {:induction false} SeenIsReplay(hist: seq<Write>, s: nat, k: Bytes)
    requires AllDistinct(hist) && forall p | 0 <= p < |hist| :: NoPutThenRange(hist[p])
    ensures Outcome(UpTo(hist, s), k) == Replay(UpTo(hist, s), k)
  {
    hide NoPutThenRange, Outcome, Replay;
    OutcomeIsReplay(UpTo(hist, s), k);
  }

  lemma MemFacts(entries: seq<Version>, tombs: seq<Tomb>, from: nat, to: nat)
    requires MemOK(entries, tombs, from, to)
    ensures Sorted(entries) && KeySorted(entries) && forall v | v in Elems(entries) :: from <= v.seqno < to
  {
    SortedKeys(entries);
  }

  lemma NoneInEmpty(k: Bytes, s: nat)
    ensures NoneVisible({}, k, s)
  {
  }

  lemma ReadableKey(v: Version, vs: set<Version>, tombs: seq<Tomb>, s: nat)
    requires Readable(v, vs, tombs, s) && forall w | w in vs :: w.key != []
    ensures ValidKey(v.key)
  {
  }

  lemma EmptySorted()
    ensures Sorted([])
  {
  }

  lemma CursorAdds(ss: seq<Cursor>, c: Cursor)
    ensures AllOf(ss + [c]) == AllOf(ss) + Elems(c.entries)
    ensures AllOf([]) == {} && [] + [c] == [c]
  {
    var r := ss + [c];
    forall v ensures v in AllOf(r) <==> v in AllOf(ss) || v in c.entries {
      if v in AllOf(ss) {
        var i :| 0 <= i < |ss| && v in ss[i].entries;
        assert v in r[i].entries;
      }
      assert r[|ss|] == c;
    }
  }

  lemma LevelSetSnoc(files: seq<Table>, i: nat)
    requires i < |files|
    ensures LevelSet(files[..i + 1]) == LevelSet(files[..i]) + Elems(files[i].entries)
  {
    assert files[..i + 1] == files[..i] + [files[i]];
    LevelSetConcat(files[..i], [files[i]]);
    LevelSetMembers([files[i]]);
    assert files[i] in [files[i]];
  }

  /** Within the levels a key and a sequence number name one version. */
  lemma LevelsDistinct(levels: seq<seq<Table>>)
    requires Laid(levels)
    ensures Distinct(LevelsSet(levels)) && forall v | v in LevelsSet(levels) :: v.key != []
  {
    hide Less;
    forall a, b | a in LevelsSet(levels) && b in LevelsSet(levels) && a.key == b.key && a.seqno == b.seqno
      ensures a == b
    {
      var l :| 0 <= l < |levels| && a in LevelSet(levels[l]);
      var m :| 0 <= m < |levels| && b in LevelSet(levels[m]);
      assert l == m;
      var i :| 0 <= i < |levels[l]| && a in levels[l][i].entries;
      var j :| 0 <= j < |levels[l]| && b in levels[l][j].entries;
      if i == j {
        SortedIsDistinct(levels[l][i].entries);
        assert a in Elems(levels[l][i].entries) && b in Elems(levels[l][i].entries);
      } else if l > 0 {
        if i < j {
          FilesOrdered(levels[l], i, j, a, b);
        } else {
          FilesOrdered(levels[l], j, i, b, a);
        }
      }
    }
  }

  lemma VersionsDistinct(mem: seq<Version>, imm: seq<Version>, levels: seq<seq<Table>>,
                         immFrom: nat, memFrom: nat)
    requires Sorted(mem) && forall v | v in mem :: ValidKey(v.key) && memFrom <= v.seqno
    requires Sorted(imm) && forall v | v in imm :: ValidKey(v.key) && immFrom <= v.seqno < memFrom
    requires Laid(levels) && forall v | v in LevelsSet(levels) :: v.seqno < immFrom
    requires immFrom <= memFrom
    ensures var vs := Elems(mem) + Elems(imm) + LevelsSet(levels);
            Distinct(vs) && forall v | v in vs :: v.key != []
  {
    hide Sorted, Laid, LevelsSet;
    SortedIsDistinct(mem);
    SortedIsDistinct(imm);
    LevelsDistinct(levels);
  }

  lemma LevelSetEmpty()
    ensures LevelSet([]) == {}
  {
  }

  lemma LevelSetCons(files: seq<Table>, i: nat)
    requires i < |files|
    ensures LevelSet(files[i..]) == LevelSet(files[i + 1..]) + Elems(files[i].entries)
  {
    LevelSetConcat([files[i]], files[i + 1..]);
    assert files[i..] == [files[i]] + files[i + 1..];
    LevelSetMembers([files[i]]);
    assert files[i] in [files[i]];
  }

  lemma LevelsSetNext(levels: seq<seq<Table>>, l: nat)
    requires l < |levels|
    ensures LevelsSet(levels[..l + 1]) == LevelsSet(levels[..l]) + LevelSet(levels[l])
    ensures LevelsSet(levels[..0]) == {}
  {
    hide LevelSet;
    assert forall m | 0 <= m < l :: levels[..l + 1][m] == levels[..l][m];
    assert levels[..l + 1][l] == levels[l];
  }

  lemma FilesInLevel(files: seq<Table>, t: Table)
    requires t in files
    ensures Elems(t.entries) <= LevelSet(files)
  {
    LevelSetMembers(files);
  }

  lemma BatchBounds(levels: seq<seq<Table>>, take: nat)
    requires Ordered(levels) && 0 < take <= |levels[0]|
    ensures InBounds(levels[0][..take], MinKey(levels[0][..take]), MaxKey(levels[0][..take]))
    ensures MinKey(levels[0][..take]) != []
  {
    hide Less;
    var batch := levels[0][..take];
    forall i | 0 <= i < |batch| ensures batch[i].Smallest() != [] && batch[i].Largest() != [] {
      assert WellFormed(levels[0][i]);
      assert batch[i].entries[0] in batch[i].entries && batch[i].entries[|batch[i].entries| - 1] in batch[i].entries;
    }
    RangeCovers(batch);
  }

  lemma FrontBounds(files: seq<Table>)
    requires files != []
    ensures InBounds(files[..1], files[0].Smallest(), files[0].Largest())
  {
    LessIrreflexive(files[0].Smallest());
    LessIrreflexive(files[0].Largest());
  }

  /** The level-0 part of Get: every file, newest first. */
  method SearchLevel0(files: seq<Table>, probes: nat, k: Bytes, s: nat) returns (best: Option<Version>)
    ensures (forall t | t in files :: WellFormed(t)) ==> BestOf(best, LevelSet(files), k, s)
  {
    hide WellFormed, LevelSet, BestOf;
    ghost var good := forall t | t in files :: WellFormed(t);
    best := None;
    NoneYet(k, s);
    assert files[|files|..] == [];
    for i := |files| downto 0
      invariant good ==> BestOf(best, LevelSet(files[i..]), k, s)
    {
      LevelSetCons(files, i);
      best := Consider(files[i], probes, k, s, best, LevelSet(files[i + 1..]));
    }
    assert files[0..] == files;
  }

  lemma NoneYet(k: Bytes, s: nat)
    ensures BestOf(None, LevelSet([]), k, s)
  {
  }

  /** The table part of Get: level 0, then one file of each deeper level. On levels that
      are not strict that file is only good for the latest state. */
  method SearchLevels(levels: seq<seq<Table>>, probes: nat, k: Bytes, s: nat) returns (best: Option<Version>)
    requires |levels| == NUM_LEVELS
    ensures Laid(levels) && (Strict(levels) || forall v | v in LevelsSet(levels) :: v.seqno <= s) ==>
              BestOf(best, LevelsSet(levels), k, s)
  {
    hide Laid, LevelsSet, WellFormed, LevelSet, LevelSorted, LevelOK, Strict, BestOf;
    ghost var exact := Laid(levels) && (Strict(levels) || forall v | v in LevelsSet(levels) :: v.seqno <= s);
    if exact {
      LaidIsOrdered(levels);
      LevelTables(levels, 0);
    }
    best := SearchLevel0(levels[0], probes, k, s);
    LevelsSetNext(levels, 0);
    assert LevelsSet(levels[..1]) == LevelSet(levels[0]);
    for l := 1 to NUM_LEVELS
      invariant exact ==> BestOf(best, LevelsSet(levels[..l]), k, s)
    {
      LevelsSetNext(levels, l);
      if exact {
        LaidIsOrdered(levels);
        LevelBelow(levels, l);
      }
      best := SearchLevel(levels[l], probes, k, s, best, LevelsSet(levels[..l]));
    }
    assert levels[..NUM_LEVELS] == levels;
  }

  /** One deeper level of Get: the one file that can hold the key. */
  method SearchLevel(files: seq<Table>, probes: nat, k: Bytes, s: nat, best: Option<Version>, ghost seen: set<Version>)
    returns (r: Option<Version>)
    ensures LevelSorted(files) && BestOf(best, seen, k, s) && (LevelOK(files) || forall v | v in LevelSet(files) :: v.seqno <= s) ==>
              BestOf(r, seen + LevelSet(files), k, s)
  {
    hide WellFormed, Precedes, LevelSet, BestOf, HoldsNewest;
    r := best;
    var file := FileFor(files, k);
    if file.Some? {
      FilesInLevel(files, file.value);
      assert LevelSorted(files) ==> WellFormed(file.value);
      r := Consider(file.value, probes, k, s, best, seen);
    }
    if LevelSorted(files) && BestOf(best, seen, k, s) && (LevelOK(files) || forall v | v in LevelSet(files) :: v.seqno <= s) {
      hide LevelSorted, LevelOK;
      ConsultedIsBest(files, file, best, r, seen, k, s);
    }
  }

  lemma LevelBelow(levels: seq<seq<Table>>, l: nat)
    requires Ordered(levels) && 0 < l < NUM_LEVELS
    ensures LevelSorted(levels[l]) && LevelSet(levels[l]) <= LevelsSet(levels)
    ensures Strict(levels) ==> LevelOK(levels[l])
  {
    hide LevelSorted, LevelOK, LevelSet, WellFormed, Stacked;
  }

  /** Asking the consulted file is asking the whole level: always on a disjoint level, and
      on a sorted one when every version is visible. */
  lemma ConsultedIsBest(files: seq<Table>, file: Option<Table>, before: Option<Version>, best: Option<Version>,
                        seen: set<Version>, k: Bytes, s: nat)
    requires if file.Some? then BestOf(best, seen + Elems(file.value.entries), k, s) && Elems(file.value.entries) <= LevelSet(files)
             else best == before && BestOf(best, seen, k, s)
    requires forall v | v in LevelSet(files) && v.key == k :: file.Some? && HoldsNewest(file.value, v)
    requires (forall v | v in LevelSet(files) && v.key == k :: file.Some? && v in file.value.entries)
             || forall v | v in LevelSet(files) :: v.seqno <= s
    ensures BestOf(best, seen + LevelSet(files), k, s)
  {
    hide LevelSet;
    forall v | v in LevelSet(files) && Visible(v, k, s)
      ensures exists w :: file.Some? && w in file.value.entries && Visible(w, k, s) && w.seqno >= v.seqno
    {
      assert file.Some? && HoldsNewest(file.value, v);
      var w :| w in file.value.entries && w.key == v.key && w.seqno >= v.seqno;
      if v !in file.value.entries {
        assert w in Elems(file.value.entries);
        assert Visible(w, k, s);
      }
    }
  }

  /** Taking a table out again by its id: it is the only file with that id. */
  method Withdraw(files: seq<Table>, t: Table) returns (r: seq<Table>)
    requires forall i | 0 <= i < |files| :: files[i].id < t.id
    ensures r == files
  {
    var all := files + [t];
    r := RemoveId(all, t.id);
    WithoutIdNext(all, |files|, t.id);
    WithoutIdSame(files, t.id);
    assert all[..|files|] == files && all[..|files| + 1] == all && files + [] == files;
  }

  lemma {:induction false} PointVersionsBounds(w: Write, q: nat)
    ensures PointVersions([], q) == {} && RangeTombs([], q) == []
    ensures ValidKeys(w) ==> forall v | v in PointVersions(w, q) :: v.seqno == q && ValidKey(v.key)
  {
  }

  lemma {:induction false} MemAfterWrite(before: seq<Version>, tombs: seq<Tomb>, from: nat, q: nat, w: Write, entries: seq<Version>)
    requires MemOK(before, tombs, from, q) && ValidKeys(w) && from <= q
    requires TombsOK(tombs + RangeTombs(w, q), from, q + 1)
    requires Sorted(entries) && Elems(entries) == Elems(before) + PointVersions(w, q)
    ensures MemOK(entries, tombs + RangeTombs(w, q), from, q + 1)
  {
    PointVersionsBounds(w, q);
    forall v | v in entries ensures ValidKey(v.key) && from <= v.seqno < q + 1 {
      assert v in Elems(entries);
      assert v in Elems(before) ==> v in before;
    }
  }

  /** The memtable side of a write: every operation with the same sequence number. */
  method ApplyOps(mem: MemTable, w: Write, q: nat)
    requires Sorted(mem.entries) && DistinctKeys(w)
    requires forall v | v in mem.entries :: v.seqno < q
    modifies mem
    ensures Sorted(mem.entries) && Elems(mem.entries) == Elems(old(mem.entries)) + PointVersions(w, q)
    ensures mem.entries == Applied(old(mem.entries), w, q)
    ensures mem.tombs == old(mem.tombs) + RangeTombs(w, q)
  {
    hide Sorted, Linked;
    PointVersionsBounds(w, q);
    for i := 0 to |w|
      invariant Sorted(mem.entries) && mem.entries == Applied(old(mem.entries), w[..i], q)
      invariant Elems(mem.entries) == Elems(old(mem.entries)) + PointVersions(w[..i], q)
      invariant mem.tombs == old(mem.tombs) + RangeTombs(w[..i], q)
    {
      assert w[..i + 1][..i] == w[..i];
      if w[i].DeleteRange? {
        mem.InsertRangeDeletion(Tomb(w[i].begin, w[i].end, q));
      } else {
        NewestInMem(mem.entries, old(mem.entries), w, i, q);
        SortedKeys(mem.entries);
        mem.Insert(VersionOf(w[i], q));
      }
      PointVersionsNext(w, i, q);
    }
    assert w[..|w|] == w;
  }

  lemma PointVersionsNext(w: Write, i: nat, q: nat)
    requires i < |w|
    ensures PointVersions(w[..i + 1], q)
            == PointVersions(w[..i], q) + if w[i].DeleteRange? then {} else {VersionOf(w[i], q)}
  {
    assert forall j | 0 <= j < i :: w[..i + 1][j] == w[..i][j];
    assert w[..i + 1][i] == w[i];
  }

  /** The version being inserted is newer than all others of its key. */
  lemma NewestInMem(entries: seq<Version>, before: seq<Version>, w: Write, i: nat, q: nat)
    requires DistinctKeys(w) && i < |w| && !w[i].DeleteRange?
    requires Elems(entries) == Elems(before) + PointVersions(w[..i], q)
    requires forall v | v in before :: v.seqno < q
    ensures forall v | v in entries && v.key == w[i].key :: v.seqno < q
  {
    assert OnKey(w[i], w[i].key);
    forall v | v in entries && v.key == w[i].key ensures v.seqno < q {
      assert v in Elems(entries);
      assert v in Elems(before) ==> v in before;
      forall j | 0 <= j < i && !w[j].DeleteRange? ensures v != VersionOf(w[j], q) {
        assert OnKey(w[j], w[j].key);
      }
    }
  }
}
