/** The storage engine: writes go to a memtable, memtables are rotated and flushed to
    level 0, compactions push tables down, and Get answers from all of them. */
module Engine {
  import opened Bytes
  import opened Versions
  import opened History
  import opened MemTables
  import opened Levels
  import opened VersionSet
  import Compaction
  import Bloom

  const NUM_LEVELS := 7

  // ---------------------------------------------------------------- flushing

  /** CompareInternalKeys: key ascending, then newer first, then values first. */
  predicate InternalLess(a: Version, b: Version) {
    || Less(a.key, b.key)
    || (a.key == b.key && (a.seqno > b.seqno || (a.seqno == b.seqno && a.kind == Value && b.kind == Deletion)))
  }

  function InsertSorted(t: seq<Version>, v: Version): seq<Version> {
    if t == [] then [v]
    else if InternalLess(v, t[0]) then [v] + t
    else [t[0]] + InsertSorted(t[1..], v)
  }

  ghost predicate Fresh(t: seq<Version>, v: Version) {
    forall w | w in t :: !(w.key == v.key && w.seqno == v.seqno)
  }

  lemma {:induction false} InsertSortedOK(t: seq<Version>, v: Version)
    requires Sorted(t) && Fresh(t, v)
    ensures Sorted(InsertSorted(t, v)) && Elems(InsertSorted(t, v)) == Elems(t) + {v}
  {
    hide Less;
    TotalOrder();
    if t != [] {
      assert forall w | w in t[1..] :: Before(t[0], w);
      if InternalLess(v, t[0]) {
        assert forall w | w in t :: Before(v, w);
      } else {
        InsertSortedOK(t[1..], v);
        assert t[0] in t;
        var rest := InsertSorted(t[1..], v);
        assert forall i | 0 <= i < |rest| :: rest[i] in Elems(rest);
      }
    }
  }

  /** The entries of a flush, sorted into table order. */
  method SortEntries(es: seq<Version>) returns (t: seq<Version>)
    requires forall i, j | 0 <= i < j < |es| :: !(es[i].key == es[j].key && es[i].seqno == es[j].seqno)
    ensures Sorted(t) && Elems(t) == Elems(es)
  {
    t := [];
    for i := 0 to |es|
      invariant Sorted(t) && Elems(t) == Elems(es[..i])
    {
      forall w | w in t ensures !(w.key == es[i].key && w.seqno == es[i].seqno) {
        assert w in Elems(es[..i]);
      }
      InsertSortedOK(t, es[i]);
      t := InsertSorted(t, es[i]);
      assert es[..i + 1] == es[..i] + [es[i]];
    }
    assert es[..|es|] == es;
  }

  /** The synthetic entry a range tombstone becomes on disk. */
  function MarkerOf(t: Tomb): Version {
    Version(MARKER + t.begin, t.seqno, Value, t.end)
  }

  // ---------------------------------------------------------------- invariants

  ghost predicate MemOK(entries: seq<Version>, tombs: seq<Tomb>, from: nat, to: nat) {
    && Sorted(entries)
    && (forall v | v in entries :: ValidKey(v.key) && from <= v.seqno < to)
    && TombsOK(tombs, from, to)
  }

  ghost predicate TombsOK(tombs: seq<Tomb>, from: nat, to: nat) {
    && (forall t | t in tombs :: from <= t.seqno < to)
    && forall i, j | 0 <= i < j < |tombs| && tombs[i].begin == tombs[j].begin :: tombs[i].seqno != tombs[j].seqno
  }

  /** Levels from 1 on are sorted. */
  ghost predicate Ordered(levels: seq<seq<Table>>) {
    && |levels| == NUM_LEVELS
    && (forall i | 0 <= i < |levels[0]| :: WellFormed(levels[0][i]))
    && forall l | 1 <= l < NUM_LEVELS :: LevelSorted(levels[l])
  }

  /** No version lies in two levels. */
  ghost predicate Unshared(levels: seq<seq<Table>>) {
    forall l, m, a, b | 0 <= l < m < |levels| && a in LevelSet(levels[l]) && b in LevelSet(levels[m]) ::
      !(a.key == b.key && a.seqno == b.seqno)
  }

  /** What every compaction keeps as long as no tie puts a file on the wrong side. */
  ghost predicate Laid(levels: seq<seq<Table>>) {
    Ordered(levels) && StackedTop(levels) && Unshared(levels)
  }

  /** What every compaction without an overlap warning keeps besides: levels are disjoint,
      and newer versions lie above older ones. */
  ghost predicate Strict(levels: seq<seq<Table>>) {
    LevelsOK(levels) && Stacked(levels)
  }

  lemma StrictIsLaid(levels: seq<seq<Table>>)
    requires Strict(levels)
    ensures Laid(levels)
  {
    hide LevelSet, LevelOK, LevelSorted, WellFormed;
    StackedIs(levels);
    forall l | 1 <= l < NUM_LEVELS ensures LevelSorted(levels[l]) {
      DisjointIsSorted(levels[l]);
    }
  }

  ghost predicate LevelsOK(levels: seq<seq<Table>>) {
    && |levels| == NUM_LEVELS
    && (forall i | 0 <= i < |levels[0]| :: WellFormed(levels[0][i]))
    && forall l | 1 <= l < NUM_LEVELS :: LevelOK(levels[l])
  }

  /** File ids are never reused. */
  ghost predicate IdsOK(levels: seq<seq<Table>>, nextId: nat) {
    forall l | 0 <= l < |levels| :: LevelIds(levels[l], nextId)
  }

  ghost predicate LevelIds(files: seq<Table>, nextId: nat) {
    && (forall t | t in files :: t.id < nextId)
    && forall t, u | t in files && u in files && t.id == u.id :: t == u
  }

  /** A newer version of a key never lies below an older one. */
  ghost predicate Stacked(levels: seq<seq<Table>>) {
    && (forall l, m, a, b | 0 <= l < m < |levels| && a in LevelSet(levels[l]) && b in LevelSet(levels[m]) ::
          a.key == b.key ==> a.seqno > b.seqno)
    && (levels != [] ==>
          forall i, j, a, b | 0 <= i < j < |levels[0]| && a in levels[0][i].entries && b in levels[0][j].entries ::
            a.key == b.key ==> a.seqno < b.seqno)
  }

  ghost function LevelsSet(levels: seq<seq<Table>>): set<Version> {
    set l, v | 0 <= l < |levels| && v in LevelSet(levels[l]) :: v
  }

  function SourcesOf(ts: seq<Table>): (r: seq<Compaction.Source>)
    ensures |r| == |ts| && forall i | 0 <= i < |ts| :: r[i] == Compaction.Source(ts[i].id, ts[i].entries)
  {
    seq(|ts|, i requires 0 <= i < |ts| => Compaction.Source(ts[i].id, ts[i].entries))
  }

  lemma SourcesSet(ts: seq<Table>)
    ensures Compaction.InputSet(SourcesOf(ts)) == LevelSet(ts)
  {
  }

  lemma InLevelSet(files: seq<Table>, t: Table, v: Version)
    requires t in files && v in t.entries
    ensures v in LevelSet(files)
  {
    var i :| 0 <= i < |files| && files[i] == t;
    assert v in files[i].entries;
  }

  lemma InputsDiffer(levels: seq<seq<Table>>, l: nat, take: nat, selected: seq<Table>,
                     i: nat, j: nat, a: Version, b: Version)
    requires Laid(levels) && l + 1 < NUM_LEVELS && take <= |levels[l]|
    requires LevelSorted(selected) && forall t | t in selected :: t in levels[l + 1]
    requires i < j < take + |selected|
    requires a in (levels[l][..take] + selected)[i].entries && b in (levels[l][..take] + selected)[j].entries
    ensures !(a.key == b.key && a.seqno == b.seqno)
  {
    hide LevelSet, LevelSorted, WellFormed;
    if take <= i {
      FilesOrdered(selected, i - take, j - take, a, b);
    } else if take <= j {
      InLevelSet(levels[l], levels[l][i], a);
      assert selected[j - take] in selected;
      InLevelSet(levels[l + 1], selected[j - take], b);
    } else if l > 0 {
      FilesOrdered(levels[l], i, j, a, b);
    }
  }

  lemma LevelTables(levels: seq<seq<Table>>, l: nat)
    requires Ordered(levels) && l < NUM_LEVELS
    ensures forall t | t in levels[l] :: WellFormed(t)
  {
    hide WellFormed, Precedes;
    assert l > 0 ==> LevelSorted(levels[l]);
  }

  /** The inputs of a compaction from level `l` are sorted and share no version. */
  lemma SourcesOK(levels: seq<seq<Table>>, l: nat, take: nat, selected: seq<Table>)
    requires Laid(levels) && l + 1 < NUM_LEVELS && take <= |levels[l]|
    requires LevelSorted(selected) && forall t | t in selected :: t in levels[l + 1]
    ensures Compaction.WellFormed(SourcesOf(levels[l][..take] + selected))
  {
    hide StackedTop, Unshared, LevelSorted;
    var ts := levels[l][..take] + selected;
    LevelTables(levels, l);
    LevelTables(levels, l + 1);
    hide Ordered;
    forall i | 0 <= i < |ts| ensures Sorted(ts[i].entries) {
      assert i < take ==> ts[i] in levels[l];
      assert i >= take ==> ts[i] in selected;
    }
    forall i, j, a, b | 0 <= i < j < |ts| && a in ts[i].entries && b in ts[j].entries
      ensures !(a.key == b.key && a.seqno == b.seqno)
    {
      InputsDiffer(levels, l, take, selected, i, j, a, b);
    }
  }

  // ---------------------------------------------------------------- replacing files

  lemma LevelSetConcat(xs: seq<Table>, ys: seq<Table>)
    ensures LevelSet(xs + ys) == LevelSet(xs) + LevelSet(ys)
  {
    LevelSetMembers(xs + ys);
    LevelSetMembers(xs);
    LevelSetMembers(ys);
  }

  lemma {:induction false} SplitSets(files: seq<Table>, min: Bytes, max: Bytes)
    ensures LevelSet(files) == LevelSet(Selected(files, min, max)) + LevelSet(Remaining(files, min, max))
  {
    hide LevelSet, Overlaps;
    SplitMembers(files, min, max);
    LevelSetMembers(files);
    LevelSetMembers(Selected(files, min, max));
    LevelSetMembers(Remaining(files, min, max));
  }

  /** The levels after the first `take` files of level `l` went down into `lower`. */
  function Replaced(levels: seq<seq<Table>>, l: nat, take: nat, lower: seq<Table>): (r: seq<seq<Table>>)
    requires l + 1 < |levels| && take <= |levels[l]|
    ensures |r| == |levels|
  {
    levels[l := levels[l][take..]][l + 1 := lower]
  }

  ghost function Inputs(levels: seq<seq<Table>>, l: nat, take: nat, min: Bytes, max: Bytes): set<Version>
    requires l + 1 < |levels| && take <= |levels[l]|
  {
    LevelSet(levels[l][..take] + Selected(levels[l + 1], min, max))
  }

  /** `lower` is what stayed of level l + 1 plus what the merge kept. */
  ghost predicate Installed(levels: seq<seq<Table>>, l: nat, take: nat, min: Bytes, max: Bytes,
                            lower: seq<Table>, kept: set<Version>)
    requires l + 1 < |levels| && take <= |levels[l]|
  {
    && kept <= Inputs(levels, l, take, min, max)
    && LevelSet(lower) == LevelSet(Remaining(levels[l + 1], min, max)) + kept
  }

  lemma ReplacedLevels(levels: seq<seq<Table>>, l: nat, take: nat, min: Bytes, max: Bytes,
                       lower: seq<Table>, kept: set<Version>)
    requires l + 1 < |levels| && take <= |levels[l]|
    requires Installed(levels, l, take, min, max, lower, kept)
    ensures LevelSet(levels[l]) == LevelSet(levels[l][..take]) + LevelSet(levels[l][take..])
    ensures LevelSet(lower) <= LevelSet(levels[l + 1]) + LevelSet(levels[l][..take])
    ensures LevelSet(levels[l + 1]) <= LevelSet(lower) + Inputs(levels, l, take, min, max)
    ensures Inputs(levels, l, take, min, max) <= LevelSet(levels[l]) + LevelSet(levels[l + 1])
    ensures LevelSet(levels[l][..take]) <= Inputs(levels, l, take, min, max)
  {
    hide LevelSet;
    SplitSets(levels[l + 1], min, max);
    assert levels[l] == levels[l][..take] + levels[l][take..];
    LevelSetConcat(levels[l][..take], levels[l][take..]);
    LevelSetConcat(levels[l][..take], Selected(levels[l + 1], min, max));
  }

  lemma ReplacedSets(levels: seq<seq<Table>>, l: nat, take: nat, min: Bytes, max: Bytes,
                     lower: seq<Table>, kept: set<Version>)
    requires l + 1 < |levels| && take <= |levels[l]|
    requires Installed(levels, l, take, min, max, lower, kept)
    ensures var old', new' := LevelsSet(levels), LevelsSet(Replaced(levels, l, take, lower));
            var inputs := Inputs(levels, l, take, min, max);
            inputs <= old' && new' <= old' && old' <= new' + inputs && kept <= new'
  {
    hide LevelSet;
    ReplacedLevels(levels, l, take, min, max, lower, kept);
    var levels' := Replaced(levels, l, take, lower);
    assert forall m | 0 <= m < |levels| && m != l && m != l + 1 :: levels'[m] == levels[m];
    assert levels'[l] == levels[l][take..] && levels'[l + 1] == lower;
  }

  /** Taking files down keeps newer versions above older ones. */
  lemma ReplacedStacked(levels: seq<seq<Table>>, l: nat, take: nat, min: Bytes, max: Bytes,
                        lower: seq<Table>, kept: set<Version>)
    requires LevelsOK(levels) && Stacked(levels) && l + 1 < NUM_LEVELS && take <= |levels[l]|
    requires Installed(levels, l, take, min, max, lower, kept)
    ensures Stacked(Replaced(levels, l, take, lower))
  {
    hide LevelSet, Less, Installed, Stacked;
    assert |levels| == NUM_LEVELS;
    var levels' := Replaced(levels, l, take, lower);
    assert StackedApart(levels') by {
      hide LevelsOK;
      forall x, y, a, b | 0 <= x < y < |levels'| && a in LevelSet(levels'[x]) && b in LevelSet(levels'[y]) && a.key == b.key
        ensures a.seqno > b.seqno
      {
        ReplacedPair(levels, l, take, min, max, lower, kept, x, y, a, b);
      }
    }
    assert StackedTop(levels') by {
      StackedIs(levels);
      ReplacedTop(levels, l, take, lower);
    }
    StackedIs(levels');
  }

  ghost predicate StackedApart(levels: seq<seq<Table>>) {
    forall l, m, a, b | 0 <= l < m < |levels| && a in LevelSet(levels[l]) && b in LevelSet(levels[m]) && a.key == b.key ::
      a.seqno > b.seqno
  }

  ghost predicate StackedTop(levels: seq<seq<Table>>) {
    levels != [] ==>
      forall i, j, a, b | 0 <= i < j < |levels[0]| && a in levels[0][i].entries && b in levels[0][j].entries && a.key == b.key ::
        a.seqno < b.seqno
  }

  lemma StackedIs(levels: seq<seq<Table>>)
    ensures Stacked(levels) <==> StackedApart(levels) && StackedTop(levels)
  {
    hide LevelSet;
  }

  lemma ReplacedTop(levels: seq<seq<Table>>, l: nat, take: nat, lower: seq<Table>)
    requires StackedTop(levels) && l + 1 < |levels| && take <= |levels[l]|
    ensures StackedTop(Replaced(levels, l, take, lower))
  {
    hide LevelSet;
    var levels': seq<seq<Table>> := Replaced(levels, l, take, lower);
    forall i, j, a, b | 0 <= i < j < |levels'[0]| && a in levels'[0][i].entries && b in levels'[0][j].entries && a.key == b.key
      ensures a.seqno < b.seqno
    {
      var d := if l == 0 then take else 0;
      assert levels'[0][i] == levels[0][i + d] && levels'[0][j] == levels[0][j + d];
    }
  }

  lemma ReplacedPair(levels: seq<seq<Table>>, l: nat, take: nat, min: Bytes, max: Bytes,
                     lower: seq<Table>, kept: set<Version>, x: nat, y: nat, a: Version, b: Version)
    requires LevelsOK(levels) && Stacked(levels) && l + 1 < NUM_LEVELS && take <= |levels[l]|
    requires Installed(levels, l, take, min, max, lower, kept)
    requires x < y < |levels| == NUM_LEVELS && a.key == b.key
    requires a in LevelSet(Replaced(levels, l, take, lower)[x]) && b in LevelSet(Replaced(levels, l, take, lower)[y])
    ensures a.seqno > b.seqno
  {
    hide LevelSet, Less, Installed, LevelsOK;
    ReplacedLevels(levels, l, take, min, max, lower, kept);
    var levels' := Replaced(levels, l, take, lower);
    assert x != l && x != l + 1 ==> levels'[x] == levels[x];
    assert y != l && y != l + 1 ==> levels'[y] == levels[y];
    if x == l && y == l + 1 && b in LevelSet(levels[l][..take]) {
      TakenIsOlder(levels, l, take, a, b);
    }
  }

  lemma FileHolding(files: seq<Table>, v: Version) returns (i: nat)
    requires v in LevelSet(files)
    ensures i < |files| && v in files[i].entries
  {
    i :| 0 <= i < |files| && v in files[i].entries;
  }

  /** What stays in level `l` is newer than what was taken, key by key. */
  lemma TakenIsOlder(levels: seq<seq<Table>>, l: nat, take: nat, a: Version, b: Version)
    requires LevelsOK(levels) && Stacked(levels) && l + 1 < NUM_LEVELS && take <= |levels[l]|
    requires a in LevelSet(levels[l][take..]) && b in LevelSet(levels[l][..take]) && a.key == b.key
    ensures a.seqno > b.seqno
  {
    hide Less, LevelSet, Stacked, WellFormed;
    var i := FileHolding(levels[l][take..], a);
    var j := FileHolding(levels[l][..take], b);
    assert levels[l][take + i] == levels[l][take..][i] && levels[l][j] == levels[l][..take][j];
    StackedIs(levels);
    if l > 0 {
      FilesDiffer(levels[l], j, take + i, b, a);
      assert false;
    }
  }

  /** Taking files down puts no version into two levels. */
  lemma ReplacedUnshared(levels: seq<seq<Table>>, l: nat, take: nat, min: Bytes, max: Bytes,
                         lower: seq<Table>, kept: set<Version>)
    requires Laid(levels) && l + 1 < NUM_LEVELS && take <= |levels[l]|
    requires Installed(levels, l, take, min, max, lower, kept)
    ensures Unshared(Replaced(levels, l, take, lower))
  {
    assert |levels| == NUM_LEVELS;
    hide LevelSet, Installed, Laid;
    var levels' := Replaced(levels, l, take, lower);
    forall x, y, a, b | 0 <= x < y < |levels'| && a in LevelSet(levels'[x]) && b in LevelSet(levels'[y])
      ensures !(a.key == b.key && a.seqno == b.seqno)
    {
      UnsharedPair(levels, l, take, min, max, lower, kept, x, y, a, b);
    }
  }

  lemma UnsharedPair(levels: seq<seq<Table>>, l: nat, take: nat, min: Bytes, max: Bytes,
                     lower: seq<Table>, kept: set<Version>, x: nat, y: nat, a: Version, b: Version)
    requires Laid(levels) && l + 1 < NUM_LEVELS && take <= |levels[l]|
    requires Installed(levels, l, take, min, max, lower, kept)
    requires x < y < |levels|
    requires a in LevelSet(Replaced(levels, l, take, lower)[x]) && b in LevelSet(Replaced(levels, l, take, lower)[y])
    ensures !(a.key == b.key && a.seqno == b.seqno)
  {
    assert |levels| == NUM_LEVELS;
    hide LevelSet, Installed, StackedTop, Ordered;
    ReplacedLevels(levels, l, take, min, max, lower, kept);
    var levels' := Replaced(levels, l, take, lower);
    assert x != l && x != l + 1 ==> levels'[x] == levels[x];
    assert y != l && y != l + 1 ==> levels'[y] == levels[y];
    if x == l && y == l + 1 && b in LevelSet(levels[l][..take]) {
      TakenDiffers(levels, l, take, a, b);
    }
  }

  lemma TakenDiffers(levels: seq<seq<Table>>, l: nat, take: nat, a: Version, b: Version)
    requires Laid(levels) && l + 1 < NUM_LEVELS && take <= |levels[l]|
    requires a in LevelSet(levels[l][take..]) && b in LevelSet(levels[l][..take])
    ensures !(a.key == b.key && a.seqno == b.seqno)
  {
    hide LevelSet, LevelSorted, WellFormed, Unshared;
    var i := FileHolding(levels[l][take..], a);
    var j := FileHolding(levels[l][..take], b);
    assert levels[l][take + i] == levels[l][take..][i] && levels[l][j] == levels[l][..take][j];
    if l > 0 {
      FilesOrdered(levels[l], j, take + i, b, a);
    }
  }

  // ---------------------------------------------------------------- merging down

  ghost predicate InBounds(files: seq<Table>, min: Bytes, max: Bytes) {
    forall i | 0 <= i < |files| :: LessEq(min, files[i].Smallest()) && LessEq(files[i].Largest(), max)
  }

  function MergeSources(levels: seq<seq<Table>>, l: nat, take: nat, min: Bytes, max: Bytes): seq<Compaction.Source>
    requires l + 1 < |levels| && take <= |levels[l]|
  {
    SourcesOf(levels[l][..take] + Selected(levels[l + 1], min, max))
  }

  /** What DoCompaction is given from levels l and l + 1. */
  lemma MergeInputs(levels: seq<seq<Table>>, l: nat, take: nat, min: Bytes, max: Bytes)
    requires Laid(levels) && l + 1 < NUM_LEVELS && take <= |levels[l]|
    ensures Compaction.WellFormed(MergeSources(levels, l, take, min, max))
    ensures Compaction.InputSet(MergeSources(levels, l, take, min, max)) == Inputs(levels, l, take, min, max)
  {
    hide StackedTop, Unshared, Overlaps, WellFormed, LevelSet, LevelSorted;
    SplitSorted(levels[l + 1], min, max);
    SplitMembers(levels[l + 1], min, max);
    SourcesOK(levels, l, take, Selected(levels[l + 1], min, max));
    SourcesSet(levels[l][..take] + Selected(levels[l + 1], min, max));
  }

  /** The outputs as files with fresh ids. */
  function NewTables(outs: seq<seq<Version>>, id: nat): (r: seq<Table>)
    ensures |r| == |outs| && forall i | 0 <= i < |outs| :: r[i] == Table(id + i, outs[i])
  {
    seq(|outs|, i requires 0 <= i < |outs| => Table(id + i, outs[i]))
  }

  lemma {:induction false} NewTablesSet(outs: seq<seq<Version>>, id: nat)
    requires Sorted(Compaction.Flatten(outs))
    ensures LevelSet(NewTables(outs, id)) == Elems(Compaction.Flatten(outs))
  {
    Compaction.FlattenSorted(outs);
  }

  /** A merged key lies in the hull of what was merged, and is not empty. */
  lemma InputInHull(levels: seq<seq<Table>>, l: nat, take: nat, min: Bytes, max: Bytes, v: Version)
    requires Ordered(levels) && l + 1 < NUM_LEVELS && take <= |levels[l]|
    requires InBounds(levels[l][..take], min, max) && v in Inputs(levels, l, take, min, max)
    ensures InHull(v.key, levels[l + 1], min, max) && InMerge(v, levels[l + 1], min, max) && v.key != []
  {
    hide Less, Overlaps, LevelSorted;
    LevelTables(levels, l);
    LevelTables(levels, l + 1);
    var picked, selected := levels[l][..take], Selected(levels[l + 1], min, max);
    var both := picked + selected;
    var i :| 0 <= i < |both| && v in both[i].entries;
    if i < take {
      assert picked[i] == levels[l][i];
      InRange(levels[l][i], v);
      TotalOrder();
    } else {
      var t := selected[i - take];
      assert t in selected && v in t.entries;
      SplitMembers(levels[l + 1], min, max);
    }
  }

  /** Outputs cut between keys fit into what stayed of the lower level. */
  lemma {:induction false} OutputsFit(levels: seq<seq<Table>>, l: nat, take: nat, min: Bytes, max: Bytes,
                   outs: seq<seq<Version>>, id: nat)
    requires LevelsOK(levels) && l + 1 < NUM_LEVELS && take <= |levels[l]|
    requires InBounds(levels[l][..take], min, max)
    requires Compaction.AllNonEmpty(outs) && Compaction.CutBetweenKeys(outs) && Sorted(Compaction.Flatten(outs))
    requires forall v | v in Compaction.Flatten(outs) :: v in Inputs(levels, l, take, min, max)
    ensures Fits(Remaining(levels[l + 1], min, max), NewTables(outs, id))
  {
    hide Less, Overlaps, InHull, Inputs, LevelSet, InMerge, Ordered, LevelSorted;
    Compaction.FlattenSorted(outs);
    Compaction.DisjointIffCut(outs);
    RemainingOK(levels[l + 1], min, max);
    LevelsOrdered(levels);
    var tables := NewTables(outs, id);
    forall i | 0 <= i < |tables|
      ensures WellFormed(tables[i]) && forall v | v in outs[i] :: InHull(v.key, levels[l + 1], min, max)
    {
      forall v | v in outs[i] ensures v.key != [] && InHull(v.key, levels[l + 1], min, max) {
        assert v in Elems(Compaction.Flatten(outs));
        InputInHull(levels, l, take, min, max, v);
      }
    }
    forall i, f | 0 <= i < |tables| && f in Remaining(levels[l + 1], min, max) ensures Apart(tables[i], f) {
      HullApart(levels[l + 1], min, max, f, tables[i]);
    }
    forall i, j | 0 <= i < j < |tables| ensures Apart(tables[j], tables[i]) {
      assert outs[i][|outs[i]| - 1] in outs[i] && outs[j][0] in outs[j];
    }
  }

  lemma LevelsOrdered(levels: seq<seq<Table>>)
    requires LevelsOK(levels)
    ensures Ordered(levels)
  {
    hide LevelOK, LevelSorted, WellFormed;
    forall l | 1 <= l < NUM_LEVELS ensures LevelSorted(levels[l]) {
      DisjointIsSorted(levels[l]);
    }
  }

  /** Wherever they were cut, outputs are in order and comparable to what stayed. */
  lemma {:induction false} OutputsArranged(levels: seq<seq<Table>>, l: nat, take: nat, min: Bytes, max: Bytes,
                        outs: seq<seq<Version>>, id: nat)
    requires Ordered(levels) && l + 1 < NUM_LEVELS && take <= |levels[l]|
    requires InBounds(levels[l][..take], min, max)
    requires Compaction.AllNonEmpty(outs) && Sorted(Compaction.Flatten(outs))
    requires forall v | v in Compaction.Flatten(outs) :: v in Inputs(levels, l, take, min, max)
    ensures Arranged(Remaining(levels[l + 1], min, max), NewTables(outs, id))
    ensures forall i | 0 <= i < |outs| :: WellFormed(NewTables(outs, id)[i])
  {
    hide Less, Overlaps, InHull, InMerge, Inputs, LevelSet, LevelSorted, Comparable;
    Compaction.FlattenSorted(outs);
    SplitSorted(levels[l + 1], min, max);
    var tables := NewTables(outs, id);
    forall i | 0 <= i < |tables| ensures WellFormed(tables[i]) && Comparable(Remaining(levels[l + 1], min, max), tables[i]) {
      forall v | v in outs[i] ensures v.key != [] && InMerge(v, levels[l + 1], min, max) {
        assert v in Elems(Compaction.Flatten(outs));
        InputInHull(levels, l, take, min, max, v);
      }
      MergeComparable(levels[l + 1], min, max, tables[i]);
    }
    forall i, j | 0 <= i < j < |tables| ensures Precedes(tables[i], tables[j]) {
      assert outs[i][|outs[i]| - 1] in outs[i] && outs[j][0] in outs[j];
    }
  }

  lemma {:induction false} LowerIds(files: seq<Table>, min: Bytes, max: Bytes, lower: seq<Table>, outs: seq<seq<Version>>, nextId: nat)
    requires LevelIds(files, nextId)
    requires forall t | t in lower :: t in Remaining(files, min, max) || t in NewTables(outs, nextId)
    ensures LevelIds(lower, nextId + |outs|)
  {
    hide Overlaps, Remaining, NewTables;
    SplitMembers(files, min, max);
    forall t | t in lower
      ensures t.id < nextId + |outs|
      ensures if t.id < nextId then t in files else t == Table(t.id, outs[t.id - nextId])
    {
      if t !in Remaining(files, min, max) {
        NewTableAt(outs, nextId, t);
      }
    }
  }

  lemma NewTableAt(outs: seq<seq<Version>>, id: nat, t: Table)
    requires t in NewTables(outs, id)
    ensures id <= t.id < id + |outs| && t == Table(t.id, outs[t.id - id])
  {
    var tables := NewTables(outs, id);
    var i :| 0 <= i < |tables| && tables[i] == t;
  }

  lemma MergeFacts(inputs: set<Version>, kept: seq<Version>, observed: set<nat>)
    requires Compaction.Merges(inputs, kept, observed)
    ensures Sorted(kept) && forall v | v in kept :: v in inputs
  {
  }

  lemma ReplacedIds(levels: seq<seq<Table>>, l: nat, take: nat, min: Bytes, max: Bytes,
                    lower: seq<Table>, outs: seq<seq<Version>>, nextId: nat)
    requires IdsOK(levels, nextId) && l + 1 < |levels| && take <= |levels[l]|
    requires forall t | t in lower :: t in Remaining(levels[l + 1], min, max) || t in NewTables(outs, nextId)
    ensures IdsOK(Replaced(levels, l, take, lower), nextId + |outs|)
  {
    LowerIds(levels[l + 1], min, max, lower, outs, nextId);
    var levels' := Replaced(levels, l, take, lower);
    forall m | 0 <= m < |levels| ensures LevelIds(levels'[m], nextId + |outs|) {
      assert m != l + 1 ==> forall t | t in levels'[m] :: t in levels[m];
    }
  }

  lemma ReplacedOK(levels: seq<seq<Table>>, l: nat, take: nat, lower: seq<Table>)
    requires LevelsOK(levels) && LevelOK(lower) && l + 1 < NUM_LEVELS && take <= |levels[l]|
    ensures LevelsOK(Replaced(levels, l, take, lower))
  {
    hide Less, WellFormed;
    var levels' := Replaced(levels, l, take, lower);
    assert forall m | 0 <= m < |levels| && m != l && m != l + 1 :: levels'[m] == levels[m];
    assert l > 0 ==> LevelOK(levels[l][take..]);
  }

  lemma ReplacedOrdered(levels: seq<seq<Table>>, l: nat, take: nat, lower: seq<Table>)
    requires Ordered(levels) && l + 1 < NUM_LEVELS && take <= |levels[l]|
    ensures Ordered(Replaced(levels, l, take, lower)) <==> LevelSorted(lower)
  {
    hide WellFormed, Precedes;
    var levels' := Replaced(levels, l, take, lower);
    assert levels'[l + 1] == lower && levels'[l] == levels[l][take..];
    assert forall m | 0 <= m < |levels| && m != l && m != l + 1 :: levels'[m] == levels[m];
    if l > 0 {
      assert LevelSorted(levels[l]);
      assert LevelSorted(levels[l][take..]);
    }
  }

  /** What a merge leaves: ids apart, level 0 in the order of its flushes, no version in
      two levels, and levels in order exactly when the installed one is. */
  lemma {:induction false} MergedLevels(levels: seq<seq<Table>>, l: nat, take: nat, min: Bytes, max: Bytes,
                     outs: seq<seq<Version>>, nextId: nat, lower: seq<Table>)
    requires Laid(levels) && IdsOK(levels, nextId) && l + 1 < NUM_LEVELS && take <= |levels[l]|
    requires Sorted(Compaction.Flatten(outs))
    requires forall v | v in Compaction.Flatten(outs) :: v in Inputs(levels, l, take, min, max)
    requires forall t | t in lower :: t in Remaining(levels[l + 1], min, max) || t in NewTables(outs, nextId)
    requires LevelSet(lower) == LevelSet(Remaining(levels[l + 1], min, max)) + LevelSet(NewTables(outs, nextId))
    ensures Installed(levels, l, take, min, max, lower, Elems(Compaction.Flatten(outs)))
    ensures var levels' := Replaced(levels, l, take, lower);
            IdsOK(levels', nextId + |outs|) && (Laid(levels') <==> LevelSorted(lower))
  {
    hide Overlaps, StackedTop, Unshared, LevelSet, WellFormed, LevelSorted, IdsOK, Inputs, Sorted, Remaining, NewTables,
      Compaction.Flatten, Replaced;
    assert |levels| == NUM_LEVELS;
    hide Ordered;
    NewTablesSet(outs, nextId);
    ReplacedIds(levels, l, take, min, max, lower, outs, nextId);
    assert Installed(levels, l, take, min, max, lower, Elems(Compaction.Flatten(outs)));
    hide Installed;
    ReplacedUnshared(levels, l, take, min, max, lower, Elems(Compaction.Flatten(outs)));
    ReplacedTop(levels, l, take, lower);
    ReplacedOrdered(levels, l, take, lower);
  }

  /** On strict levels the merge keeps newer above older, and a disjoint installed level
      leaves them strict. */
  lemma MergedStrict(levels: seq<seq<Table>>, l: nat, take: nat, min: Bytes, max: Bytes,
                     kept: set<Version>, lower: seq<Table>)
    requires Strict(levels) && l + 1 < NUM_LEVELS && take <= |levels[l]|
    requires Installed(levels, l, take, min, max, lower, kept)
    ensures LevelOK(lower) ==> Strict(Replaced(levels, l, take, lower))
  {
    hide Stacked, LevelSet, WellFormed, LevelOK, LevelsOK, Installed;
    ReplacedStacked(levels, l, take, min, max, lower, kept);
    if LevelOK(lower) {
      ReplacedOK(levels, l, take, lower);
    }
  }

  /** The versions after a merge, together with the memtables' `other` versions. */
  lemma {:induction false} CompactedVersions(levels: seq<seq<Table>>, l: nat, take: nat, min: Bytes, max: Bytes,
                          outs: seq<seq<Version>>, lower: seq<Table>,
                          other: set<Version>, hist: seq<Write>, observed: set<nat>)
    requires l + 1 < |levels| && take <= |levels[l]|
    requires Installed(levels, l, take, min, max, lower, Elems(Compaction.Flatten(outs)))
    requires Compaction.Merges(Inputs(levels, l, take, min, max), Compaction.Flatten(outs), observed)
    requires Faithful(other + LevelsSet(levels), hist)
    ensures var levels' := Replaced(levels, l, take, lower);
            && LevelsSet(levels') <= LevelsSet(levels)
            && Faithful(other + LevelsSet(levels'), hist)
            && (Complete(other + LevelsSet(levels), hist, |hist|) ==> Complete(other + LevelsSet(levels'), hist, |hist|))
            && forall s | Complete(other + LevelsSet(levels), hist, s)
                          && Compaction.Protected(Inputs(levels, l, take, min, max), observed, s) ::
                 Complete(other + LevelsSet(levels'), hist, s)
  {
    hide LevelSet, LevelsSet, Inputs, Installed;
    var kept := Compaction.Flatten(outs);
    ReplacedSets(levels, l, take, min, max, lower, Elems(kept));
    CompactionStep(other + LevelsSet(levels), other + LevelsSet(Replaced(levels, l, take, lower)),
                   Inputs(levels, l, take, min, max), kept, hist, observed);
  }

  /** A level in order that holds all outputs was cut between keys. */
  lemma OrderedOutputs(lower: seq<Table>, outs: seq<seq<Version>>, id: nat)
    requires LevelOK(lower) && Compaction.AllNonEmpty(outs) && forall t | t in NewTables(outs, id) :: t in lower
    ensures Compaction.CutBetweenKeys(outs)
  {
    hide Less;
    TotalOrder();
    var tables := NewTables(outs, id);
    forall i | 0 <= i < |outs| - 1 ensures outs[i][|outs[i]| - 1].key != outs[i + 1][0].key {
      var t, u := tables[i], tables[i + 1];
      assert t in lower && u in lower;
      var a :| 0 <= a < |lower| && lower[a] == t;
      var b :| 0 <= b < |lower| && lower[b] == u;
      assert t.id != u.id;
      InRange(t, t.entries[|t.entries| - 1]);
      InRange(u, u.entries[0]);
    }
  }

  /** The warnings of a merge on strict levels are about cuts inside a key. */
  lemma {:induction false} WarnsAboutCuts(levels: seq<seq<Table>>, l: nat, take: nat, min: Bytes, max: Bytes,
                       outs: seq<seq<Version>>, id: nat)
    requires Strict(levels) && l + 1 < NUM_LEVELS && take <= |levels[l]|
    requires InBounds(levels[l][..take], min, max)
    requires Compaction.AllNonEmpty(outs) && Sorted(Compaction.Flatten(outs))
    requires forall v | v in Compaction.Flatten(outs) :: v in Inputs(levels, l, take, min, max)
    ensures Compaction.CutBetweenKeys(outs) ==> Fits(Remaining(levels[l + 1], min, max), NewTables(outs, id))
    ensures LevelOK(Remaining(levels[l + 1], min, max))
  {
    hide Stacked, WellFormed, Sorted, LevelSet, Overlaps, Fits, Inputs, Compaction.CutBetweenKeys, InBounds, LevelOK;
    RemainingOK(levels[l + 1], min, max);
    if Compaction.CutBetweenKeys(outs) {
      OutputsFit(levels, l, take, min, max, outs, id);
    }
  }

  /** One merge, from the version set it starts with to the one it leaves. `warned` is the
      overlap warning of the code; `tied` says that a file was put on the wrong side of
      one that starts with the same key, `lost` that an output could not be opened again. */
  method MergeLevels(levels: seq<seq<Table>>, l: nat, take: nat, min: Bytes, max: Bytes,
                     nextId: nat, env: Compaction.Env, openOk: nat -> bool)
    returns (r: Option<seq<seq<Table>>>, used: nat, warned: bool, tied: bool, lost: bool,
             ghost outs: seq<seq<Version>>, ghost lower: seq<Table>)
    requires |levels| == NUM_LEVELS && Laid(levels) && IdsOK(levels, nextId)
    requires l + 1 < NUM_LEVELS && 0 < take <= |levels[l]| && InBounds(levels[l][..take], min, max)
    ensures var sources := MergeSources(levels, l, take, min, max);
            && (r.Some? <==> Compaction.Compacted(sources, env).Some?)
            && (r.Some? ==> Compaction.Compacted(sources, env) == Some(outs) && r.value == Replaced(levels, l, take, lower))
            && (r.Some? ==> Compaction.Merges(Inputs(levels, l, take, min, max), Compaction.Flatten(outs),
                                              Compaction.Observed(env, Compaction.Queries(sources, env))))
    ensures r.Some? ==> (lost <==> exists i | 0 <= i < |outs| :: !openOk(i)) && used == |outs|
    ensures r.Some? ==>
              forall t :: t in lower <==> t in Remaining(levels[l + 1], min, max) || t in Opened(NewTables(outs, nextId), openOk)
    ensures r.Some? && !lost ==>
              && Installed(levels, l, take, min, max, lower, Elems(Compaction.Flatten(outs))) && IdsOK(r.value, nextId + used)
              && (Laid(r.value) <==> !tied)
              && (tied <==> AnyTied(Remaining(levels[l + 1], min, max), NewTables(outs, nextId)))
    ensures r.Some? && !lost && Strict(levels) ==>
              && (!warned ==> Strict(r.value))
              && (warned <==> !Compaction.CutsApart(Compaction.Flatten(outs), env.full))
    ensures r.None? ==> !warned && !tied && !lost && used == 0
  {
    hide Stacked, LevelsSet, WellFormed, Sorted, LevelSet, Overlaps, IdsOK, LevelOK, LevelsOK, Fits, Laid, Strict, LevelSorted,
      Installed, Inputs, Compaction.Merges, Compaction.CutBetweenKeys, InBounds, Arranged, AnyTied, Compaction.Flatten,
      Compaction.WellFormed, Compaction.Queries, Compaction.Kept, Compaction.CutsApart, Compaction.Pieces, Compaction.Observed;
    used, warned, tied, lost, outs, lower := 0, false, false, false, [], [];
    var selected, remaining := Split(levels[l + 1], min, max);
    MergeInputs(levels, l, take, min, max);
    ghost var sources := MergeSources(levels, l, take, min, max);
    var res := Compaction.DoCompaction(SourcesOf(levels[l][..take] + selected), env);
    if res.None? {
      return None, 0, false, false, false, [], [];
    }
    outs := res.value;
    MergeFacts(Inputs(levels, l, take, min, max), Compaction.Flatten(outs), Compaction.Observed(env, Compaction.Queries(sources, env)));
    assert Ordered(levels) by {
      LaidIsOrdered(levels);
    }
    OutputsArranged(levels, l, take, min, max, outs, nextId);
    used := |res.value|;
    var tables := NewTables(res.value, nextId);
    var found := Opened(tables, openOk);
    lost := |found| < |tables|;
    OpenedAll(tables, openOk);
    var files;
    files, warned := InstallOutputs(remaining, found);
    tied := AnyTied(remaining, tables);
    lower := files;
    if !lost {
      MergedLevels(levels, l, take, min, max, outs, nextId, files);
      if Strict(levels) {
        WarnsAboutCuts(levels, l, take, min, max, outs, nextId);
        MergedStrict(levels, l, take, min, max, Elems(Compaction.Flatten(outs)), files);
        if !warned {
          OrderedOutputs(files, outs, nextId);
        }
        CompactedCuts(sources, env, outs);
      }
    }
    r := Some(Replaced(levels, l, take, files));
  }

  lemma LaidIsOrdered(levels: seq<seq<Table>>)
    requires Laid(levels)
    ensures Ordered(levels)
  {
  }

  lemma {:induction false} OpenedAll(tables: seq<Table>, openOk: nat -> bool)
    ensures |Opened(tables, openOk)| < |tables| <==> exists i | 0 <= i < |tables| :: !openOk(i)
  {
    if tables != [] {
      var n := |tables| - 1;
      OpenedAll(tables[..n], openOk);
      if i :| 0 <= i < n && !openOk(i) {
        assert 0 <= i < |tables| && !openOk(i);
      }
    }
  }

  /** The cuts of a merge, read off its outputs and off its inputs. */
  lemma {:induction false} CompactedCuts(sources: seq<Compaction.Source>, env: Compaction.Env, outs: seq<seq<Version>>)
    requires Compaction.Compacted(sources, env) == Some(outs) && Compaction.AllNonEmpty(outs)
    ensures Compaction.CutBetweenKeys(outs) <==> Compaction.CutsApart(Compaction.Flatten(outs), env.full)
  {
    hide Compaction.Kept, Compaction.Pieces, Compaction.CutBetweenKeys, Compaction.CutsApart;
    if sources == [] {
      NoCuts(env);
    } else {
      Compaction.PiecesAre(Compaction.Kept(sources, env), env.full);
      Compaction.PiecesCut(Compaction.Kept(sources, env), env.full);
    }
  }

  lemma NoCuts(env: Compaction.Env)
    ensures Compaction.AllNonEmpty([]) && Compaction.CutBetweenKeys([]) && Compaction.CutsApart(Compaction.Flatten([]), env.full)
  {
  }

  /** A merge whose size cut falls inside a key that starts an output, and the outputs
      installed one after the other: a read of the key then consults the file with the
      older version. */
  method StaleRead() returns (level: seq<Table>, file: Option<Table>)
    ensures LevelSet(level) == {Version([1], 2, Value, []), Version([1], 1, Value, [])}
    ensures file.Some? && file.value in level && file.value.entries == [Version([1], 1, Value, [])]
  {
    var outs := Compaction.CutInsideKey();
    var newer, older := Table(1, outs.value[0]), Table(2, outs.value[1]);
    LessIrreflexive([1]);
    assert WellFormed(newer) && WellFormed(older) && Precedes(newer, older);
    var warned;
    level, warned := InsertIntoLevel([], newer);
    assert level == [newer];
    level, file := TieReadsStale(level, older, newer);
    LevelSetMembers(level);
  }

  /** A merge cut between two versions of a key that another key precedes, and its outputs
      installed: the level is sorted, and a snapshot between the versions finds none. */
  method SnapshotMisses(first: Version, newer: Version, older: Version) returns (level: seq<Table>, file: Option<Table>)
    requires first.key != [] && newer.key == older.key != [] && older.seqno < newer.seqno && Less(first.key, newer.key)
    ensures LevelSorted(level) && older in LevelSet(level)
    ensures file == Consulted(level, older.key) && file.Some? && FirstVisible(file.value.entries, older.key, older.seqno) == None
  {
    hide Less, LevelSorted, LevelSet, Consulted, EndsSplit, FirstVisible, Compaction.Kept, Compaction.Pieces;
    var outs := CutBehind(first, newer, older);
    var a, b := Table(1, outs.value[0]), Table(2, outs.value[1]);
    TwoTables(a, b, first, newer, older);
    level := InstallTwo(a, b);
    InLevelSet(level, b, older);
    file := FileFor(level, older.key);
    SortedEndsSplit(level, older.key);
  }

  method CutBehind(first: Version, newer: Version, older: Version) returns (r: Option<seq<seq<Version>>>)
    requires first.key != [] && newer.key == older.key != [] && older.seqno < newer.seqno && Less(first.key, newer.key)
    ensures r == Some([[first, newer], [older]])
  {
    hide Less, Compaction.Kept, Compaction.Pieces;
    var env := Compaction.Env(0, n => 0, n => n == 2, n => true, n => true);
    assert Sorted([first, newer]) && Sorted([older]);
    TotalOrder();
    r := Compaction.DoCompaction([Compaction.Source(1, [first, newer]), Compaction.Source(2, [older])], env);
    Compaction.KeptTriple(first, newer, older, env);
  }

  lemma TwoTables(a: Table, b: Table, first: Version, newer: Version, older: Version)
    requires first.key != [] && newer.key == older.key != [] && older.seqno < newer.seqno && Less(first.key, newer.key)
    requires a.entries == [first, newer] && b.entries == [older]
    ensures WellFormed(a) && WellFormed(b) && Precedes(a, b) && Less(a.Smallest(), b.Smallest())
    ensures FirstAt([a, b], older.key, 0) && older in b.entries
    ensures FirstVisible(a.entries, older.key, older.seqno) == None
  {
    hide Less;
    TotalOrder();
    assert a.entries[1..] == [newer] && [newer][1..] == [];
    assert FirstVisible([newer], older.key, older.seqno) == None;
    assert a.Smallest() == first.key && a.Largest() == newer.key;
  }

  method InstallTwo(a: Table, b: Table) returns (level: seq<Table>)
    requires WellFormed(a) && WellFormed(b) && Precedes(a, b) && Less(a.Smallest(), b.Smallest())
    ensures level == [a, b] && LevelSorted(level)
  {
    hide Less, WellFormed, Precedes;
    TotalOrder();
    var warned;
    level, warned := InsertIntoLevel([], a);
    assert level == [a];
    level, warned := InsertIntoLevel(level, b);
    assert StartsSplit([a], b.Smallest());
    assert level == [a, b] && level[0] == a && level[1] == b;
  }

  /** Detaching by identity, as compactions below level 0 do: every file whose id
      is not among the dropped ones stays. */
  function WithoutIds(files: seq<Table>, dropped: seq<Table>): seq<Table> {
    if files == [] then []
    else
      var n := |files| - 1;
      WithoutIds(files[..n], dropped) + if HasId(dropped, files[n].id) then [] else [files[n]]
  }

  predicate HasId(files: seq<Table>, id: nat) {
    exists i | 0 <= i < |files| :: files[i].id == id
  }

  lemma {:induction false} SelectedHasId(all: seq<Table>, nextId: nat, min: Bytes, max: Bytes, t: Table)
    requires LevelIds(all, nextId) && t in all
    ensures HasId(Selected(all, min, max), t.id) <==> Overlaps(t, min, max)
  {
    hide Overlaps;
    SplitMembers(all, min, max);
    var sel := Selected(all, min, max);
    if Overlaps(t, min, max) {
      var i :| 0 <= i < |sel| && sel[i] == t;
    }
    assert forall i | 0 <= i < |sel| :: sel[i] in sel;
  }

  /** On a level it agrees with detaching by key range. */
  lemma {:induction false} IdentityIsRange(files: seq<Table>, all: seq<Table>, nextId: nat, min: Bytes, max: Bytes)
    requires LevelIds(all, nextId) && forall t | t in files :: t in all
    ensures WithoutIds(files, Selected(all, min, max)) == Remaining(files, min, max)
  {
    hide Overlaps, LevelIds, HasId, Selected;
    if files != [] {
      var n := |files| - 1;
      IdentityIsRange(files[..n], all, nextId, min, max);
      assert files[n] in files;
      SelectedHasId(all, nextId, min, max, files[n]);
    }
  }

  // ---------------------------------------------------------------- lookups

  /** `best` is the newest visible version of `k` among `vs`. */
  ghost predicate BestOf(best: Option<Version>, vs: set<Version>, k: Bytes, s: nat) {
    match best
    case Some(v) => IsNewest(v, vs, k, s)
    case None => NoneVisible(vs, k, s)
  }

  const INITIAL_FILTER := seq(Bloom.INITIAL_BITS, _ => false)

  /** The reloaded filter of a table. */
  function TableFilter(t: Table, probes: nat): seq<bool> {
    var keys := seq(|t.entries|, i requires 0 <= i < |t.entries| => t.entries[i].key);
    Bloom.Unpack(Bloom.Pack(Bloom.FilterOf(INITIAL_FILTER, probes, keys)))
  }

  lemma FilterPasses(t: Table, probes: nat, v: Version)
    requires v in t.entries
    ensures Bloom.MayHold(TableFilter(t, probes), probes, v.key)
  {
    var keys := seq(|t.entries|, i requires 0 <= i < |t.entries| => t.entries[i].key);
    var i :| 0 <= i < |t.entries| && t.entries[i] == v;
    assert keys[i] == v.key;
    Bloom.NoFalseNegatives(INITIAL_FILTER, probes, keys, v.key);
  }

  /** The step of Get that asks one table. */
  method Consider(t: Table, probes: nat, k: Bytes, s: nat, best: Option<Version>, ghost seen: set<Version>)
    returns (r: Option<Version>)
    ensures WellFormed(t) && BestOf(best, seen, k, s) ==> BestOf(r, seen + Elems(t.entries), k, s)
  {
    if !Bloom.MayHold(TableFilter(t, probes), probes, k) {
      forall v | v in t.entries ensures v.key != k {
        FilterPasses(t, probes, v);
      }
      return best;
    }
    if WellFormed(t) {
      FirstVisibleIsNewest(t.entries, k, s);
    }
    var got := FirstVisible(t.entries, k, s);
    if got.None? || (best.Some? && got.value.seqno <= best.value.seqno) {
      return best;
    }
    return got;
  }

  // ---------------------------------------------------------------- a flushed table

  function Markers(ts: seq<Tomb>): (r: seq<Version>)
    ensures |r| == |ts| && forall i | 0 <= i < |ts| :: r[i] == MarkerOf(ts[i])
  {
    seq(|ts|, i requires 0 <= i < |ts| => MarkerOf(ts[i]))
  }

  lemma MarkerKeys(a: Bytes, b: Bytes)
    ensures !ValidKey(MARKER + a) && MARKER + a != []
    ensures MARKER + a == MARKER + b ==> a == b
  {
    assert (MARKER + a)[..4] == MARKER;
    assert a == (MARKER + a)[4..] && b == (MARKER + b)[4..];
  }

  lemma FlushDistinct(entries: seq<Version>, tombs: seq<Tomb>, from: nat, to: nat)
    requires MemOK(entries, tombs, from, to)
    ensures var es := entries + Markers(tombs);
            forall i, j | 0 <= i < j < |es| :: !(es[i].key == es[j].key && es[i].seqno == es[j].seqno)
  {
    var es := entries + Markers(tombs);
    forall i, j | 0 <= i < j < |es| ensures !(es[i].key == es[j].key && es[i].seqno == es[j].seqno) {
      var n := |entries|;
      if j < n {
        LessIrreflexive(es[i].key);
        assert Before(es[i], es[j]);
      } else {
        MarkerKeys(tombs[j - n].begin, if i < n then [] else tombs[i - n].begin);
        assert i < n ==> es[i] in entries;
      }
    }
  }

  lemma FlushedTable(entries: seq<Version>, tombs: seq<Tomb>, from: nat, to: nat, t: Table)
    requires MemOK(entries, tombs, from, to) && (entries != [] || tombs != [])
    requires Sorted(t.entries) && Elems(t.entries) == Elems(entries + Markers(tombs))
    ensures WellFormed(t) && forall v | v in t.entries :: from <= v.seqno < to
  {
    var es := entries + Markers(tombs);
    assert es[0] in Elems(es);
    forall v | v in t.entries ensures v.key != [] && from <= v.seqno < to {
      assert v in Elems(t.entries);
      var i :| 0 <= i < |es| && es[i] == v;
      if i >= |entries| {
        MarkerKeys(tombs[i - |entries|].begin, []);
        assert tombs[i - |entries|] in tombs;
      }
    }
  }

  function Pushed(levels: seq<seq<Table>>, t: Table): (r: seq<seq<Table>>)
    requires levels != []
    ensures |r| == |levels| && r[0] == levels[0] + [t] && forall m | 1 <= m < |levels| :: r[m] == levels[m]
  {
    levels[0 := levels[0] + [t]]
  }

  /** A table that joins level 0 and holds only newer versions keeps the level structure. */
  lemma PushLevel0(levels: seq<seq<Table>>, t: Table, bound: nat)
    requires Laid(levels) && IdsOK(levels, t.id) && WellFormed(t)
    requires forall v | v in LevelsSet(levels) :: v.seqno < bound
    requires forall v | v in t.entries :: bound <= v.seqno
    ensures var levels' := Pushed(levels, t);
            && Laid(levels') && (Strict(levels) ==> Strict(levels')) && IdsOK(levels', t.id + 1)
            && LevelsSet(levels') == LevelsSet(levels) + Elems(t.entries)
  {
    hide LevelSet, LevelSorted, LevelOK, WellFormed, StackedTop, Unshared, Stacked, IdsOK, LevelsSet, Pushed, Elems;
    PushedTop(levels, t, bound);
    PushedSets(levels, t);
    PushedApart(levels, t, bound);
    PushedIds(levels, t);
    PushedShape(levels, t);
    StackedIs(levels);
    StackedIs(Pushed(levels, t));
  }

  lemma PushedShape(levels: seq<seq<Table>>, t: Table)
    requires WellFormed(t) && levels != []
    ensures Ordered(levels) ==> Ordered(Pushed(levels, t))
    ensures LevelsOK(levels) ==> LevelsOK(Pushed(levels, t))
  {
    hide LevelSorted, LevelOK, WellFormed;
  }

  lemma PushedIds(levels: seq<seq<Table>>, t: Table)
    requires levels != [] && IdsOK(levels, t.id)
    ensures IdsOK(Pushed(levels, t), t.id + 1)
  {
    forall l | 0 <= l < |levels| ensures LevelIds(Pushed(levels, t)[l], t.id + 1) {
      assert LevelIds(levels[l], t.id);
    }
  }

  lemma PushedSets(levels: seq<seq<Table>>, t: Table)
    requires levels != []
    ensures LevelSet(Pushed(levels, t)[0]) == LevelSet(levels[0]) + Elems(t.entries)
    ensures LevelsSet(Pushed(levels, t)) == LevelsSet(levels) + Elems(t.entries)
    ensures LevelSet(levels[0]) <= LevelsSet(levels)
  {
    hide LevelSet;
    var levels' := Pushed(levels, t);
    LevelSetConcat(levels[0], [t]);
    LevelSetMembers([t]);
    assert t in [t];
    assert LevelSet([t]) == Elems(t.entries);
    forall v ensures v in LevelsSet(levels') <==> v in LevelsSet(levels) || v in t.entries {
      if v in LevelsSet(levels) {
        var m :| 0 <= m < |levels| && v in LevelSet(levels[m]);
        assert v in LevelSet(levels'[m]);
      }
      if v in t.entries {
        assert v in LevelSet(levels'[0]);
      }
    }
  }

  lemma PushedTop(levels: seq<seq<Table>>, t: Table, bound: nat)
    requires levels != [] && StackedTop(levels)
    requires forall v | v in LevelsSet(levels) :: v.seqno < bound
    requires forall v | v in t.entries :: bound <= v.seqno
    ensures StackedTop(Pushed(levels, t))
  {
    hide LevelSet;
    forall i, v | 0 <= i < |levels[0]| && v in levels[0][i].entries ensures v.seqno < bound {
      InLevelSet(levels[0], levels[0][i], v);
      assert v in LevelsSet(levels);
    }
  }

  lemma PushedApart(levels: seq<seq<Table>>, t: Table, bound: nat)
    requires levels != []
    requires forall v | v in LevelsSet(levels) :: v.seqno < bound
    requires forall v | v in t.entries :: bound <= v.seqno
    ensures Unshared(levels) ==> Unshared(Pushed(levels, t))
    ensures StackedApart(levels) ==> StackedApart(Pushed(levels, t))
  {
    hide LevelSet, LevelsSet;
    PushedSets(levels, t);
    forall m, v | 0 <= m < |levels| && v in LevelSet(levels[m]) ensures v.seqno < bound {
      InLevels(levels, m, v);
    }
  }

  lemma InLevels(levels: seq<seq<Table>>, m: nat, v: Version)
    requires m < |levels| && v in LevelSet(levels[m])
    ensures v in LevelsSet(levels)
  {
  }

  /** A new store. */
  lemma EmptyLevels(levels: seq<seq<Table>>)
    requires |levels| == NUM_LEVELS && forall l | 0 <= l < NUM_LEVELS :: levels[l] == []
    ensures Strict(levels) && Laid(levels) && IdsOK(levels, 1) && LevelsSet(levels) == {}
  {
    hide WellFormed;
    assert LevelsOK(levels) && forall l | 0 <= l < NUM_LEVELS :: LevelSet(levels[l]) == {};
    hide LevelSet, LevelsOK;
    assert Stacked(levels);
    StrictIsLaid(levels);
  }

  /** Marker entries lie outside the keys a client can ask for. */
  lemma AddMarkers(vs: set<Version>, hist: seq<Write>, tombs: seq<Tomb>)
    requires Faithful(vs, hist)
    requires forall t | t in tombs :: t.seqno < |hist|
    ensures Faithful(vs + Elems(Markers(tombs)), hist)
    ensures forall s | Complete(vs, hist, s) :: Complete(vs + Elems(Markers(tombs)), hist, s)
  {
    forall v | v in Markers(tombs) ensures v.seqno < |hist| && !ValidKey(v.key) {
      var i :| 0 <= i < |tombs| && MarkerOf(tombs[i]) == v;
      MarkerKeys(tombs[i].begin, []);
      assert tombs[i] in tombs;
    }
  }

  function WithoutId(files: seq<Table>, id: nat): seq<Table> {
    if files == [] then []
    else
      var n := |files| - 1;
      WithoutId(files[..n], id) + if files[n].id == id then [] else [files[n]]
  }

  /** remove_if on the file id. */
  method RemoveId(files: seq<Table>, id: nat) returns (r: seq<Table>)
    ensures r == WithoutId(files, id) && forall t :: t in r <==> t in files && t.id != id
  {
    r := [];
    for n := 0 to |files|
      invariant r == WithoutId(files[..n], id) && forall t :: t in r <==> t in files[..n] && t.id != id
    {
      assert files[..n + 1] == files[..n] + [files[n]];
      WithoutIdNext(files, n, id);
      if files[n].id != id {
        r := r + [files[n]];
      } else {
        assert r + [] == r;
      }
    }
    assert files[..|files|] == files;
  }

  lemma {:induction false} WithoutIdNext(files: seq<Table>, n: nat, id: nat)
    requires n < |files|
    ensures WithoutId(files[..n + 1], id) == WithoutId(files[..n], id) + if files[n].id == id then [] else [files[n]]
  {
    assert files[..n + 1][..n] == files[..n];
  }

  lemma {:induction false} WithoutIdSame(files: seq<Table>, id: nat)
    requires forall i | 0 <= i < |files| :: files[i].id != id
    ensures WithoutId(files, id) == files
  {
    if files != [] {
      WithoutIdSame(files[..|files| - 1], id);
    }
  }
}
