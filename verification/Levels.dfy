/** The levelled version set: key ranges of tables, the order of levels 1 and up,
    and the file selection of compactions and point lookups. */
module Levels {
  import opened Bytes
  import opened Versions

  datatype Table = Table(id: nat, entries: seq<Version>) {
    function Smallest(): Bytes {
      if entries == [] then [] else entries[0].key
    }

    function Largest(): Bytes {
      if entries == [] then [] else entries[|entries| - 1].key
    }
  }

  /** A table as compaction expects it: not empty, sorted, no empty key. */
  ghost predicate WellFormed(t: Table) {
    t.entries != [] && Sorted(t.entries) && forall v | v in t.entries :: v.key != []
  }

  lemma InRange(t: Table, v: Version)
    requires WellFormed(t) && v in t.entries
    ensures LessEq(t.Smallest(), v.key) && LessEq(v.key, t.Largest())
  {
    TotalOrder();
    var i :| 0 <= i < |t.entries| && t.entries[i] == v;
    assert i == 0 || Before(t.entries[0], v);
    assert i == |t.entries| - 1 || Before(v, t.entries[|t.entries| - 1]);
  }

  ghost predicate Apart(a: Table, b: Table) {
    Less(a.Largest(), b.Smallest()) || Less(b.Largest(), a.Smallest())
  }

  /** Every version in `a` comes before every version in `b`. */
  predicate Precedes(a: Table, b: Table) {
    a.entries != [] && b.entries != [] && Before(a.entries[|a.entries| - 1], b.entries[0])
  }

  lemma PrecedesAll(a: Table, b: Table, v: Version, w: Version)
    requires WellFormed(a) && WellFormed(b) && Precedes(a, b) && v in a.entries && w in b.entries
    ensures Before(v, w)
  {
    hide Less;
    TotalOrder();
    var last, first := a.entries[|a.entries| - 1], b.entries[0];
    assert v == last || Before(v, last);
    assert w == first || Before(first, w);
  }

  /** A level from 1 on whose files, one behind the other, are sorted. Neighbours may
      share a key, with its newer versions in front. */
  ghost predicate LevelSorted(files: seq<Table>) {
    && (forall i | 0 <= i < |files| :: WellFormed(files[i]))
    && forall i, j | 0 <= i < j < |files| :: Precedes(files[i], files[j])
  }

  /** Different files of a sorted level hold different versions. */
  lemma FilesOrdered(files: seq<Table>, i: nat, j: nat, a: Version, b: Version)
    requires LevelSorted(files) && i < j < |files| && a in files[i].entries && b in files[j].entries
    ensures Before(a, b) && !(a.key == b.key && a.seqno == b.seqno)
  {
    hide Less, WellFormed;
    PrecedesAll(files[i], files[j], a, b);
    LessIrreflexive(a.key);
  }

  lemma RangesAscend(a: Table, b: Table)
    requires WellFormed(a) && WellFormed(b) && Precedes(a, b)
    ensures LessEq(a.Smallest(), b.Smallest()) && LessEq(a.Largest(), b.Largest()) && LessEq(a.Largest(), b.Smallest())
    ensures !Precedes(b, a)
  {
    hide Less, Sorted;
    TotalOrder();
    InRange(a, a.entries[0]);
    InRange(b, b.entries[0]);
    PrecedesAll(a, b, a.entries[0], b.entries[0]);
    if Precedes(b, a) {
      PrecedesAll(b, a, b.entries[0], a.entries[0]);
      assert false;
    }
  }

  /** The invariant without overlap warnings: sorted and key-disjoint. */
  ghost predicate LevelOK(files: seq<Table>) {
    && (forall i | 0 <= i < |files| :: WellFormed(files[i]))
    && forall i, j | 0 <= i < j < |files| :: Less(files[i].Largest(), files[j].Smallest())
  }

  lemma DisjointIsSorted(files: seq<Table>)
    requires LevelOK(files)
    ensures LevelSorted(files)
  {
    hide Less, Sorted;
    forall i, j | 0 <= i < j < |files| ensures Precedes(files[i], files[j]) {
      assert WellFormed(files[i]) && WellFormed(files[j]);
    }
  }

  /** Different files of a disjoint level hold different keys. */
  lemma FilesDiffer(files: seq<Table>, i: nat, j: nat, a: Version, b: Version)
    requires LevelOK(files) && i < j < |files| && a in files[i].entries && b in files[j].entries
    ensures Less(a.key, b.key) && a.key != b.key
  {
    hide Less;
    TotalOrder();
    InRange(files[i], a);
    InRange(files[j], b);
  }

  ghost function LevelSet(files: seq<Table>): set<Version> {
    set i, v | 0 <= i < |files| && v in files[i].entries :: v
  }

  // ---------------------------------------------------------------- lookup

  /** The files that end below the key are those in front. */
  ghost predicate EndsSplit(files: seq<Table>, key: Bytes) {
    forall i, j | 0 <= i < j < |files| && Less(files[j].Largest(), key) :: Less(files[i].Largest(), key)
  }

  lemma SortedEndsSplit(files: seq<Table>, key: Bytes)
    requires LevelSorted(files)
    ensures EndsSplit(files, key)
  {
    hide Less, WellFormed, Precedes;
    TotalOrder();
    forall i, j | 0 <= i < j < |files| && Less(files[j].Largest(), key) ensures Less(files[i].Largest(), key) {
      RangesAscend(files[i], files[j]);
    }
  }

  /** Where the binary search over LargestKey ends, on any list of files. */
  function Bound(files: seq<Table>, key: Bytes, lo: nat, hi: nat): nat
    requires lo <= hi <= |files|
    decreases hi - lo
  {
    if lo == hi then lo
    else
      var mid := (lo + hi) / 2;
      if Less(files[mid].Largest(), key) then Bound(files, key, mid + 1, hi) else Bound(files, key, lo, mid)
  }

  /** std::lower_bound over LargestKey, as Get runs it. */
  method FirstNotBelow(files: seq<Table>, key: Bytes) returns (lo: nat)
    ensures lo <= |files| && lo == Bound(files, key, 0, |files|)
    ensures EndsSplit(files, key) ==> forall i | 0 <= i < lo :: Less(files[i].Largest(), key)
    ensures EndsSplit(files, key) ==> forall i | lo <= i < |files| :: LessEq(key, files[i].Largest())
  {
    hide Less, EndsSplit, LessEq;
    var hi := |files|;
    lo := 0;
    while lo < hi
      invariant 0 <= lo <= hi <= |files| && Bound(files, key, lo, hi) == Bound(files, key, 0, |files|)
      invariant EndsSplit(files, key) ==> forall i | 0 <= i < lo :: Less(files[i].Largest(), key)
      invariant EndsSplit(files, key) ==> forall i | hi <= i < |files| :: LessEq(key, files[i].Largest())
    {
      var mid := (lo + hi) / 2;
      MidEnds(files, key, mid);
      if Less(files[mid].Largest(), key) {
        lo := mid + 1;
      } else {
        hi := mid;
      }
    }
  }

  lemma MidEnds(files: seq<Table>, key: Bytes, mid: nat)
    requires mid < |files|
    ensures EndsSplit(files, key) && Less(files[mid].Largest(), key) ==>
              forall i | 0 <= i <= mid :: Less(files[i].Largest(), key)
    ensures EndsSplit(files, key) && !Less(files[mid].Largest(), key) ==>
              forall i | mid <= i < |files| :: LessEq(key, files[i].Largest())
  {
    hide Less;
    TotalOrder();
  }

  lemma LargestAscends(files: seq<Table>, m: nat)
    requires LevelOK(files) && m < |files|
    ensures forall i | 0 <= i < m :: Less(files[i].Largest(), files[m].Largest())
    ensures forall i | m < i < |files| :: Less(files[m].Largest(), files[i].Largest())
  {
    hide Less, Sorted;
    TotalOrder();
    forall i, j | 0 <= i < j < |files| ensures Less(files[i].Largest(), files[j].Largest()) {
      InRange(files[j], files[j].entries[0]);
    }
  }

  /** The file a level in order is asked for a key: the first that does not end below it,
      unless it starts behind it. */
  function Consulted(files: seq<Table>, key: Bytes): Option<Table> {
    if files == [] then None
    else if Less(files[0].Largest(), key) then Consulted(files[1..], key)
    else if LessEq(files[0].Smallest(), key) then Some(files[0])
    else None
  }

  lemma {:induction false} ConsultedAt(files: seq<Table>, key: Bytes, lo: nat)
    requires lo <= |files| && (forall i | 0 <= i < lo :: Less(files[i].Largest(), key))
    requires lo < |files| ==> !Less(files[lo].Largest(), key)
    ensures Consulted(files, key) == if lo < |files| && LessEq(files[lo].Smallest(), key) then Some(files[lo]) else None
    decreases lo
  {
    hide Less;
    if lo > 0 {
      assert forall i | 0 <= i < lo - 1 :: files[1..][i] == files[i + 1];
      ConsultedAt(files[1..], key, lo - 1);
    }
  }

  /** The first file that does not end below the key, and it does not start behind it. */
  ghost predicate FirstAt(files: seq<Table>, key: Bytes, i: nat) {
    && i < |files| && LessEq(key, files[i].Largest()) && LessEq(files[i].Smallest(), key)
    && forall j | 0 <= j < i :: Less(files[j].Largest(), key)
  }

  /** The file holds a version of the key that is not older than `v`. */
  ghost predicate HoldsNewest(t: Table, v: Version) {
    exists w :: w in t.entries && w.key == v.key && w.seqno >= v.seqno
  }

  /** The one file of a level that Get consults: binary search, then the range guard. */
  method FileFor(files: seq<Table>, key: Bytes) returns (r: Option<Table>)
    ensures r.Some? ==> r.value in files
    // On a sorted level this file has the newest version of the key in the level,
    ensures LevelSorted(files) ==> forall v | v in LevelSet(files) && v.key == key :: r.Some? && HoldsNewest(r.value, v)
    // and on a disjoint one all of its versions.
    ensures LevelOK(files) ==> forall v | v in LevelSet(files) && v.key == key :: r.Some? && v in r.value.entries
    ensures EndsSplit(files, key) ==> forall i: nat | FirstAt(files, key, i) :: r == Some(files[i])
    ensures LevelSorted(files) || EndsSplit(files, key) ==> r == Consulted(files, key)
    ensures var lo := Bound(files, key, 0, |files|);
            lo <= |files| && r == if lo < |files| && LessEq(files[lo].Smallest(), key) then Some(files[lo]) else None
  {
    hide Less, WellFormed, LevelSorted, LevelOK, EndsSplit, Bound, Consulted;
    var lo := FirstNotBelow(files, key);
    if lo < |files| && LessEq(files[lo].Smallest(), key) {
      r := Some(files[lo]);
    } else {
      r := None;
    }
    TotalOrder();
    if LevelSorted(files) {
      SortedEndsSplit(files, key);
    }
    if EndsSplit(files, key) {
      ConsultedAt(files, key, lo);
    }
    if LevelSorted(files) {
      forall i, v | 0 <= i < |files| && v in files[i].entries && v.key == key
        ensures r.Some? && HoldsNewest(r.value, v)
      {
        ConsultedHolds(files, key, lo, i, v);
      }
    }
    if LevelOK(files) {
      DisjointIsSorted(files);
      SortedEndsSplit(files, key);
      forall i, v | 0 <= i < |files| && v in files[i].entries && v.key == key
        ensures r.Some? && v in r.value.entries
      {
        ConsultedHoldsAll(files, key, lo, i, v);
      }
    }
  }

  lemma ConsultedHolds(files: seq<Table>, key: Bytes, lo: nat, i: nat, v: Version)
    requires LevelSorted(files) && lo <= |files| && i < |files| && v in files[i].entries && v.key == key
    requires forall j | 0 <= j < lo :: Less(files[j].Largest(), key)
    requires forall j | lo <= j < |files| :: LessEq(key, files[j].Largest())
    ensures lo <= i && LessEq(files[lo].Smallest(), key) && HoldsNewest(files[lo], v)
  {
    hide Less, Sorted;
    TotalOrder();
    InRange(files[i], v);
    if lo < i {
      var last := files[lo].entries[|files[lo].entries| - 1];
      assert last in files[lo].entries;
      PrecedesAll(files[lo], files[i], last, v);
      InRange(files[lo], last);
    }
  }

  lemma ConsultedHoldsAll(files: seq<Table>, key: Bytes, lo: nat, i: nat, v: Version)
    requires LevelOK(files) && lo <= |files| && i < |files| && v in files[i].entries && v.key == key
    requires forall j | 0 <= j < lo :: Less(files[j].Largest(), key)
    requires forall j | lo <= j < |files| :: LessEq(key, files[j].Largest())
    ensures lo == i && LessEq(files[lo].Smallest(), key)
  {
    hide Less, Sorted;
    if lo < i {
      assert Less(files[lo].Largest(), files[i].Smallest());
    }
    TotalOrder();
    InRange(files[i], v);
  }

  // ---------------------------------------------------------------- insertion

  /** The files that start below the key are those in front. */
  ghost predicate StartsSplit(files: seq<Table>, key: Bytes) {
    forall i, j | 0 <= i < j < |files| && Less(files[j].Smallest(), key) :: Less(files[i].Smallest(), key)
  }

  lemma SortedStartsSplit(files: seq<Table>, key: Bytes)
    requires LevelSorted(files)
    ensures StartsSplit(files, key)
  {
    hide Less, WellFormed, Precedes;
    TotalOrder();
    forall i, j | 0 <= i < j < |files| && Less(files[j].Smallest(), key) ensures Less(files[i].Smallest(), key) {
      RangesAscend(files[i], files[j]);
    }
  }

  /** A file that belongs in front of the new one starts with the same key. */
  predicate Tied(files: seq<Table>, t: Table) {
    exists f | f in files :: Precedes(f, t) && f.Smallest() == t.Smallest()
  }

  /** The new file lies wholly in front of or behind every file. */
  ghost predicate Comparable(files: seq<Table>, t: Table) {
    WellFormed(t) && forall f | f in files :: Precedes(f, t) || Precedes(t, f)
  }

  ghost predicate InsertedAt(files: seq<Table>, t: Table, pos: nat) {
    && pos <= |files|
    && (StartsSplit(files, t.Smallest()) ==> forall i | 0 <= i < pos :: Less(files[i].Smallest(), t.Smallest()))
    && (StartsSplit(files, t.Smallest()) ==> forall i | pos <= i < |files| :: LessEq(t.Smallest(), files[i].Smallest()))
  }

  /** InsertIntoLevel for levels 1 and up: in front of the first file that does
      not start below the new one. It warns when the file overlaps a neighbour, and
      on a disjoint level that is exactly when disjointness is lost. A file that is
      comparable to the others keeps the order unless it starts with the same key as
      one that belongs in front of it: it is then put on the wrong side. */
  method InsertIntoLevel(files: seq<Table>, t: Table) returns (r: seq<Table>, warned: bool)
    ensures exists pos | 0 <= pos <= |files| :: InsertedAt(files, t, pos) && r == files[..pos] + [t] + files[pos..]
    ensures LevelOK(files) && WellFormed(t) ==> (LevelOK(r) <==> !warned)
    ensures LevelOK(files) && WellFormed(t) && (forall i | 0 <= i < |files| :: Apart(t, files[i])) ==> !warned
    ensures LevelSorted(files) && Comparable(files, t) ==> (LevelSorted(r) <==> !Tied(files, t))
    ensures LevelSorted(r) ==> LevelSorted(files)
  {
    hide Less, WellFormed, LevelSorted, LevelOK, StartsSplit, Precedes, Tied, Comparable;
    var pos, hi := 0, |files|;
    while pos < hi
      invariant 0 <= pos <= hi <= |files|
      invariant StartsSplit(files, t.Smallest()) ==> forall i | 0 <= i < pos :: Less(files[i].Smallest(), t.Smallest())
      invariant StartsSplit(files, t.Smallest()) ==> forall i | hi <= i < |files| :: LessEq(t.Smallest(), files[i].Smallest())
    {
      var mid := (pos + hi) / 2;
      MidSplits(files, t.Smallest(), mid);
      if Less(files[mid].Smallest(), t.Smallest()) {
        pos := mid + 1;
      } else {
        hi := mid;
      }
    }
    warned := || (pos < |files| && LessEq(files[pos].Smallest(), t.Largest()))
              || (pos > 0 && LessEq(t.Smallest(), files[pos - 1].Largest()));
    r := files[..pos] + [t] + files[pos..];
    assert InsertedAt(files, t, pos);
    if LevelOK(files) && WellFormed(t) {
      DisjointIsSorted(files);
      SortedStartsSplit(files, t.Smallest());
      InsertKeepsOrder(files, t, pos);
      if forall i | 0 <= i < |files| :: Apart(t, files[i]) {
        ApartNeighbours(files, t, pos);
      }
    }
    if LevelSorted(files) && Comparable(files, t) {
      SortedStartsSplit(files, t.Smallest());
      InsertKeepsSorted(files, t, pos);
    }
    if LevelSorted(r) {
      SortedWithout(files, t, pos);
    }
  }

  lemma MidSplits(files: seq<Table>, key: Bytes, mid: nat)
    requires mid < |files|
    ensures StartsSplit(files, key) && Less(files[mid].Smallest(), key) ==>
              forall i | 0 <= i <= mid :: Less(files[i].Smallest(), key)
    ensures StartsSplit(files, key) && !Less(files[mid].Smallest(), key) ==>
              forall i | mid <= i < |files| :: LessEq(key, files[i].Smallest())
  {
    hide Less;
    TotalOrder();
  }

  lemma InsertKeepsSorted(files: seq<Table>, t: Table, pos: nat)
    requires LevelSorted(files) && Comparable(files, t) && pos <= |files|
    requires forall i | 0 <= i < pos :: Less(files[i].Smallest(), t.Smallest())
    requires forall i | pos <= i < |files| :: LessEq(t.Smallest(), files[i].Smallest())
    ensures LevelSorted(files[..pos] + [t] + files[pos..]) <==> !Tied(files, t)
  {
    hide Less, WellFormed, Precedes;
    TotalOrder();
    var r := files[..pos] + [t] + files[pos..];
    assert r[pos] == t && forall i | 0 <= i < |files| :: files[i] == if i < pos then r[i] else r[i + 1];
    forall i | 0 <= i < |files|
      ensures i < pos ==> Precedes(files[i], t) && files[i].Smallest() != t.Smallest()
      ensures i >= pos && Precedes(files[i], t) ==> files[i].Smallest() == t.Smallest() && !Precedes(t, files[i])
    {
      assert files[i] in files && WellFormed(files[i]);
      if Precedes(files[i], t) {
        RangesAscend(files[i], t);
      } else {
        RangesAscend(t, files[i]);
      }
    }
    if Tied(files, t) {
      var f :| f in files && Precedes(f, t) && f.Smallest() == t.Smallest();
      var i :| 0 <= i < |files| && files[i] == f;
      assert !Precedes(r[pos], r[i + 1]);
    } else {
      assert forall i | pos <= i < |files| :: files[i] in files && Precedes(t, files[i]);
    }
  }

  /** Taking a file out of a sorted level leaves it sorted. */
  lemma SortedWithout(files: seq<Table>, t: Table, pos: nat)
    requires pos <= |files| && LevelSorted(files[..pos] + [t] + files[pos..])
    ensures LevelSorted(files)
  {
    hide WellFormed, Precedes;
    var r := files[..pos] + [t] + files[pos..];
    assert forall i | 0 <= i < |files| :: files[i] == if i < pos then r[i] else r[i + 1];
    forall i | 0 <= i < |files| ensures WellFormed(files[i]) {
      assert WellFormed(r[if i < pos then i else i + 1]);
    }
    forall i, j | 0 <= i < j < |files| ensures Precedes(files[i], files[j]) {
      var a, b := if i < pos then i else i + 1, if j < pos then j else j + 1;
      assert Precedes(r[a], r[b]);
    }
  }

  /** A level whose consulted file misses the newest version of the key: the new file was
      put in front of the one that holds it, and no file before them ends with the key. */
  method TieReadsStale(files: seq<Table>, t: Table, f: Table) returns (r: seq<Table>, file: Option<Table>)
    requires LevelSorted(files) && Comparable(files, t) && f in files
    requires Precedes(f, t) && f.Smallest() == t.Smallest()
    requires forall g | g in files && Less(g.Smallest(), t.Smallest()) :: Less(g.Largest(), t.Smallest())
    ensures file == Some(t) && f.entries != [] && forall g :: g in r <==> g == t || g in files
    ensures f.entries[0].key == t.Smallest() && !HoldsNewest(t, f.entries[0])
  {
    hide Less, WellFormed, EndsSplit, Precedes, FirstAt, LevelOK, InsertedAt, Tied;
    assert WellFormed(f) && WellFormed(t);
    hide LevelSorted, Comparable;
    TieMisses(f, t);
    var warned;
    r, warned := InsertIntoLevel(files, t);
    ghost var pos :| 0 <= pos <= |files| && InsertedAt(files, t, pos) && r == files[..pos] + [t] + files[pos..];
    TieFound(files, t, f, pos);
    InsertedMembers(files, t, pos);
    file := FileFor(r, t.Smallest());
    assert FirstAt(r, t.Smallest(), pos) && r[pos] == t;
  }

  lemma InsertedMembers(files: seq<Table>, t: Table, pos: nat)
    requires pos <= |files|
    ensures forall g :: g in files[..pos] + [t] + files[pos..] <==> g == t || g in files
  {
    assert files == files[..pos] + files[pos..];
  }

  lemma TieFound(files: seq<Table>, t: Table, f: Table, pos: nat)
    requires LevelSorted(files) && Comparable(files, t) && f in files && InsertedAt(files, t, pos)
    requires forall g | g in files && Less(g.Smallest(), t.Smallest()) :: Less(g.Largest(), t.Smallest())
    ensures var r := files[..pos] + [t] + files[pos..];
            EndsSplit(r, t.Smallest()) && f in r && FirstAt(r, t.Smallest(), pos)
  {
    hide Less, WellFormed, StartsSplit, Precedes, LessEq;
    var key := t.Smallest();
    SortedStartsSplit(files, key);
    Spanned(t);
    forall i | pos <= i < |files| ensures LessEq(key, files[i].Largest()) {
      Spanned(files[i]);
      LessEqTransitive(key, files[i].Smallest(), files[i].Largest());
    }
    assert forall i | 0 <= i < pos :: files[i] in files;
    Ends(files, t, pos);
    assert f in files[..pos] + files[pos..] by {
      assert files == files[..pos] + files[pos..];
    }
  }

  lemma LessEqTransitive(a: Bytes, b: Bytes, c: Bytes)
    requires LessEq(a, b) && LessEq(b, c)
    ensures LessEq(a, c)
  {
    hide Less;
    TotalOrder();
  }

  lemma Ends(files: seq<Table>, t: Table, pos: nat)
    requires pos <= |files| && LessEq(t.Smallest(), t.Largest())
    requires forall i | 0 <= i < pos :: Less(files[i].Largest(), t.Smallest())
    requires forall i | pos <= i < |files| :: LessEq(t.Smallest(), files[i].Largest())
    ensures var r := files[..pos] + [t] + files[pos..];
            EndsSplit(r, t.Smallest()) && FirstAt(r, t.Smallest(), pos)
  {
    hide Less;
    var r, key := files[..pos] + [t] + files[pos..], t.Smallest();
    LessIrreflexive(key);
    assert r[pos] == t;
    assert forall i | 0 <= i < pos :: r[i] == files[i];
    assert forall i | pos < i < |r| :: r[i] == files[i - 1];
  }

  lemma Spanned(t: Table)
    requires WellFormed(t)
    ensures LessEq(t.Smallest(), t.Largest())
  {
    hide Less, Sorted;
    InRange(t, t.entries[0]);
  }

  lemma TieMisses(f: Table, t: Table)
    requires WellFormed(f) && WellFormed(t) && Precedes(f, t) && f.Smallest() == t.Smallest()
    ensures f.entries != [] && f.entries[0].key == t.Smallest() && !HoldsNewest(t, f.entries[0])
  {
    hide Less, Sorted;
    forall w | w in t.entries && w.key == f.entries[0].key ensures w.seqno < f.entries[0].seqno {
      PrecedesAll(f, t, f.entries[0], w);
      LessIrreflexive(w.key);
    }
  }

  /** A tie hides other keys as well: of two files that start with one key, the one that
      belongs behind comes first, ends further up, and none of its other keys is found. */
  method TieHidesKeys(f: Table, t: Table, key: Bytes) returns (r: seq<Table>, file: Option<Table>)
    requires WellFormed(f) && WellFormed(t) && Precedes(f, t) && f.Smallest() == t.Smallest()
    requires Less(t.Smallest(), key)
    ensures r == [t, f] && file == None
  {
    var warned;
    r, warned := InsertIntoLevel([f], t);
    assert r == [t, f] by {
      hide Less, WellFormed, Precedes;
      LessIrreflexive(t.Smallest());
      assert StartsSplit([f], t.Smallest());
    }
    RangesAscend(f, t);
    Spanned(f);
    hide Less, WellFormed, Precedes, LevelSorted, LevelOK;
    TotalOrder();
    assert Less(r[1].Largest(), key);
    assert Bound(r, key, 2, 2) == 2 && Bound(r, key, 0, 2) == Bound(r, key, 2, 2);
    file := FileFor(r, key);
  }

  /** What a read of the key looks at in a level. */
  ghost function Asked(files: seq<Table>, key: Bytes): set<Version> {
    match Consulted(files, key)
    case None => {}
    case Some(t) => Elems(t.entries)
  }

  /** On a sorted level the consulted file gives the newest visible version of the level for
      every key and snapshot exactly when the files are disjoint. */
  lemma SnapshotsExactly(files: seq<Table>)
    requires LevelSorted(files)
    ensures (forall k, s, v :: IsNewest(v, LevelSet(files), k, s) <==> IsNewest(v, Asked(files, k), k, s)) <==> LevelOK(files)
  {
    hide LevelSet, Consulted, Asked, LevelSorted, LevelOK;
    if LevelOK(files) {
      forall k, s, v ensures IsNewest(v, LevelSet(files), k, s) <==> IsNewest(v, Asked(files, k), k, s) {
        AskedHoldsKey(files, k);
      }
    } else {
      var older := SharedKey(files);
      var k, s := older.key, older.seqno;
      assert Visible(older, k, s);
      var u := NewestOf(LevelSet(files), k, s);
      assert !IsNewest(u, Asked(files, k), k, s);
    }
  }

  lemma AskedHoldsKey(files: seq<Table>, k: Bytes)
    requires LevelOK(files)
    ensures forall v: Version | v.key == k :: v in LevelSet(files) <==> v in Asked(files, k)
  {
    hide Less, WellFormed, LevelOK;
    var lo := FirstOf(files, k);
    forall i, v | 0 <= i < |files| && v in files[i].entries && v.key == k ensures v in Asked(files, k) {
      ConsultedHoldsAll(files, k, lo, i, v);
    }
    if lo < |files| {
      FileMembers(files, lo);
    }
  }

  lemma FileMembers(files: seq<Table>, i: nat)
    requires i < |files|
    ensures forall v | v in files[i].entries :: v in LevelSet(files)
  {
  }

  lemma FirstOf(files: seq<Table>, k: Bytes) returns (lo: nat)
    requires LevelSorted(files) || LevelOK(files)
    ensures lo <= |files| && (forall i | 0 <= i < lo :: Less(files[i].Largest(), k))
    ensures forall i | lo <= i < |files| :: LessEq(k, files[i].Largest())
    ensures Consulted(files, k) == if lo < |files| && LessEq(files[lo].Smallest(), k) then Some(files[lo]) else None
  {
    hide Less, WellFormed, Precedes;
    lo := 0;
    if LevelOK(files) {
      DisjointIsSorted(files);
    }
    SortedEndsSplit(files, k);
    while lo < |files| && Less(files[lo].Largest(), k)
      invariant lo <= |files| && forall i | 0 <= i < lo :: Less(files[i].Largest(), k)
    {
      lo := lo + 1;
    }
    ConsultedAt(files, k, lo);
  }

  /** Two files share a key, and the file consulted for it has none of its older versions. */
  lemma SharedKey(files: seq<Table>) returns (older: Version)
    requires LevelSorted(files) && !LevelOK(files)
    ensures older in LevelSet(files) && NoneVisible(Asked(files, older.key), older.key, older.seqno)
  {
    hide Less, WellFormed, Precedes, Consulted;
    var i, j :| 0 <= i < j < |files| && !Less(files[i].Largest(), files[j].Smallest());
    assert Precedes(files[i], files[j]) && WellFormed(files[i]) && WellFormed(files[j]);
    older := SharedEnds(files[i], files[j]);
    FileMembers(files, j);
    var lo := FirstOf(files, older.key);
    LessIrreflexive(older.key);
    assert lo <= i;
    forall w | w in files[lo].entries && w.key == older.key ensures w.seqno > older.seqno {
      FilesOrdered(files, lo, j, w, older);
      LessIrreflexive(w.key);
    }
  }

  lemma SharedEnds(a: Table, b: Table) returns (older: Version)
    requires WellFormed(a) && WellFormed(b) && Precedes(a, b) && !Less(a.Largest(), b.Smallest())
    ensures older in b.entries && older.key == a.Largest()
  {
    older := b.entries[0];
  }

  lemma SmallestAscends(files: seq<Table>, m: nat)
    requires LevelOK(files) && m < |files|
    ensures forall i | 0 <= i < m :: Less(files[i].Smallest(), files[m].Smallest())
    ensures forall i | m < i < |files| :: Less(files[m].Smallest(), files[i].Smallest())
  {
    forall i, j | 0 <= i < j < |files| ensures Less(files[i].Smallest(), files[j].Smallest()) {
      TotalOrder();
      InRange(files[i], files[i].entries[0]);
    }
  }

  lemma InsertKeepsOrder(files: seq<Table>, t: Table, pos: nat)
    requires LevelOK(files) && WellFormed(t) && pos <= |files|
    ensures LevelOK(files[..pos] + [t] + files[pos..])
            <==> && (pos < |files| ==> Less(t.Largest(), files[pos].Smallest()))
                 && (pos > 0 ==> Less(files[pos - 1].Largest(), t.Smallest()))
  {
    hide Less, WellFormed;
    var r := files[..pos] + [t] + files[pos..];
    assert r[pos] == t && (pos < |files| ==> r[pos + 1] == files[pos]) && (pos > 0 ==> r[pos - 1] == files[pos - 1]);
    if (pos < |files| ==> Less(t.Largest(), files[pos].Smallest())) && (pos > 0 ==> Less(files[pos - 1].Largest(), t.Smallest())) {
      FitsBetween(files, t, pos);
      forall i | 0 <= i < |r| ensures WellFormed(r[i]) {
        assert r[i] == if i < pos then files[i] else if i == pos then t else files[i - 1];
      }
    }
  }

  lemma FitsBetween(files: seq<Table>, t: Table, pos: nat)
    requires LevelOK(files) && pos <= |files|
    requires pos < |files| ==> Less(t.Largest(), files[pos].Smallest())
    requires pos > 0 ==> Less(files[pos - 1].Largest(), t.Smallest())
    ensures forall i | pos <= i < |files| :: Less(t.Largest(), files[i].Smallest())
    ensures forall i | 0 <= i < pos :: Less(files[i].Largest(), t.Smallest())
  {
    hide Less, WellFormed;
    if pos < |files| {
      SmallestAscends(files, pos);
    }
    if pos > 0 {
      LargestAscends(files, pos - 1);
    }
    hide LevelOK;
    TotalOrder();
  }

  lemma ApartNeighbours(files: seq<Table>, t: Table, pos: nat)
    requires LevelOK(files) && WellFormed(t) && pos <= |files|
    requires forall i | 0 <= i < pos :: Less(files[i].Smallest(), t.Smallest())
    requires forall i | pos <= i < |files| :: LessEq(t.Smallest(), files[i].Smallest())
    requires forall i | 0 <= i < |files| :: Apart(t, files[i])
    ensures pos < |files| ==> Less(t.Largest(), files[pos].Smallest())
    ensures pos > 0 ==> Less(files[pos - 1].Largest(), t.Smallest())
  {
    hide Less;
    TotalOrder();
    InRange(t, t.entries[0]);
    if pos < |files| {
      InRange(files[pos], files[pos].entries[0]);
    }
    if pos > 0 {
      InRange(files[pos - 1], files[pos - 1].entries[0]);
    }
  }

  // ---------------------------------------------------------------- selection

  predicate Overlaps(t: Table, min: Bytes, max: Bytes) {
    LessEq(min, t.Largest()) && LessEq(t.Smallest(), max)
  }

  /** A file overlaps a key range when some key lies in both. */
  lemma OverlapsIsShared(t: Table, min: Bytes, max: Bytes)
    requires WellFormed(t) && LessEq(min, max)
    ensures Overlaps(t, min, max) <==>
              exists k :: LessEq(min, k) && LessEq(k, max) && LessEq(t.Smallest(), k) && LessEq(k, t.Largest())
  {
    InRange(t, t.entries[0]);
    hide Less, WellFormed;
    TotalOrder();
    if Overlaps(t, min, max) {
      var k := if LessEq(min, t.Smallest()) then t.Smallest() else min;
      assert LessEq(min, k) && LessEq(k, max) && LessEq(t.Smallest(), k) && LessEq(k, t.Largest());
    }
  }

  /** The files of a level whose range meets [min, max], in level order. */
  function Selected(files: seq<Table>, min: Bytes, max: Bytes): seq<Table> {
    if files == [] then []
    else
      var n := |files| - 1;
      Selected(files[..n], min, max) + if Overlaps(files[n], min, max) then [files[n]] else []
  }

  /** What remove_if leaves of a level when those files are taken out. */
  function Remaining(files: seq<Table>, min: Bytes, max: Bytes): seq<Table> {
    if files == [] then []
    else
      var n := |files| - 1;
      Remaining(files[..n], min, max) + if Overlaps(files[n], min, max) then [] else [files[n]]
  }

  /** The selection loop and the detach loop over one level. */
  method Split(files: seq<Table>, min: Bytes, max: Bytes) returns (selected: seq<Table>, remaining: seq<Table>)
    ensures selected == Selected(files, min, max)
    ensures remaining == Remaining(files, min, max)
  {
    selected, remaining := [], [];
    for i := 0 to |files|
      invariant selected == Selected(files[..i], min, max)
      invariant remaining == Remaining(files[..i], min, max)
    {
      assert files[..i + 1][..i] == files[..i];
      if Overlaps(files[i], min, max) {
        selected := selected + [files[i]];
      } else {
        remaining := remaining + [files[i]];
      }
    }
    assert files[..|files|] == files;
  }

  lemma {:induction false} SplitMembers(files: seq<Table>, min: Bytes, max: Bytes)
    ensures forall t :: t in Selected(files, min, max) <==> t in files && Overlaps(t, min, max)
    ensures forall t :: t in Remaining(files, min, max) <==> t in files && !Overlaps(t, min, max)
  {
    if files != [] {
      var n := |files| - 1;
      SplitMembers(files[..n], min, max);
      assert files == files[..n] + [files[n]];
    }
  }

  lemma LevelAppend(files: seq<Table>, t: Table)
    requires LevelOK(files) && WellFormed(t)
    requires forall f | f in files :: Less(f.Largest(), t.Smallest())
    ensures LevelOK(files + [t])
  {
    hide Less, WellFormed;
  }

  lemma LevelInit(files: seq<Table>)
    requires LevelOK(files) && files != []
    ensures var n := |files| - 1;
            && LevelOK(files[..n]) && WellFormed(files[n])
            && forall f | f in files[..n] :: Less(f.Largest(), files[n].Smallest())
  {
    hide Less, WellFormed;
  }

  lemma SortedAppended(files: seq<Table>, t: Table)
    requires LevelSorted(files) && WellFormed(t)
    requires forall f | f in files :: Precedes(f, t)
    ensures LevelSorted(files + [t])
  {
    hide Precedes, WellFormed;
  }

  lemma SortedInit(files: seq<Table>)
    requires LevelSorted(files) && files != []
    ensures var n := |files| - 1;
            && LevelSorted(files[..n]) && WellFormed(files[n])
            && forall f | f in files[..n] :: Precedes(f, files[n])
  {
    hide Precedes, WellFormed;
  }

  /** Selection and detachment keep the order. */
  lemma {:induction false} SplitSorted(files: seq<Table>, min: Bytes, max: Bytes)
    requires LevelSorted(files)
    ensures LevelSorted(Selected(files, min, max)) && LevelSorted(Remaining(files, min, max))
  {
    hide Overlaps, Precedes, WellFormed;
    if files != [] {
      hide LevelSorted;
      var n := |files| - 1;
      SortedInit(files);
      SplitSorted(files[..n], min, max);
      SplitMembers(files[..n], min, max);
      if Overlaps(files[n], min, max) {
        SortedAppended(Selected(files[..n], min, max), files[n]);
      } else {
        SortedAppended(Remaining(files[..n], min, max), files[n]);
      }
    }
  }

  lemma {:induction false} RemainingOK(files: seq<Table>, min: Bytes, max: Bytes)
    requires LevelOK(files)
    ensures LevelOK(Remaining(files, min, max))
  {
    hide Overlaps, Less, WellFormed;
    if files != [] {
      hide LevelOK;
      var n := |files| - 1;
      LevelInit(files);
      RemainingOK(files[..n], min, max);
      SplitMembers(files[..n], min, max);
      if !Overlaps(files[n], min, max) {
        LevelAppend(Remaining(files[..n], min, max), files[n]);
      }
    }
  }

  /** A key the merge of [min, max] with the files it selects can produce. */
  ghost predicate InHull(x: Bytes, files: seq<Table>, min: Bytes, max: Bytes) {
    || (LessEq(min, x) && LessEq(x, max))
    || exists t, v :: t in Selected(files, min, max) && v in t.entries && v.key == x
  }

  /** A file that was not selected lies wholly on one side of everything merged. */
  lemma {:induction false} BesideHull(files: seq<Table>, min: Bytes, max: Bytes, r: Table, x: Bytes)
    requires LevelOK(files) && r in Remaining(files, min, max) && InHull(x, files, min, max)
    ensures Less(r.Largest(), min) ==> Less(r.Largest(), x)
    ensures Less(max, r.Smallest()) ==> Less(x, r.Smallest())
    ensures Less(r.Largest(), min) || Less(max, r.Smallest())
  {
    hide Less, WellFormed, Selected, Remaining, LevelOK, InHull;
    SplitMembers(files, min, max);
    TotalOrder();
    Spans(files, r);
    if !(LessEq(min, x) && LessEq(x, max)) {
      var t := InSelected(x, files, min, max);
      Separate(files, t, r);
    }
  }

  lemma InSelected(x: Bytes, files: seq<Table>, min: Bytes, max: Bytes) returns (t: Table)
    requires LevelOK(files) && InHull(x, files, min, max) && !(LessEq(min, x) && LessEq(x, max))
    ensures t in files && Overlaps(t, min, max) && LessEq(t.Smallest(), x) && LessEq(x, t.Largest())
  {
    hide Less, Selected, Sorted;
    SplitMembers(files, min, max);
    var u, v :| u in Selected(files, min, max) && v in u.entries && v.key == x;
    t := u;
    InRange(t, v);
  }

  /** Two files of a level lie on different sides of each other. */
  lemma Separate(files: seq<Table>, t: Table, r: Table)
    requires LevelOK(files) && t in files && r in files
    ensures t == r || Less(t.Largest(), r.Smallest()) || Less(r.Largest(), t.Smallest())
  {
    hide Less, WellFormed;
    var i, j :| 0 <= i < |files| && files[i] == t && 0 <= j < |files| && files[j] == r;
    assert i < j ==> Less(files[i].Largest(), files[j].Smallest());
    assert j < i ==> Less(files[j].Largest(), files[i].Smallest());
  }

  lemma Spans(files: seq<Table>, t: Table)
    requires LevelOK(files) && t in files
    ensures WellFormed(t) && LessEq(t.Smallest(), t.Largest())
  {
    hide Less, Sorted;
    var i :| 0 <= i < |files| && files[i] == t;
    InRange(t, t.entries[0]);
  }

  lemma {:induction false} HullApart(files: seq<Table>, min: Bytes, max: Bytes, r: Table, o: Table)
    requires LevelOK(files) && r in Remaining(files, min, max) && WellFormed(o)
    requires forall v | v in o.entries :: InHull(v.key, files, min, max)
    ensures Apart(o, r)
  {
    hide Less, InHull, Remaining, Sorted;
    BesideHull(files, min, max, r, o.entries[0].key);
    BesideHull(files, min, max, r, o.entries[|o.entries| - 1].key);
  }

  /** A version the merge of [min, max] with the files it selects can produce. */
  ghost predicate InMerge(v: Version, files: seq<Table>, min: Bytes, max: Bytes) {
    || (LessEq(min, v.key) && LessEq(v.key, max))
    || exists t :: t in Selected(files, min, max) && v in t.entries
  }

  /** On a sorted level a file that was not selected comes wholly before or wholly behind
      everything merged. */
  lemma {:induction false} BesideMerge(files: seq<Table>, min: Bytes, max: Bytes, r: Table, v: Version)
    requires LevelSorted(files) && r in Remaining(files, min, max) && InMerge(v, files, min, max)
    ensures WellFormed(r) && (Less(r.Largest(), min) || Less(max, r.Smallest()))
    ensures Less(r.Largest(), min) ==> Before(r.entries[|r.entries| - 1], v)
    ensures Less(max, r.Smallest()) ==> Before(v, r.entries[0])
  {
    hide Less, Sorted, Selected, Remaining;
    SplitMembers(files, min, max);
    TotalOrder();
    assert WellFormed(r);
    InRange(r, r.entries[0]);
    if !(LessEq(min, v.key) && LessEq(v.key, max)) {
      var t :| t in Selected(files, min, max) && v in t.entries;
      SortedSeparate(files, t, r);
      InRange(t, t.entries[0]);
      var last := r.entries[|r.entries| - 1];
      if Precedes(r, t) {
        PrecedesAll(r, t, last, v);
        RangesAscend(r, t);
      } else {
        PrecedesAll(t, r, v, r.entries[0]);
        RangesAscend(t, r);
      }
    }
  }

  lemma SortedSeparate(files: seq<Table>, t: Table, r: Table)
    requires LevelSorted(files) && t in files && r in files && t != r
    ensures WellFormed(t) && WellFormed(r) && (Precedes(t, r) || Precedes(r, t))
  {
    hide Precedes, WellFormed;
    var i, j :| 0 <= i < |files| && files[i] == t && 0 <= j < |files| && files[j] == r;
    assert i < j ==> Precedes(files[i], files[j]);
    assert j < i ==> Precedes(files[j], files[i]);
  }

  lemma {:induction false} MergeComparable(files: seq<Table>, min: Bytes, max: Bytes, o: Table)
    requires LevelSorted(files) && WellFormed(o) && forall v | v in o.entries :: InMerge(v, files, min, max)
    ensures Comparable(Remaining(files, min, max), o)
  {
    hide Less, InMerge, Remaining, Sorted;
    forall r | r in Remaining(files, min, max) ensures Precedes(r, o) || Precedes(o, r) {
      BesideMerge(files, min, max, r, o.entries[0]);
      BesideMerge(files, min, max, r, o.entries[|o.entries| - 1]);
    }
  }

  // ---------------------------------------------------------------- installing outputs

  /** The outputs in the order of their versions, comparable to the files that stayed. */
  ghost predicate Arranged(files: seq<Table>, outs: seq<Table>) {
    && LevelSorted(files)
    && (forall i | 0 <= i < |outs| :: Comparable(files, outs[i]))
    && forall i, j | 0 <= i < j < |outs| :: Precedes(outs[i], outs[j])
  }

  /** Some output starts with the same key as a file or an output that belongs in front
      of it. */
  predicate AnyTied(files: seq<Table>, outs: seq<Table>) {
    exists i | 0 <= i < |outs| :: Tied(files + outs[..i], outs[i])
  }

  lemma TiedMembers(files: seq<Table>, files': seq<Table>, t: Table)
    requires forall f :: f in files <==> f in files'
    ensures Tied(files, t) <==> Tied(files', t)
  {
    hide Precedes;
  }

  lemma ComparableInstalled(files: seq<Table>, outs: seq<Table>, i: nat, r: seq<Table>)
    requires Arranged(files, outs) && i < |outs| && forall t :: t in r <==> t in files || t in outs[..i]
    ensures Comparable(r, outs[i]) && (Tied(r, outs[i]) <==> Tied(files + outs[..i], outs[i]))
  {
    hide Precedes, WellFormed, LevelSorted;
    forall f | f in r ensures Precedes(f, outs[i]) || Precedes(outs[i], f) {
      assert Comparable(files, outs[i]);
      if f !in files {
        var m :| 0 <= m < i && outs[m] == f;
      }
    }
    TiedMembers(r, files + outs[..i], outs[i]);
  }

  ghost predicate PairwiseApart(outs: seq<Table>) {
    forall i, j | 0 <= i < j < |outs| :: Apart(outs[j], outs[i])
  }

  /** The outputs fit into the level: well formed and apart from it and each other. */
  ghost predicate Fits(files: seq<Table>, outs: seq<Table>) {
    && LevelOK(files) && PairwiseApart(outs)
    && (forall i | 0 <= i < |outs| :: WellFormed(outs[i]))
    && forall i, f | 0 <= i < |outs| && f in files :: Apart(outs[i], f)
  }

  /** Inserting the outputs one by one: without a warning the level stays disjoint, and
      outputs that fit it raise none; it stays sorted exactly when there is no tie. */
  method InstallOutputs(files: seq<Table>, outs: seq<Table>) returns (r: seq<Table>, warned: bool)
    ensures LevelOK(files) && (forall i | 0 <= i < |outs| :: WellFormed(outs[i])) && !warned ==> LevelOK(r)
    ensures Fits(files, outs) ==> !warned
    ensures Arranged(files, outs) ==> (LevelSorted(r) <==> !AnyTied(files, outs))
    ensures forall t :: t in r <==> t in files || t in outs
    ensures LevelSet(r) == LevelSet(files) + LevelSet(outs)
  {
    hide WellFormed, LevelSorted, LevelOK, Fits, Arranged, Tied, Comparable, InsertedAt;
    r, warned := files, false;
    ghost var tied := false;
    if Arranged(files, outs) {
      ArrangedFiles(files, outs);
    }
    if Fits(files, outs) {
      FitFiles(files, outs);
    }
    for i := 0 to |outs|
      invariant LevelOK(files) && (forall i | 0 <= i < |outs| :: WellFormed(outs[i])) && !warned ==> LevelOK(r)
      invariant Fits(files, outs) ==> !warned
      invariant forall t :: t in r <==> t in files || t in outs[..i]
      invariant tied <==> exists j | 0 <= j < i :: Tied(files + outs[..j], outs[j])
      invariant Arranged(files, outs) ==> (LevelSorted(r) <==> !tied)
    {
      ghost var before := r;
      if Fits(files, outs) {
        ApartFromInstalled(files, outs, i, r);
      }
      if Arranged(files, outs) {
        ComparableInstalled(files, outs, i, r);
      }
      var w: bool;
      r, w := InsertIntoLevel(r, outs[i]);
      warned := warned || w;
      ghost var pos :| 0 <= pos <= |before| && r == before[..pos] + [outs[i]] + before[pos..];
      assert before == before[..pos] + before[pos..];
      assert outs[..i + 1] == outs[..i] + [outs[i]];
      tied := tied || Tied(files + outs[..i], outs[i]);
    }
    LevelSetMembers(r);
    LevelSetMembers(files);
    LevelSetMembers(outs);
    assert outs[..|outs|] == outs;
  }

  lemma FitFiles(files: seq<Table>, outs: seq<Table>)
    requires Fits(files, outs)
    ensures LevelOK(files) && forall i | 0 <= i < |outs| :: WellFormed(outs[i])
  {
  }

  lemma ArrangedFiles(files: seq<Table>, outs: seq<Table>)
    requires Arranged(files, outs)
    ensures LevelSorted(files)
  {
  }

  /** The outputs whose table could be opened again; the others are left out. */
  function Opened(outs: seq<Table>, openOk: nat -> bool): (r: seq<Table>)
    ensures |r| <= |outs| && (r == outs <==> |r| == |outs|)
    ensures (forall i | 0 <= i < |outs| :: openOk(i)) ==> r == outs
  {
    if outs == [] then []
    else
      var n := |outs| - 1;
      Opened(outs[..n], openOk) + if openOk(n) then [outs[n]] else []
  }

  lemma ApartFromInstalled(files: seq<Table>, outs: seq<Table>, i: nat, r: seq<Table>)
    requires Fits(files, outs) && i < |outs| && forall t | t in r :: t in files || t in outs[..i]
    ensures LevelOK(files) && WellFormed(outs[i]) && forall j | 0 <= j < |r| :: Apart(outs[i], r[j])
  {
    forall j | 0 <= j < |r| ensures Apart(outs[i], r[j]) {
      assert r[j] in r;
      if r[j] !in files {
        var m :| 0 <= m < i && outs[m] == r[j];
      }
    }
  }

  lemma LevelSetMembers(files: seq<Table>)
    ensures forall v :: v in LevelSet(files) <==> exists t :: t in files && v in t.entries
  {
    forall v ensures v in LevelSet(files) <==> exists t :: t in files && v in t.entries {
      if t :| t in files && v in t.entries {
        var i :| 0 <= i < |files| && files[i] == t;
        assert v in files[i].entries;
      }
    }
  }

  // ---------------------------------------------------------------- reloading a level

  /** No two files start with the same key. */
  ghost predicate DistinctStarts(files: seq<Table>) {
    forall i, j | 0 <= i < j < |files| :: files[i].Smallest() != files[j].Smallest()
  }

  /** The same files, each once, in any order. */
  ghost predicate Reorders(files: seq<Table>, level: seq<Table>) {
    && (forall t :: t in files <==> t in level)
    && forall i, j | 0 <= i < j < |files| :: files[i] != files[j]
  }

  /** A level is determined by its files. */
  lemma {:induction false} SortedUnique(a: seq<Table>, b: seq<Table>)
    requires LevelSorted(a) && LevelSorted(b) && forall t :: t in a <==> t in b
    ensures a == b
  {
    hide WellFormed, Precedes;
    if a == [] {
      NoMembers(b);
    } else {
      assert a[0] in b;
      SortedHead(a, b);
      TailMembers(a);
      TailMembers(b);
      SortedUnique(a[1..], b[1..]);
      assert a == [a[0]] + a[1..] && b == [b[0]] + b[1..];
    }
  }

  lemma SortedHead(a: seq<Table>, b: seq<Table>)
    requires LevelSorted(a) && LevelSorted(b) && a != [] && b != [] && forall t :: t in a <==> t in b
    ensures a[0] == b[0]
  {
    hide WellFormed, Precedes;
    assert a[0] in b && b[0] in a;
    var i :| 0 <= i < |b| && b[i] == a[0];
    var j :| 0 <= j < |a| && a[j] == b[0];
    if i > 0 && j > 0 {
      assert Precedes(b[0], b[i]) && Precedes(a[0], a[j]);
      RangesAscend(a[0], b[0]);
      assert false;
    }
  }

  /** The rest of a sorted level is sorted and lacks exactly its first file. */
  lemma TailMembers(a: seq<Table>)
    requires LevelSorted(a) && a != []
    ensures LevelSorted(a[1..]) && forall t :: t in a[1..] <==> t in a && t != a[0]
  {
    hide WellFormed, Precedes;
    var rest := a[1..];
    assert forall i | 0 <= i < |rest| :: rest[i] == a[i + 1];
    forall i | 0 < i < |a| ensures a[i] != a[0] {
      assert Precedes(a[0], a[i]);
      RangesAscend(a[0], a[i]);
    }
    assert forall t | t in rest :: t in a;
  }

  lemma OtherStart(level: seq<Table>, f: Table, t: Table)
    requires LevelSorted(level) && DistinctStarts(level) && f in level && t in level && f != t
    ensures (Precedes(f, t) || Precedes(t, f)) && f.Smallest() != t.Smallest()
  {
    hide WellFormed, Precedes;
    SortedSeparate(level, f, t);
    var i, j :| 0 <= i < |level| && level[i] == f && 0 <= j < |level| && level[j] == t;
    assert i < j ==> level[i].Smallest() != level[j].Smallest();
    assert j < i ==> level[j].Smallest() != level[i].Smallest();
  }

  /** Loading the files of a level from the MANIFEST, in whatever order it lists them, gives
      the level back when no two of them start with the same key. */
  method Reload(files: seq<Table>, ghost level: seq<Table>) returns (r: seq<Table>)
    ensures LevelSorted(level) && DistinctStarts(level) && Reorders(files, level) ==> r == level
  {
    hide WellFormed, Precedes, LevelSorted, LevelOK, Tied, Comparable, InsertedAt, DistinctStarts, Reorders;
    r := [];
    ghost var good := LevelSorted(level) && DistinctStarts(level) && Reorders(files, level);
    NothingLoaded();
    for i := 0 to |files|
      invariant good ==> LevelSorted(r) && forall t :: t in r <==> t in files[..i]
    {
      if good {
        LoadsNext(files, level, r, i);
      }
      ghost var before := r;
      var warned;
      r, warned := InsertIntoLevel(r, files[i]);
      ghost var pos :| 0 <= pos <= |before| && r == before[..pos] + [files[i]] + before[pos..];
      assert before == before[..pos] + before[pos..];
      assert files[..i + 1] == files[..i] + [files[i]];
    }
    assert files[..|files|] == files;
    if good {
      SameFiles(files, level);
      SortedUnique(r, level);
    }
  }

  lemma NothingLoaded()
    ensures LevelSorted([])
  {
  }

  lemma SameFiles(files: seq<Table>, level: seq<Table>)
    requires Reorders(files, level)
    ensures forall t :: t in files <==> t in level
  {
  }

  lemma LoadsNext(files: seq<Table>, level: seq<Table>, r: seq<Table>, i: nat)
    requires LevelSorted(level) && DistinctStarts(level) && Reorders(files, level) && i < |files|
    requires forall t :: t in r <==> t in files[..i]
    ensures Comparable(r, files[i]) && !Tied(r, files[i])
  {
    hide WellFormed, Precedes, LevelSorted, DistinctStarts;
    var t := files[i];
    assert t in level;
    forall f | f in r ensures (Precedes(f, t) || Precedes(t, f)) && f.Smallest() != t.Smallest() {
      var j :| 0 <= j < i && files[j] == f;
      assert files[j] != files[i] && files[j] in files;
      OtherStart(level, f, t);
    }
    assert WellFormed(t) by {
      InLevel(level, t);
    }
  }

  lemma InLevel(level: seq<Table>, t: Table)
    requires LevelSorted(level) && t in level
    ensures WellFormed(t)
  {
  }

  // ---------------------------------------------------------------- the level-0 batch

  /** l0_min_key as the batch loop leaves it: later empty keys are skipped, but
      the first file's key is taken as it is. */
  function MinKey(batch: seq<Table>): Bytes
    requires batch != []
  {
    var n := |batch| - 1;
    if n == 0 then batch[0].Smallest()
    else
      var m, x := MinKey(batch[..n]), batch[n].Smallest();
      if x != [] && Less(x, m) then x else m
  }

  function MaxKey(batch: seq<Table>): Bytes
    requires batch != []
  {
    var n := |batch| - 1;
    if n == 0 then batch[0].Largest()
    else
      var m, x := MaxKey(batch[..n]), batch[n].Largest();
      if x != [] && Less(m, x) then x else m
  }

  method Level0Range(batch: seq<Table>) returns (min: Bytes, max: Bytes)
    requires batch != []
    ensures min == MinKey(batch) && max == MaxKey(batch)
    // Over tables with entries it is the least key and the greatest key of the batch.
    ensures (forall i | 0 <= i < |batch| :: batch[i].Smallest() != [] && batch[i].Largest() != []) ==>
              && (forall i | 0 <= i < |batch| :: LessEq(min, batch[i].Smallest()) && LessEq(batch[i].Largest(), max))
              && (exists i | 0 <= i < |batch| :: batch[i].Smallest() == min)
              && (exists i | 0 <= i < |batch| :: batch[i].Largest() == max)
  {
    min, max := batch[0].Smallest(), batch[0].Largest();
    assert batch[..1] == [batch[0]];
    for i := 1 to |batch|
      invariant min == MinKey(batch[..i]) && max == MaxKey(batch[..i])
    {
      assert batch[..i + 1][..i] == batch[..i];
      if batch[i].Smallest() != [] && Less(batch[i].Smallest(), min) {
        min := batch[i].Smallest();
      }
      if batch[i].Largest() != [] && Less(max, batch[i].Largest()) {
        max := batch[i].Largest();
      }
    }
    assert batch[..|batch|] == batch;
    if forall i | 0 <= i < |batch| :: batch[i].Smallest() != [] && batch[i].Largest() != [] {
      RangeCovers(batch);
      var i, j := RangeAttained(batch);
    }
  }

  /** Over tables with entries the range covers every key of the batch. */
  lemma {:induction false} RangeCovers(batch: seq<Table>)
    requires batch != [] && forall i | 0 <= i < |batch| :: batch[i].Smallest() != [] && batch[i].Largest() != []
    ensures MinKey(batch) != []
    ensures forall i | 0 <= i < |batch| ::
              LessEq(MinKey(batch), batch[i].Smallest()) && LessEq(batch[i].Largest(), MaxKey(batch))
  {
    hide Less;
    var n := |batch| - 1;
    TotalOrder();
    if n > 0 {
      RangeCovers(batch[..n]);
      assert forall i | 0 <= i < n :: batch[..n][i] == batch[i];
    }
  }

  lemma {:induction false} RangeAttained(batch: seq<Table>) returns (i: nat, j: nat)
    requires batch != []
    ensures i < |batch| && batch[i].Smallest() == MinKey(batch)
    ensures j < |batch| && batch[j].Largest() == MaxKey(batch)
  {
    hide Less;
    var n := |batch| - 1;
    i, j := n, n;
    if n > 0 {
      var x, y := RangeAttained(batch[..n]);
      i := if MinKey(batch) == batch[n].Smallest() then n else x;
      j := if MaxKey(batch) == batch[n].Largest() then n else y;
    }
  }

  /** The level-1 files the merge reads. */
  function Merged(batch: seq<Table>, level1: seq<Table>): seq<Table>
    requires batch != []
  {
    if level1 != [] && MinKey(batch) != [] then Selected(level1, MinKey(batch), MaxKey(batch)) else []
  }

  /** The level-1 files taken out of the version set once the merge is done. */
  function Detached(batch: seq<Table>, level1: seq<Table>): seq<Table>
    requires batch != []
  {
    Selected(level1, MinKey(batch), MaxKey(batch))
  }

  lemma NoMembers(files: seq<Table>)
    ensures files == [] <==> forall t :: t !in files
  {
    if files != [] {
      assert files[0] in files;
    }
  }

  lemma {:induction false} MinKeyEmpty(batch: seq<Table>)
    requires batch != [] && forall i | 0 <= i < |batch| :: batch[i].entries == [] || WellFormed(batch[i])
    ensures MinKey(batch) == [] <==> batch[0].entries == []
  {
    var n := |batch| - 1;
    if n > 0 {
      MinKeyEmpty(batch[..n]);
    }
    assert batch[0].entries != [] ==> batch[0].entries[0] in batch[0].entries;
  }

  /** The two guards of DoLevel0Compaction differ, so an empty table at the front
      of the batch lets level-1 files be detached that were never merged. They agree
      exactly when the oldest level-0 table has entries or level 1 starts above
      the whole batch. */
  lemma {:induction false} MergedIsDetached(batch: seq<Table>, level1: seq<Table>)
    requires batch != [] && forall i | 0 <= i < |batch| :: batch[i].entries == [] || WellFormed(batch[i])
    ensures Merged(batch, level1) == Detached(batch, level1)
            <==> batch[0].entries != [] || forall t | t in level1 :: Less(MaxKey(batch), t.Smallest())
  {
    MinKeyEmpty(batch);
    SplitMembers(level1, MinKey(batch), MaxKey(batch));
    if batch[0].entries == [] {
      forall t | t in level1 ensures LessEq(MinKey(batch), t.Largest()) {
        DiffersAt(t.Largest(), [], 0);
      }
      assert Merged(batch, level1) == [];
      NoMembers(Detached(batch, level1));
    }
  }
}
