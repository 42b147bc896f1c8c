/** The in-memory table: a list ordered by key, newest version first, plus the range
    tombstones recorded beside it. The skip list is its level-0 chain. */
module MemTables {
  import opened Bytes
  import opened Versions
  import opened History

  datatype Tomb = Tomb(begin: Bytes, end: Bytes, seqno: nat)

  /** The tombstone hides version `version` of `k` from a reader at `s`: it is newer
      than the version and visible to the reader. */
  predicate Hides(t: Tomb, k: Bytes, version: nat, s: nat) {
    version < t.seqno <= s && Covers(t.begin, t.end, k)
  }

  ghost predicate Hidden(tombs: seq<Tomb>, k: Bytes, version: nat, s: nat) {
    exists i | 0 <= i < |tombs| :: Hides(tombs[i], k, version, s)
  }

  /** The scan behind IsRangeDeleted and CoveredByRangeTombstone. */
  method FindHiding(tombs: seq<Tomb>, k: Bytes, version: nat, s: nat) returns (r: bool)
    ensures r == Hidden(tombs, k, version, s)
  {
    for i := 0 to |tombs|
      invariant forall j | 0 <= j < i :: !Hides(tombs[j], k, version, s)
    {
      if Hides(tombs[i], k, version, s) {
        return true;
      }
    }
    return false;
  }

  datatype Lookup = NotFound | Deleted(seqno: nat) | Found(value: Bytes, seqno: nat)

  /** Keys in order, the versions of one key in any order. */
  ghost predicate KeySorted(t: seq<Version>) {
    forall i, j | 0 <= i < j < |t| :: !Less(t[j].key, t[i].key)
  }

  lemma SortedKeys(t: seq<Version>)
    requires Sorted(t)
    ensures KeySorted(t)
  {
    hide Less;
    TotalOrder();
  }

  /** The list with a new node: in front of the first one whose key is not smaller. */
  function Linked(t: seq<Version>, v: Version): seq<Version> {
    if t == [] || !Less(t[0].key, v.key) then [v] + t else [t[0]] + Linked(t[1..], v)
  }

  lemma {:induction false} LinkedAt(t: seq<Version>, v: Version, p: nat)
    requires LinkPoint(t, v.key, p)
    ensures Linked(t, v) == t[..p] + [v] + t[p..]
    decreases p
  {
    hide Less;
    if p == 0 {
      assert t[..0] + [v] + t[0..] == [v] + t;
    } else {
      LinkedAt(t[1..], v, p - 1);
      assert [t[0]] + t[1..][..p - 1] == t[..p] && t[1..][p - 1..] == t[p..];
    }
  }

  lemma LinkedKeys(t: seq<Version>, v: Version, p: nat)
    requires KeySorted(t) && LinkPoint(t, v.key, p)
    ensures KeySorted(t[..p] + [v] + t[p..]) && Elems(t[..p] + [v] + t[p..]) == Elems(t) + {v}
  {
    hide Less;
    TotalOrder();
    assert t == t[..p] + t[p..];
  }

  lemma LinkPointExists(t: seq<Version>, key: Bytes) returns (p: nat)
    requires KeySorted(t)
    ensures LinkPoint(t, key, p)
  {
    hide Less;
    TotalOrder();
    p := 0;
    while p < |t| && Less(t[p].key, key)
      invariant p <= |t| && forall i | 0 <= i < p :: Less(t[i].key, key)
    {
      p := p + 1;
    }
  }

  /** Where a new node for `key` is linked in: in front of equal keys. */
  ghost predicate LinkPoint(t: seq<Version>, key: Bytes, p: nat) {
    && p <= |t|
    && (forall i | 0 <= i < p :: Less(t[i].key, key))
    && forall i | p <= i < |t| :: !Less(t[i].key, key)
  }

  lemma LinkSorted(t: seq<Version>, v: Version, p: nat)
    requires Sorted(t) && LinkPoint(t, v.key, p)
    requires forall w | w in t && w.key == v.key :: w.seqno < v.seqno
    ensures Sorted(t[..p] + [v] + t[p..])
    ensures Elems(t[..p] + [v] + t[p..]) == Elems(t) + {v}
  {
    hide Less;
    TotalOrder();
    assert t == t[..p] + t[p..];
    forall i | p <= i < |t| ensures Before(v, t[i]) {
      assert t[i] in t;
    }
  }

  /** Past the last entry of a key there is no version of it. */
  lemma {:induction false} Beyond(t: seq<Version>, i: nat, k: Bytes, s: nat)
    requires KeySorted(t) && i <= |t|
    requires i < |t| ==> t[i].key != k && !Less(t[i].key, k)
    ensures FirstVisible(t[i..], k, s) == None
  {
    hide Less;
    TotalOrder();
    forall j | 0 <= j < |t[i..]| ensures t[i..][j].key != k {
      assert t[i..][j] == t[i + j];
      assert j > 0 ==> !Less(t[i + j].key, t[i].key);
    }
    NoKey(t[i..], k, s);
  }

  lemma {:induction false} NoKey(t: seq<Version>, k: Bytes, s: nat)
    requires forall j | 0 <= j < |t| :: t[j].key != k
    ensures FirstVisible(t, k, s) == None
  {
    if t != [] {
      NoKey(t[1..], k, s);
    }
  }

  class MemTable {
    var entries: seq<Version>
    var tombs: seq<Tomb>

    constructor ()
      ensures entries == [] && tombs == []
    {
      entries, tombs := [], [];
    }

    predicate HasContent()
      reads this
    {
      entries != [] || tombs != []
    }

    /** SkipList::Insert and InsertDeletion: in front of equal keys, whatever their
        sequence numbers. A version newer than those of its key keeps newest first. */
    method Insert(v: Version)
      requires KeySorted(entries)
      modifies this`entries
      ensures entries == Linked(old(entries), v) && KeySorted(entries) && Elems(entries) == Elems(old(entries)) + {v}
      ensures Sorted(old(entries)) && (forall w | w in old(entries) && w.key == v.key :: w.seqno < v.seqno) ==> Sorted(entries)
    {
      var p := 0;
      while p < |entries| && Less(entries[p].key, v.key)
        invariant p <= |entries|
        invariant forall i | 0 <= i < p :: Less(entries[i].key, v.key)
      {
        p := p + 1;
      }
      assert LinkPoint(entries, v.key, p) by {
        hide Less;
        TotalOrder();
      }
      LinkedAt(entries, v, p);
      LinkedKeys(entries, v, p);
      if Sorted(entries) && forall w | w in entries && w.key == v.key :: w.seqno < v.seqno {
        LinkSorted(entries, v, p);
      }
      entries := entries[..p] + [v] + entries[p..];
    }

    method InsertRangeDeletion(t: Tomb)
      modifies this`tombs
      ensures tombs == old(tombs) + [t]
    {
      tombs := tombs + [t];
    }

    /** The first version in the list that is visible at `s`, a deletion reported as one. */
    method Find(k: Bytes, s: nat) returns (r: Lookup)
      requires KeySorted(entries)
      ensures match FirstVisible(entries, k, s)
              case None => r == NotFound
              case Some(v) =>
                if v.kind == Deletion || Hidden(tombs, k, v.seqno, s) then r == Deleted(v.seqno)
                else r == Found(v.value, v.seqno)
    {
      hide Less;
      var i := 0;
      while i < |entries| && Less(entries[i].key, k)
        invariant i <= |entries|
        invariant FirstVisible(entries[i..], k, s) == FirstVisible(entries, k, s)
      {
        LessIrreflexive(k);
        assert entries[i..][1..] == entries[i + 1..];
        i := i + 1;
      }
      while i < |entries| && entries[i].key == k && entries[i].seqno > s
        invariant i <= |entries|
        invariant FirstVisible(entries[i..], k, s) == FirstVisible(entries, k, s)
        invariant i < |entries| ==> !Less(entries[i].key, k)
      {
        LessIrreflexive(k);
        assert i + 1 < |entries| ==> !Less(entries[i + 1].key, entries[i].key);
        assert entries[i..][1..] == entries[i + 1..];
        i := i + 1;
      }
      if i == |entries| || entries[i].key != k {
        Beyond(entries, i, k, s);
        return NotFound;
      }
      var v := entries[i];
      if v.kind == Deletion {
        return Deleted(v.seqno);
      }
      var hidden := FindHiding(tombs, k, v.seqno, s);
      return if hidden then Deleted(v.seqno) else Found(v.value, v.seqno);
    }
  }
}
