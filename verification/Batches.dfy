/** A batch that names a key more than once, before and after its memtable is flushed:
    the list keeps the order of insertion, the sort of a flush does not. */
module Batches {
  import opened Bytes
  import opened Versions
  import opened History
  import opened MemTables
  import opened VersionSet
  import opened Engine

  // ---------------------------------------------------------------- in the memtable

  /** The memtable's list after the point operations of a write, in order. */
  function Applied(t: seq<Version>, w: Write, q: nat): seq<Version> {
    if w == [] then t
    else
      var n := |w| - 1;
      var front := Applied(t, w[..n], q);
      if w[n].DeleteRange? then front else Linked(front, VersionOf(w[n], q))
  }

  /** The last operation a write holds on `k`. */
  function LastOn(w: Write, k: Bytes): (r: Option<Op>)
    ensures r.Some? ==> r.value in w && OnKey(r.value, k) && !r.value.DeleteRange?
    ensures r.None? ==> forall i | 0 <= i < |w| :: !OnKey(w[i], k)
  {
    if w == [] then None
    else if OnKey(w[|w| - 1], k) then Some(w[|w| - 1])
    else LastOn(w[..|w| - 1], k)
  }

  lemma {:induction false} LinkedFirst(t: seq<Version>, v: Version, k: Bytes, s: nat)
    ensures KeySorted(t) ==>
              FirstVisible(Linked(t, v), k, s) == if v.key == k && v.seqno <= s then Some(v) else FirstVisible(t, k, s)
  {
    hide Less;
    if t != [] && Less(t[0].key, v.key) && KeySorted(t) {
      LessIrreflexive(v.key);
      LinkedFirst(t[1..], v, k, s);
      assert KeySorted(t[1..]);
      assert Linked(t, v)[1..] == Linked(t[1..], v);
    } else {
      assert ([v] + t)[1..] == t;
    }
  }

  lemma {:induction false} LinkedSorted(t: seq<Version>, v: Version)
    requires KeySorted(t)
    ensures KeySorted(Linked(t, v)) && multiset(Linked(t, v)) == multiset(t) + multiset{v}
  {
    hide Less, Linked, KeySorted;
    var p := LinkPointExists(t, v.key);
    LinkedAt(t, v, p);
    LinkedKeys(t, v, p);
    assert t == t[..p] + t[p..];
  }

  lemma {:induction false} AppliedSorted(t: seq<Version>, w: Write, q: nat)
    requires KeySorted(t)
    ensures KeySorted(Applied(t, w, q))
    ensures forall v :: v in Applied(t, w, q) <==> v in t || exists i | 0 <= i < |w| :: !w[i].DeleteRange? && v == VersionOf(w[i], q)
  {
    hide KeySorted, Linked;
    if w != [] {
      var n := |w| - 1;
      AppliedSorted(t, w[..n], q);
      assert forall i | 0 <= i < n :: w[..n][i] == w[i];
      if !w[n].DeleteRange? {
        LinkedSorted(Applied(t, w[..n], q), VersionOf(w[n], q));
        LinkedMembers(Applied(t, w[..n], q), VersionOf(w[n], q));
      }
    }
  }

  lemma {:induction false} LinkedMembers(t: seq<Version>, v: Version)
    requires KeySorted(t)
    ensures forall u :: u in Linked(t, v) <==> u in t || u == v
  {
    hide Less;
    var p := LinkPointExists(t, v.key);
    LinkedAt(t, v, p);
    assert t == t[..p] + t[p..];
  }

  /** A memtable answers with the last operation of the batch on the key. */
  lemma {:induction false} AppliedFirst(t: seq<Version>, w: Write, q: nat, k: Bytes, s: nat)
    requires KeySorted(t) && q <= s
    ensures FirstVisible(Applied(t, w, q), k, s) ==
            match LastOn(w, k)
            case Some(op) => Some(VersionOf(op, q))
            case None => FirstVisible(t, k, s)
  {
    hide KeySorted, Linked, FirstVisible;
    if w != [] {
      var n := |w| - 1;
      AppliedFirst(t, w[..n], q, k, s);
      AppliedSorted(t, w[..n], q);
      if !w[n].DeleteRange? {
        LinkedFirst(Applied(t, w[..n], q), VersionOf(w[n], q), k, s);
      }
    }
  }

  // ---------------------------------------------------------------- in a flushed table

  /** A table the sort of a flush can leave: entries that compare equal are in any order. */
  ghost predicate FlushOf(t: seq<Version>, m: seq<Version>) {
    multiset(t) == multiset(m) && TableOrder(t)
  }

  ghost predicate TableOrder(t: seq<Version>) {
    forall i, j | 0 <= i < j < |t| :: !InternalLess(t[j], t[i])
  }

  ghost predicate FirstIs(t: seq<Version>, k: Bytes, s: nat, i: nat) {
    i < |t| && Visible(t[i], k, s) && forall j | 0 <= j < i :: !Visible(t[j], k, s)
  }

  lemma {:induction false} FirstVisibleAt(t: seq<Version>, k: Bytes, s: nat, i: nat)
    requires FirstIs(t, k, s, i)
    ensures FirstVisible(t, k, s) == Some(t[i])
  {
    if i > 0 {
      assert !Visible(t[0], k, s);
      assert forall j | 0 <= j < i - 1 :: t[1..][j] == t[j + 1];
      FirstVisibleAt(t[1..], k, s, i - 1);
    }
  }

  lemma FindFirst(t: seq<Version>, f: Version, k: Bytes, s: nat) returns (i: nat)
    requires f in t && Visible(f, k, s)
    ensures FirstIs(t, k, s, i) && exists j :: i <= j < |t| && t[j] == f
  {
    i := 0;
    while !Visible(t[i], k, s)
      invariant i < |t| && (forall j | 0 <= j < i :: !Visible(t[j], k, s)) && exists j :: i <= j < |t| && t[j] == f
      decreases |t| - i
    {
      var j :| i <= j < |t| && t[j] == f;
      i := i + 1;
    }
  }

  /** The newest sequence number of `k` in the list is that of `f`, and deletions carry no
      value. */
  ghost predicate Newest(m: seq<Version>, k: Bytes, f: Version) {
    && f in m && f.key == k && (forall v | v in m && v.key == k :: v.seqno <= f.seqno)
    && forall v | v in m && v.kind == Deletion :: v.value == []
  }

  /** Every value of the key under that sequence number is `f`. */
  ghost predicate Settles(m: seq<Version>, k: Bytes, f: Version) {
    forall v | v in m && v.key == k && v.seqno == f.seqno && v.kind == Value :: v == f
  }

  lemma {:induction false} FlushAgrees(m: seq<Version>, t: seq<Version>, k: Bytes, s: nat, f: Version)
    requires Newest(m, k, f) && f.seqno <= s && FlushOf(t, m) && Settles(m, k, f)
    ensures FirstVisible(t, k, s) == Some(f)
  {
    assert f in multiset(t);
    var i := FindFirst(t, f, k, s);
    var g := t[i];
    assert g in multiset(t) && g in m;
    var j :| i <= j < |t| && t[j] == f;
    assert i < j ==> !InternalLess(f, g);
    FirstVisibleAt(t, k, s, i);
  }

  /** A sorted table with `v` in front of every entry that is not smaller. */
  function PutFirst(t: seq<Version>, v: Version): seq<Version> {
    if t == [] || !InternalLess(t[0], v) then [v] + t else [t[0]] + PutFirst(t[1..], v)
  }

  lemma InternalOrder()
    ensures forall a, b, c :: InternalLess(a, b) && InternalLess(b, c) ==> InternalLess(a, c)
    ensures forall a, b, c :: !InternalLess(a, b) && !InternalLess(b, c) ==> !InternalLess(a, c)
    ensures forall a :: !InternalLess(a, a)
  {
    hide Less;
    TotalOrder();
  }

  lemma {:induction false} PutFirstAt(t: seq<Version>, v: Version) returns (p: nat)
    requires TableOrder(t)
    ensures p <= |t| && PutFirst(t, v) == t[..p] + [v] + t[p..]
    ensures forall i | 0 <= i < p :: InternalLess(t[i], v)
    ensures forall i | p <= i < |t| :: !InternalLess(t[i], v)
  {
    hide InternalLess;
    p := 0;
    if t != [] && InternalLess(t[0], v) {
      assert forall i | 0 <= i < |t| - 1 :: t[1..][i] == t[i + 1];
      p := PutFirstAt(t[1..], v);
      assert [t[0]] + t[1..][..p] == t[..p + 1] && t[1..][p..] == t[p + 1..];
      p := p + 1;
    } else if t != [] {
      InternalOrder();
      assert forall i | 0 < i < |t| :: !InternalLess(t[i], t[0]);
      assert t[..0] + [v] + t[0..] == [v] + t;
    }
  }

  lemma {:induction false} PutFirstOK(t: seq<Version>, m: seq<Version>, v: Version)
    requires FlushOf(t, m)
    ensures FlushOf(PutFirst(t, v), m + [v])
  {
    hide InternalLess, TableOrder;
    var p := PutFirstAt(t, v);
    InsertedOrder(t, v, p);
    assert t == t[..p] + t[p..];
    assert multiset(t[..p] + [v] + t[p..]) == multiset(t[..p]) + multiset(t[p..]) + multiset{v};
  }

  lemma InsertedOrder(t: seq<Version>, v: Version, p: nat)
    requires TableOrder(t) && p <= |t|
    requires forall i | 0 <= i < p :: InternalLess(t[i], v)
    requires forall i | p <= i < |t| :: !InternalLess(t[i], v)
    ensures TableOrder(t[..p] + [v] + t[p..])
  {
    hide InternalLess;
    var r := t[..p] + [v] + t[p..];
    forall i, j | 0 <= i < j < |r| ensures !InternalLess(r[j], r[i]) {
      var x, y := if i < p then i else i - 1, if j < p then j else j - 1;
      assert i != p ==> r[i] == t[x];
      assert j != p ==> r[j] == t[y];
      if j == p {
        Asymmetric(t[x], v);
      }
    }
  }

  lemma Asymmetric(a: Version, b: Version)
    requires InternalLess(a, b)
    ensures !InternalLess(b, a)
  {
    hide Less;
    TotalOrder();
  }

  function SortAll(m: seq<Version>): seq<Version> {
    if m == [] then [] else PutFirst(SortAll(m[..|m| - 1]), m[|m| - 1])
  }

  lemma {:induction false} SortAllOK(m: seq<Version>)
    ensures FlushOf(SortAll(m), m)
  {
    if m != [] {
      SortAllOK(m[..|m| - 1]);
      PutFirstOK(SortAll(m[..|m| - 1]), m[..|m| - 1], m[|m| - 1]);
      assert m[..|m| - 1] + [m[|m| - 1]] == m;
    }
  }

  /** A table in which another value of the key comes first. */
  lemma OtherFlush(m: seq<Version>, k: Bytes, s: nat, f: Version, v: Version) returns (t: seq<Version>)
    requires Newest(m, k, f) && f.seqno <= s
    requires v in m && v.key == k && v.seqno == f.seqno && v.kind == Value && v != f
    ensures FlushOf(t, m) && FirstVisible(t, k, s) == Some(v)
  {
    var i :| 0 <= i < |m| && m[i] == v;
    var rest := m[..i] + m[i + 1..];
    assert m == m[..i] + [v] + m[i + 1..];
    SortAllOK(rest);
    PutFirstOK(SortAll(rest), rest, v);
    t := PutFirst(SortAll(rest), v);
    assert multiset(rest + [v]) == multiset(m);
    var p := PutFirstAt(SortAll(rest), v);
    assert t[p] == v;
    forall j | 0 <= j < p ensures t[j].key != k {
      assert t[j] in multiset(t) && t[j] in m;
      assert InternalLess(SortAll(rest)[j], v);
      LessIrreflexive(k);
    }
    FirstVisibleAt(t, k, s, p);
  }

  /** Every table a flush can leave answers `f` exactly when the values of the key under
      its newest sequence number are all `f`. */
  lemma FlushExactly(m: seq<Version>, k: Bytes, s: nat, f: Version)
    requires Newest(m, k, f) && f.seqno <= s
    ensures (forall t | FlushOf(t, m) :: FirstVisible(t, k, s) == Some(f)) <==> Settles(m, k, f)
  {
    hide FlushOf, FirstVisible;
    if Settles(m, k, f) {
      forall t | FlushOf(t, m) ensures FirstVisible(t, k, s) == Some(f) {
        FlushAgrees(m, t, k, s, f);
      }
    } else {
      var v :| v in m && v.key == k && v.seqno == f.seqno && v.kind == Value && v != f;
      var t := OtherFlush(m, k, s, f, v);
    }
  }

  // ---------------------------------------------------------------- both

  /** The memtable of a batch and every table its flush can leave answer a read of the key
      alike exactly when every put of the batch on the key is its last operation on it:
      the batch only deletes the key, or puts it last, and any earlier put is the same. */
  lemma {:induction false} RepeatedKey(before: seq<Version>, w: Write, q: nat, k: Bytes, s: nat)
    requires KeySorted(before) && (forall v | v in before :: v.seqno < q && (v.kind == Deletion ==> v.value == []))
    requires LastOn(w, k).Some? && q <= s
    ensures var m, last := Applied(before, w, q), LastOn(w, k).value;
            && FirstVisible(m, k, s) == Some(VersionOf(last, q))
            && ((forall t | FlushOf(t, m) :: FirstVisible(t, k, s) == FirstVisible(m, k, s))
                <==> forall i | 0 <= i < |w| && OnKey(w[i], k) && w[i].Put? :: w[i] == last)
  {
    hide KeySorted, FlushOf, FirstVisible, Applied, LastOn;
    var m, last := Applied(before, w, q), LastOn(w, k).value;
    var f := VersionOf(last, q);
    AppliedFirst(before, w, q, k, s);
    AppliedSorted(before, w, q);
    var n :| 0 <= n < |w| && w[n] == last;
    assert f in m;
    assert Newest(m, k, f);
    FlushExactly(m, k, s, f);
    if Settles(m, k, f) {
      forall i | 0 <= i < |w| && OnKey(w[i], k) && w[i].Put? ensures w[i] == last {
        assert VersionOf(w[i], q) in m;
        SameVersion(w[i], last, q);
      }
    } else {
      var v :| v in m && v.key == k && v.seqno == q && v.kind == Value && v != f;
      var i :| 0 <= i < |w| && !w[i].DeleteRange? && v == VersionOf(w[i], q);
      assert OnKey(w[i], k) && w[i].Put? && w[i] != last;
    }
  }

  lemma SameVersion(a: Op, b: Op, q: nat)
    requires !a.DeleteRange? && !b.DeleteRange? && VersionOf(a, q) == VersionOf(b, q)
    ensures a == b
  {
    if a.Put? {
      assert a.value == ([0] + a.value)[1..];
    }
    if b.Put? {
      assert b.value == ([0] + b.value)[1..];
    }
  }

  /** A put and then a deletion of one key: the memtable says deleted, the flushed table
      returns the value. */
  lemma DuplicateKeyFlips()
    ensures var w := [Put([1], [9]), Delete([1])];
            var m := Applied([], w, 7);
            && FirstVisible(m, [1], 7) == Some(Version([1], 7, Deletion, []))
            && exists t :: FlushOf(t, m) && FirstVisible(t, [1], 7) != FirstVisible(m, [1], 7)
  {
    var w := [Put([1], [9]), Delete([1])];
    assert w[..1] == [Put([1], [9])];
    assert OnKey(w[1], [1]) && LastOn(w, [1]) == Some(w[1]);
    RepeatedKey([], w, 7, [1], 7);
    assert OnKey(w[0], [1]) && w[0].Put? && w[0] != w[1];
  }
}
