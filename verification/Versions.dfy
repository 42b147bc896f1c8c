/** Versions of keys, and the lookup every container of versions is asked for:
    the newest version of a key whose sequence number is at most a snapshot. */
module Versions {
  import opened Bytes

  datatype Kind = Deletion | Value

  datatype Version = Version(key: Bytes, seqno: nat, kind: Kind, value: Bytes)

  /** Order of a table: user key ascending, newest version first. */
  predicate Before(a: Version, b: Version) {
    Less(a.key, b.key) || (a.key == b.key && a.seqno > b.seqno)
  }

  ghost predicate Sorted(t: seq<Version>) {
    forall i, j :: 0 <= i < j < |t| ==> Before(t[i], t[j])
  }

  ghost function Elems<T>(s: seq<T>): set<T> {
    set x | x in s
  }

  ghost predicate Visible(v: Version, k: Bytes, s: nat) {
    v.key == k && v.seqno <= s
  }

  ghost predicate IsNewest(v: Version, vs: set<Version>, k: Bytes, s: nat) {
    && v in vs && Visible(v, k, s)
    && forall w | w in vs && Visible(w, k, s) :: w.seqno <= v.seqno
  }

  ghost predicate NoneVisible(vs: set<Version>, k: Bytes, s: nat) {
    forall w | w in vs :: !Visible(w, k, s)
  }

  /** The first entry of a table that is a visible version of `k`. */
  function FirstVisible(t: seq<Version>, k: Bytes, s: nat): Option<Version> {
    if t == [] then None
    else if t[0].key == k && t[0].seqno <= s then Some(t[0])
    else FirstVisible(t[1..], k, s)
  }

  /** In a sorted table the first visible entry is the newest one, and there is
      none exactly when no version is visible. */
  lemma {:induction false} FirstVisibleIsNewest(t: seq<Version>, k: Bytes, s: nat)
    requires Sorted(t)
    ensures match FirstVisible(t, k, s)
            case Some(v) => IsNewest(v, Elems(t), k, s)
            case None => NoneVisible(Elems(t), k, s)
  {
    if t != [] {
      TotalOrder();
      FirstVisibleIsNewest(t[1..], k, s);
      assert forall v :: v in t <==> v == t[0] || v in t[1..];
      assert forall v | v in t[1..] :: Before(t[0], v);
    }
  }

  /** Where a version is visible, there is a newest one. */
  lemma {:induction false} NewestOf(vs: set<Version>, k: Bytes, s: nat) returns (v: Version)
    requires !NoneVisible(vs, k, s)
    ensures IsNewest(v, vs, k, s)
    decreases vs
  {
    v :| v in vs && Visible(v, k, s);
    if !NoneVisible(vs - {v}, k, s) {
      var w := NewestOf(vs - {v}, k, s);
      assert forall u | u in vs && u != v :: u in vs - {v};
      if w.seqno > v.seqno {
        v := w;
      }
    } else {
      assert forall u | u in vs && u != v :: u in vs - {v};
    }
  }

  /** No two different versions share a key and a sequence number. */
  ghost predicate Distinct(vs: set<Version>) {
    forall a, b | a in vs && b in vs && a.key == b.key && a.seqno == b.seqno :: a == b
  }

  lemma SortedIsDistinct(t: seq<Version>)
    requires Sorted(t)
    ensures Distinct(Elems(t))
    ensures forall i, j :: 0 <= i < j < |t| ==> t[i] != t[j]
  {
    TotalOrder();
  }

  lemma SortedSuffix(t: seq<Version>, n: nat)
    requires Sorted(t) && n <= |t|
    ensures Sorted(t[n..])
  {
  }

  lemma SortedAppend(t: seq<Version>, v: Version)
    requires Sorted(t)
    requires forall w | w in t :: Before(w, v)
    ensures Sorted(t + [v])
  {
  }
}
