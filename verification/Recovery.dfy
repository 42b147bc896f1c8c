/** Reopening a store: the logs left behind are replayed in the order of their names into
    one memtable, and the range tombstones are collected from the logs and from the
    markers in the tables. */
module Recovery {
  import opened Bytes
  import opened Versions
  import opened History
  import opened MemTables
  import opened VersionSet
  import opened Engine
  import opened Batches
  import Compaction

  // ---------------------------------------------------------------- the order of the logs

  function Digits(n: nat): (r: Bytes)
    ensures r != [] && forall i | 0 <= i < |r| :: 48 <= r[i] <= 57
  {
    if n < 10 then [48 + n] else Digits(n / 10) + [48 + n % 10]
  }

  /** "wal-" and ".log" around the decimal number. */
  function LogName(n: nat): Bytes {
    [119, 97, 108, 45] + Digits(n) + [46, 108, 111, 103]
  }

  lemma LogNames()
    ensures LogName(9) == [119, 97, 108, 45, 57, 46, 108, 111, 103]
    ensures LogName(10) == [119, 97, 108, 45, 49, 48, 46, 108, 111, 103]
  {
    assert Digits(10) == Digits(1) + [48];
  }

  function Pow10(d: nat): (r: nat)
    ensures r > 0
  {
    if d == 0 then 1 else 10 * Pow10(d - 1)
  }

  lemma {:induction false} DigitsLength(n: nat)
    ensures n < Pow10(|Digits(n)|) && (n >= 10 ==> Pow10(|Digits(n)| - 1) <= n)
  {
    if n >= 10 {
      DigitsLength(n / 10);
      assert |Digits(n)| == |Digits(n / 10)| + 1;
      if n / 10 < 10 {
        assert |Digits(n / 10)| == 1 && Pow10(1) == 10;
      }
    } else {
      assert Pow10(1) == 10;
    }
  }

  lemma {:induction false} Pow10Grows(d: nat, e: nat)
    requires d <= e
    ensures Pow10(d) <= Pow10(e)
    decreases e
  {
    if d < e {
      Pow10Grows(d, e - 1);
    }
  }

  lemma {:induction false} MoreDigits(a: nat, b: nat)
    requires a <= b
    ensures |Digits(a)| <= |Digits(b)|
  {
    hide Digits, Pow10;
    DigitsLength(a);
    DigitsLength(b);
    if |Digits(a)| > |Digits(b)| {
      Pow10Grows(|Digits(b)|, |Digits(a)| - 1);
      OneDigit(a);
    }
  }

  lemma {:induction false} OneDigit(n: nat)
    ensures n < 10 <==> |Digits(n)| == 1
  {
  }

  /** The number without its last `d` digits. */
  function Leading(b: nat, d: nat): nat {
    if d == 0 then b else Leading(b / 10, d - 1)
  }

  lemma {:induction false} DigitsPrefix(b: nat, d: nat)
    requires d < |Digits(b)|
    ensures Digits(Leading(b, d)) == Digits(b)[..|Digits(b)| - d]
    decreases d
  {
    hide Digits;
    if d == 0 {
      assert Digits(b)[..|Digits(b)|] == Digits(b);
    } else {
      OneDigit(b);
      LastDigit(b);
      DigitsPrefix(b / 10, d - 1);
      assert Digits(b)[..|Digits(b)| - d] == Digits(b / 10)[..|Digits(b / 10)| - (d - 1)];
    }
  }

  lemma {:induction false} LastDigit(b: nat)
    requires b >= 10
    ensures |Digits(b)| == |Digits(b / 10)| + 1 && Digits(b)[..|Digits(b / 10)|] == Digits(b / 10)
  {
  }

  lemma PowStep(d: nat)
    requires d > 0
    ensures Pow10(d) == 10 * Pow10(d - 1)
  {
  }

  /** Numbers of the same length are ordered like their digits. */
  lemma {:induction false} SameLength(a: nat, b: nat) returns (p: nat)
    requires |Digits(a)| == |Digits(b)| && a < b
    ensures p < |Digits(a)| && Digits(a)[..p] == Digits(b)[..p] && Digits(a)[p] < Digits(b)[p]
    decreases a
  {
    if a < 10 {
      OneDigit(b);
      p := 0;
    } else {
      OneDigit(a);
      OneDigit(b);
      if a / 10 < b / 10 {
        p := SameLength(a / 10, b / 10);
        assert Digits(a)[..p] == Digits(a / 10)[..p] && Digits(b)[..p] == Digits(b / 10)[..p];
      } else {
        p := |Digits(a)| - 1;
        assert a / 10 == b / 10;
        assert Digits(a)[..p] == Digits(a / 10) && Digits(b)[..p] == Digits(b / 10);
      }
    }
  }

  /** Names are compared as strings: a log is replayed before a later one exactly when its
      number is at most the leading digits of the later number. */
  lemma {:induction false} NameOrder(a: nat, b: nat)
    requires a < b
    ensures |Digits(a)| <= |Digits(b)|
    ensures Less(LogName(a), LogName(b)) <==> a <= Leading(b, |Digits(b)| - |Digits(a)|)
  {
    hide Digits, Less;
    MoreDigits(a, b);
    var d := |Digits(b)| - |Digits(a)|;
    var c := Leading(b, d);
    DigitsPrefix(b, d);
    if a < c {
      var p := SameLength(a, c);
      NamesDiffer(a, b, p);
    } else if c < a {
      var p := SameLength(c, a);
      NamesDiffer(a, b, p);
    } else {
      LeadingDigits(a, b);
    }
  }

  lemma {:induction false} NamesDiffer(a: nat, b: nat, p: nat)
    requires p < |Digits(a)| <= |Digits(b)|
    requires Digits(a)[..p] == Digits(b)[..p] && Digits(a)[p] != Digits(b)[p]
    ensures Less(LogName(a), LogName(b)) <==> Digits(a)[p] < Digits(b)[p]
  {
    hide Digits, Less;
    var x, y, n := LogName(a), LogName(b), p + 4;
    assert x[..n] == [119, 97, 108, 45] + Digits(a)[..p] && y[..n] == [119, 97, 108, 45] + Digits(b)[..p];
    assert x[n] == Digits(a)[p] && y[n] == Digits(b)[p];
    DiffersAt(x, y, n);
  }

  lemma {:induction false} LeadingDigits(a: nat, b: nat)
    requires |Digits(a)| < |Digits(b)| && Digits(b)[..|Digits(a)|] == Digits(a)
    ensures Less(LogName(a), LogName(b))
  {
    hide Digits, Less;
    var x, y, n := LogName(a), LogName(b), |Digits(a)| + 4;
    assert x[..n] == [119, 97, 108, 45] + Digits(a) && y[..n] == [119, 97, 108, 45] + Digits(a);
    assert x[n] == 46 && y[n] == Digits(b)[|Digits(a)|];
    DigitBytes(b, |Digits(a)|);
    DiffersAt(x, y, n);
  }

  lemma {:induction false} DigitBytes(b: nat, i: nat)
    requires i < |Digits(b)|
    ensures Digits(b)[i] >= 48
  {
  }

  /** Two logs in a row, which is what a crash leaves, are replayed in order unless the
      second number is a power of ten. */
  lemma ConsecutiveLogs(n: nat)
    requires n > 0
    ensures Less(LogName(n), LogName(n + 1)) <==> n + 1 != Pow10(|Digits(n)|)
  {
    hide Digits, Pow10, Less, LogName;
    DigitsLength(n);
    DigitsLength(n + 1);
    MoreDigits(n, n + 1);
    var d := |Digits(n + 1)| - |Digits(n)|;
    if d > 0 {
      Pow10Grows(|Digits(n)|, |Digits(n + 1)| - 1);
      OneDigit(n + 1);
      OneDigit(n);
      if d > 1 {
        Pow10Grows(|Digits(n)| + 1, |Digits(n + 1)| - 1);
        PowStep(|Digits(n)| + 1);
      }
      assert Leading(n + 1, 1) == (n + 1) / 10;
    }
    assert n <= Leading(n + 1, d) <==> d == 0;
    NameOrder(n, n + 1);
  }

  /** The tenth log is replayed before the ninth. */
  lemma TenBeforeNine()
    ensures Less(LogName(10), LogName(9)) && !Less(LogName(9), LogName(10))
  {
    assert Digits(9) == [57] && Digits(10) == [49, 48];
    assert LogName(9)[4] == 57 && LogName(10)[4] == 49;
    assert LogName(9)[..4] == LogName(10)[..4];
    DiffersAt(LogName(10), LogName(9), 4);
    DiffersAt(LogName(9), LogName(10), 4);
  }

  // ---------------------------------------------------------------- the replayed memtable

  datatype Record = Record(seqno: nat, write: Write)

  /** The memtable after replaying records in this order. */
  function Boot(rs: seq<Record>): seq<Version> {
    if rs == [] then []
    else
      var n := |rs| - 1;
      Applied(Boot(rs[..n]), rs[n].write, rs[n].seqno)
  }

  /** The last record in replay order that names the key. */
  function LastNaming(rs: seq<Record>, k: Bytes): (r: Option<Record>)
    ensures r.Some? ==> r.value in rs && LastOn(r.value.write, k).Some?
    ensures r.None? ==> forall i | 0 <= i < |rs| :: LastOn(rs[i].write, k).None?
  {
    if rs == [] then None
    else if LastOn(rs[|rs| - 1].write, k).Some? then Some(rs[|rs| - 1])
    else LastNaming(rs[..|rs| - 1], k)
  }

  /** What the replayed memtable says: the last record replayed, whatever its number. */
  lemma {:induction false} BootFirst(rs: seq<Record>, k: Bytes, s: nat)
    requires forall i | 0 <= i < |rs| :: rs[i].seqno <= s
    ensures KeySorted(Boot(rs))
    ensures FirstVisible(Boot(rs), k, s) ==
            match LastNaming(rs, k)
            case Some(r) => Some(VersionOf(LastOn(r.write, k).value, r.seqno))
            case None => None
  {
    hide KeySorted, LastOn, Applied;
    if rs == [] {
      NothingReplayed(k, s);
    } else {
      hide FirstVisible;
      var n := |rs| - 1;
      BootFirst(rs[..n], k, s);
      AppliedFirst(Boot(rs[..n]), rs[n].write, rs[n].seqno, k, s);
      AppliedSorted(Boot(rs[..n]), rs[n].write, rs[n].seqno);
    }
  }

  lemma {:induction false} NothingReplayed(k: Bytes, s: nat)
    ensures KeySorted([]) && FirstVisible([], k, s) == None
  {
  }

  lemma {:induction false} BootMembers(rs: seq<Record>)
    ensures KeySorted(Boot(rs))
    ensures forall v | v in Boot(rs) ::
              exists i, j | 0 <= i < |rs| && 0 <= j < |rs[i].write| ::
                !rs[i].write[j].DeleteRange? && v == VersionOf(rs[i].write[j], rs[i].seqno)
    ensures forall i, j | 0 <= i < |rs| && 0 <= j < |rs[i].write| && !rs[i].write[j].DeleteRange? ::
              VersionOf(rs[i].write[j], rs[i].seqno) in Boot(rs)
  {
    hide KeySorted, Applied;
    if rs == [] {
      NothingReplayed([], 0);
    } else {
      var n := |rs| - 1;
      BootMembers(rs[..n]);
      AppliedSorted(Boot(rs[..n]), rs[n].write, rs[n].seqno);
      assert forall i | 0 <= i < n :: rs[..n][i] == rs[i];
      forall v | v in Boot(rs)
        ensures exists i, j | 0 <= i < |rs| && 0 <= j < |rs[i].write| ::
                  !rs[i].write[j].DeleteRange? && v == VersionOf(rs[i].write[j], rs[i].seqno)
      {
        if v in Boot(rs[..n]) {
          var i, j :| 0 <= i < n && 0 <= j < |rs[..n][i].write| &&
                      !rs[..n][i].write[j].DeleteRange? && v == VersionOf(rs[..n][i].write[j], rs[..n][i].seqno);
          assert v == VersionOf(rs[i].write[j], rs[i].seqno);
        } else {
          var j :| 0 <= j < |rs[n].write| && !rs[n].write[j].DeleteRange? && v == VersionOf(rs[n].write[j], rs[n].seqno);
          assert v == VersionOf(rs[n].write[j], rs[n].seqno);
        }
      }
    }
  }

  // ---------------------------------------------------------------- reads of a reopened store

  /** No version of the key, replayed or in the tables below, is newer than the last record
      replayed on it. */
  ghost predicate InOrder(rs: seq<Record>, below: set<Version>, k: Bytes) {
    LastNaming(rs, k).Some? ==>
      && (forall i | 0 <= i < |rs| && LastOn(rs[i].write, k).Some? :: rs[i].seqno <= LastNaming(rs, k).value.seqno)
      && forall v | v in below && v.key == k :: v.seqno <= LastNaming(rs, k).value.seqno
  }

  /** The version a read of the reopened store ends with: the memtable's, or the newest of
      the tables. */
  ghost predicate Finds(found: Option<Version>, rs: seq<Record>, below: set<Version>, k: Bytes, s: nat) {
    if FirstVisible(Boot(rs), k, s).Some? then found == FirstVisible(Boot(rs), k, s) else BestOf(found, below, k, s)
  }

  /** It is the newest version of the store exactly when the key's records were replayed
      in order. */
  lemma {:induction false} FindsNewest(found: Option<Version>, rs: seq<Record>, below: set<Version>, k: Bytes, s: nat)
    requires Finds(found, rs, below, k, s) && (forall i | 0 <= i < |rs| :: rs[i].seqno <= s)
    requires forall v | v in below :: v.seqno <= s
    ensures BestOf(found, Elems(Boot(rs)) + below, k, s) <==> InOrder(rs, below, k)
  {
    hide KeySorted, FirstVisible, Boot, LastNaming, LastOn;
    BootFirst(rs, k, s);
    BootVersions(rs, k);
    var all, last := Elems(Boot(rs)), LastNaming(rs, k);
    if last.Some? {
      var v := VersionOf(LastOn(last.value.write, k).value, last.value.seqno);
      assert found == Some(v);
      if InOrder(rs, below, k) {
        assert forall w | w in all + below && Visible(w, k, s) :: w.seqno <= v.seqno;
      }
      if BestOf(found, all + below, k, s) {
        assert forall w | w in below && w.key == k :: Visible(w, k, s) && w in all + below;
        forall i | 0 <= i < |rs| && LastOn(rs[i].write, k).Some? ensures rs[i].seqno <= v.seqno {
          var w := VersionOf(LastOn(rs[i].write, k).value, rs[i].seqno);
          assert w in all + below && Visible(w, k, s);
        }
      }
    }
  }

  /** The replayed versions of a key, by the records that name it. */
  lemma BootVersions(rs: seq<Record>, k: Bytes)
    ensures forall i | 0 <= i < |rs| && LastOn(rs[i].write, k).Some? ::
              VersionOf(LastOn(rs[i].write, k).value, rs[i].seqno) in Elems(Boot(rs))
    ensures forall v | v in Elems(Boot(rs)) && v.key == k ::
              exists i | 0 <= i < |rs| :: LastOn(rs[i].write, k).Some? && v.seqno == rs[i].seqno
  {
    hide KeySorted, Boot;
    BootMembers(rs);
    forall i | 0 <= i < |rs| && LastOn(rs[i].write, k).Some?
      ensures VersionOf(LastOn(rs[i].write, k).value, rs[i].seqno) in Elems(Boot(rs))
    {
      var op := LastOn(rs[i].write, k).value;
      var j :| 0 <= j < |rs[i].write| && rs[i].write[j] == op;
      assert VersionOf(rs[i].write[j], rs[i].seqno) in Boot(rs);
    }
    forall v | v in Elems(Boot(rs)) && v.key == k
      ensures exists i | 0 <= i < |rs| :: LastOn(rs[i].write, k).Some? && v.seqno == rs[i].seqno
    {
      NamedBy(rs, v);
    }
  }

  lemma {:induction false} NamedBy(rs: seq<Record>, v: Version)
    requires v in Boot(rs)
    ensures exists i | 0 <= i < |rs| :: LastOn(rs[i].write, v.key).Some? && v.seqno == rs[i].seqno
  {
    hide Boot, KeySorted;
    BootMembers(rs);
    var i, j :| 0 <= i < |rs| && 0 <= j < |rs[i].write| &&
                !rs[i].write[j].DeleteRange? && v == VersionOf(rs[i].write[j], rs[i].seqno);
    assert OnKey(rs[i].write[j], v.key);
    assert LastOn(rs[i].write, v.key).Some?;
  }

  /** Of the tombstones of the history the rebuilt list has, for each, one from the same
      begin key that is not older and reaches as far. */
  ghost predicate Outreaches(rebuilt: seq<Tomb>, tombs: seq<Tomb>) {
    && (forall t | t in rebuilt :: t in tombs)
    && forall t | t in tombs :: exists u :: u in rebuilt && u.begin == t.begin && u.seqno >= t.seqno && LessEq(t.end, u.end)
  }

  /** Such a list hides what the tombstones of the history hide from the latest state. */
  lemma HidesAlike(rebuilt: seq<Tomb>, tombs: seq<Tomb>, k: Bytes, version: nat, s: nat)
    requires Outreaches(rebuilt, tombs) && forall t | t in tombs :: t.seqno <= s
    ensures Hidden(rebuilt, k, version, s) <==> Hidden(tombs, k, version, s)
  {
    hide Less, LessEq, Hides, Hidden;
    HiddenIn(rebuilt, k, version, s);
    HiddenIn(tombs, k, version, s);
    if Hidden(tombs, k, version, s) {
      var t :| t in tombs && Hides(t, k, version, s);
      var u :| u in rebuilt && u.begin == t.begin && u.seqno >= t.seqno && LessEq(t.end, u.end);
      HidesMore(t, u, k, version, s);
    }
  }

  lemma HidesMore(t: Tomb, u: Tomb, k: Bytes, version: nat, s: nat)
    requires Hides(t, k, version, s) && u.begin == t.begin && t.seqno <= u.seqno <= s && LessEq(t.end, u.end)
    ensures Hides(u, k, version, s)
  {
    hide Less;
    TotalOrder();
  }

  lemma HiddenIn(tombs: seq<Tomb>, k: Bytes, version: nat, s: nat)
    ensures Hidden(tombs, k, version, s) <==> exists t :: t in tombs && Hides(t, k, version, s)
  {
    hide Hides;
    if t :| t in tombs && Hides(t, k, version, s) {
      var i :| 0 <= i < |tombs| && tombs[i] == t;
    }
  }

  /** A reopened store answers from the history when the logs on the key were replayed in
      order and the rebuilt tombstones reach as far as those of the history. */
  lemma {:induction false} ReopenedGet(found: Option<Version>, rs: seq<Record>, below: set<Version>, rebuilt: seq<Tomb>, tombs: seq<Tomb>,
                    hist: seq<Write>, k: Bytes)
    requires Faithful(Elems(Boot(rs)) + below, hist) && Complete(Elems(Boot(rs)) + below, hist, |hist|)
    requires AllDistinct(hist) && TombsOf(tombs, hist) && ValidKey(k)
    requires forall i | 0 <= i < |rs| :: rs[i].seqno < |hist|
    requires Finds(found, rs, below, k, |hist|) && InOrder(rs, below, k)
    requires Outreaches(rebuilt, tombs)
    ensures Answer(found, rebuilt, k, |hist|) == Outcome(hist, k)
  {
    assert forall t | t in tombs :: t.seqno <= |hist|;
    hide Boot, InOrder, Finds, Outcome, Complete, TombsOf, AllDistinct, Hidden, IsNewest, NoneVisible, Outreaches;
    BelowIsPast(Elems(Boot(rs)), below, hist);
    if found.Some? {
      HidesAlike(rebuilt, tombs, k, found.value.seqno, |hist|);
    }
    FindsNewest(found, rs, below, k, |hist|);
    AnswerIsOutcome(Elems(Boot(rs)) + below, tombs, hist, k, |hist|, found);
    assert UpTo(hist, |hist|) == hist;
  }

  lemma BelowIsPast(above: set<Version>, below: set<Version>, hist: seq<Write>)
    requires Faithful(above + below, hist)
    ensures forall v | v in below :: v.seqno <= |hist|
  {
  }

  /** Two logs in the wrong order: the older write answers. */
  lemma {:induction false} OlderLogWins(k: Bytes, old': Bytes, new': Bytes)
    ensures var rs := [Record(2, [Put(k, new')]), Record(1, [Put(k, old')])];
            FirstVisible(Boot(rs), k, 2) == Some(Version(k, 1, Value, [0] + old')) && !InOrder(rs, {}, k)
  {
    var rs := [Record(2, [Put(k, new')]), Record(1, [Put(k, old')])];
    assert OnKey(rs[0].write[0], k) && OnKey(rs[1].write[0], k);
    assert LastOn(rs[1].write, k) == Some(Put(k, old')) && LastOn(rs[0].write, k).Some?;
    BootFirst(rs, k, 2);
    assert LastNaming(rs, k) == Some(rs[1]);
  }

  // ---------------------------------------------------------------- tombstones from tables

  /** The tombstone a marker stands for. */
  function MarkerTomb(v: Version): Option<Tomb> {
    if |v.key| >= 4 && v.key[..4] == MARKER then Some(Tomb(v.key[4..], v.value, v.seqno)) else None
  }

  lemma MarkerBack(t: Tomb)
    ensures MarkerTomb(MarkerOf(t)) == Some(t)
  {
    assert (MARKER + t.begin)[..4] == MARKER && (MARKER + t.begin)[4..] == t.begin;
  }

  /** The tombstones the markers of a table stand for. */
  function TombsIn(t: seq<Version>): seq<Tomb> {
    if t == [] then []
    else
      var n := |t| - 1;
      TombsIn(t[..n]) + if MarkerTomb(t[n]).Some? then [MarkerTomb(t[n]).value] else []
  }

  lemma {:induction false} TombsInMembers(t: seq<Version>)
    ensures forall x :: x in TombsIn(t) <==> exists v :: v in t && MarkerTomb(v) == Some(x)
  {
    hide MarkerTomb;
    if t != [] {
      var n := |t| - 1;
      TombsInMembers(t[..n]);
      assert t == t[..n] + [t[n]];
      assert t[n] in t;
    }
  }

  lemma {:induction false} MarkersBack(ts: seq<Tomb>)
    ensures TombsIn(Markers(ts)) == ts
  {
    if ts != [] {
      var n := |ts| - 1;
      MarkersBack(ts[..n]);
      assert Markers(ts)[..n] == Markers(ts[..n]);
      MarkerBack(ts[n]);
    }
  }

  /** For any list: without one of its tombstones the same is hidden from the latest state
      exactly when every key it covers is covered by another one that is not older. */
  lemma DropExactly(rest: seq<Tomb>, t: Tomb, s: nat)
    requires 0 < t.seqno <= s && forall u | u in rest :: u.seqno <= s
    ensures (forall k, version :: Hidden(rest + [t], k, version, s) <==> Hidden(rest, k, version, s))
            <==> forall k | Covers(t.begin, t.end, k) :: exists u :: u in rest && Covers(u.begin, u.end, k) && u.seqno >= t.seqno
  {
    hide Covers;
    if forall k, version :: Hidden(rest + [t], k, version, s) <==> Hidden(rest, k, version, s) {
      forall k | Covers(t.begin, t.end, k) ensures exists u :: u in rest && Covers(u.begin, u.end, k) && u.seqno >= t.seqno {
        HiddenIn(rest + [t], k, t.seqno - 1, s);
        HiddenIn(rest, k, t.seqno - 1, s);
        assert t in rest + [t] && Hides(t, k, t.seqno - 1, s);
      }
    }
    if forall k | Covers(t.begin, t.end, k) :: exists u :: u in rest && Covers(u.begin, u.end, k) && u.seqno >= t.seqno {
      forall k, version ensures Hidden(rest + [t], k, version, s) <==> Hidden(rest, k, version, s) {
        HiddenIn(rest + [t], k, version, s);
        HiddenIn(rest, k, version, s);
        if Hides(t, k, version, s) {
          var u :| u in rest && Covers(u.begin, u.end, k) && u.seqno >= t.seqno;
          assert Hides(u, k, version, s);
        }
        assert forall u | u in rest + [t] :: u in rest || u == t;
      }
    }
  }

  /** Of two deletions with one begin key a merge may keep the newer marker only. The
      rebuilt list then hides the same exactly when the newer one reaches as far. */
  lemma ShorterDeletionStays(t: Tomb, u: Tomb)
    requires t.begin == u.begin && 0 < t.seqno < u.seqno && Less(t.begin, t.end) && Less(u.begin, u.end)
    ensures (forall k, version, s | u.seqno <= s :: Hidden([t, u], k, version, s) <==> Hidden([u], k, version, s))
            <==> LessEq(t.end, u.end)
  {
    hide Less;
    TotalOrder();
    if LessEq(t.end, u.end) {
      forall k, version, s | u.seqno <= s ensures Hidden([t, u], k, version, s) <==> Hidden([u], k, version, s) {
        assert Hides(t, k, version, s) ==> Hides(u, k, version, s);
        HiddenPair(t, u, k, version, s);
      }
    } else {
      var k, s := u.end, u.seqno;
      assert Hides(t, k, 0, s) && !Hides(u, k, 0, s);
      HiddenPair(t, u, k, 0, s);
      assert Hidden([t, u], k, 0, s) && !Hidden([u], k, 0, s);
    }
  }

  lemma HiddenPair(t: Tomb, u: Tomb, k: Bytes, version: nat, s: nat)
    ensures Hidden([t, u], k, version, s) <==> Hides(t, k, version, s) || Hides(u, k, version, s)
    ensures Hidden([u], k, version, s) <==> Hides(u, k, version, s)
  {
    hide Hides;
    assert [t, u][0] == t && [t, u][1] == u && [u][0] == u;
  }

  /** Such a merge: two tables with a marker each, and no snapshot older than the newer. */
  method MarkerDropped(t: Tomb, u: Tomb) returns (r: Option<seq<seq<Version>>>)
    requires t.begin == u.begin && t.seqno < u.seqno
    ensures r == Some([[MarkerOf(u)]]) && TombsIn(r.value[0]) == [u]
  {
    var a, b := MarkerOf(u), MarkerOf(t);
    var inputs := [Compaction.Source(2, [a]), Compaction.Source(1, [b])];
    var oldest := u.seqno;
    var env := Compaction.Env(oldest, n => 0, n => false, n => true, n => true);
    r := Compaction.DoCompaction(inputs, env);
    Compaction.KeptNewer(a, b, 2, 1, env);
    MarkersBack([u]);
    assert Markers([u]) == [a];
  }
}
