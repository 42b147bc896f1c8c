/** What the containers of the engine hold, against the history that filled them. */
module VersionSet {
  import opened Bytes
  import opened Versions
  import opened History
  import opened MemTables
  import opened Levels
  import Compaction

  const MARKER: Bytes := [255, 255, 255, 255]

  /** A key a client may use: not empty and outside the space of the synthetic
      entries that range tombstones become when they are flushed. */
  predicate ValidKey(k: Bytes) {
    k != [] && !(|k| >= 4 && k[..4] == MARKER)
  }

  ghost predicate ValidKeys(w: Write) {
    forall i | 0 <= i < |w| && !w[i].DeleteRange? :: ValidKey(w[i].key)
  }

  /** The version a point operation becomes; inline values carry a zero tag byte. */
  function VersionOf(op: Op, q: nat): Version
    requires !op.DeleteRange?
  {
    match op
    case Put(k, v) => Version(k, q, Value, [0] + v)
    case Delete(k) => Version(k, q, Deletion, [])
  }

  /** unwrap_vlog for values stored inline. */
  function Unwrap(v: Bytes): Bytes {
    if v != [] && v[0] == 0 then v[1..] else v
  }

  ghost function PointVersions(w: Write, q: nat): set<Version> {
    set i | 0 <= i < |w| && !w[i].DeleteRange? :: VersionOf(w[i], q)
  }

  /** Every version stems from the write with its sequence number. */
  ghost predicate Faithful(vs: set<Version>, hist: seq<Write>) {
    forall v | v in vs ::
      v.seqno < |hist|
      && (ValidKey(v.key) ==> Touches(hist[v.seqno], v.key)
                              && v == VersionOf(OpOn(hist[v.seqno], v.key), v.seqno))
  }

  /** A snapshot finds the last write to every key it can see. */
  ghost predicate Complete(vs: set<Version>, hist: seq<Write>, s: nat) {
    forall k, q: nat | ValidKey(k) && LastTouch(hist, k, s, q) ::
      VersionOf(OpOn(hist[q], k), q) in vs
  }

  /** The tombstone list is exactly the range deletions of the history. */
  ghost predicate TombsOf(tombs: seq<Tomb>, hist: seq<Write>) {
    forall t :: t in tombs <==> t.seqno < |hist| && DeleteRange(t.begin, t.end) in hist[t.seqno]
  }

  // ---------------------------------------------------------------- writes

  /** A write keeps every snapshot complete, and the latest state. */
  lemma WriteStep(vs: set<Version>, hist: seq<Write>, w: Write)
    requires Faithful(vs, hist)
    requires DistinctKeys(w) && ValidKeys(w)
    ensures Faithful(vs + PointVersions(w, |hist|), hist + [w])
    ensures forall s | Complete(vs, hist, s) :: Complete(vs + PointVersions(w, |hist|), hist + [w], s)
    ensures Complete(vs, hist, |hist|) ==> Complete(vs + PointVersions(w, |hist|), hist + [w], |hist| + 1)
  {
    var hist', n := hist + [w], |hist|;
    forall i | 0 <= i < |w| && !w[i].DeleteRange?
      ensures Touches(w, w[i].key) && OpOn(w, w[i].key) == w[i]
    {
      OpOnUnique(w, w[i].key, i);
    }
    forall s, k, q: nat | Complete(vs, hist, s) && ValidKey(k) && LastTouch(hist', k, s, q)
      ensures VersionOf(OpOn(hist'[q], k), q) in vs + PointVersions(w, n)
    {
      TouchInWrite(vs, hist, w, k, s, q);
    }
    if Complete(vs, hist, n) {
      CompleteBeyond(vs, hist, n + 1);
    }
  }

  lemma TouchInWrite(vs: set<Version>, hist: seq<Write>, w: Write, k: Bytes, s: nat, q: nat)
    requires Complete(vs, hist, s) && ValidKey(k) && LastTouch(hist + [w], k, s, q) && DistinctKeys(w)
    ensures VersionOf(OpOn((hist + [w])[q], k), q) in vs + PointVersions(w, |hist|)
  {
    var hist', n := hist + [w], |hist|;
    if q == n {
      var i :| 0 <= i < |w| && OnKey(w[i], k);
      OpOnUnique(w, k, i);
      assert VersionOf(w[i], n) in PointVersions(w, n);
    } else {
      assert forall p | 0 <= p < n :: hist'[p] == hist[p];
      assert LastTouch(hist, k, s, q);
    }
  }

  /** Behind the end of the history there is nothing more to see. */
  lemma CompleteBeyond(vs: set<Version>, hist: seq<Write>, s: nat)
    requires Complete(vs, hist, |hist|) && |hist| <= s + 1
    ensures Complete(vs, hist, s)
  {
    forall k, q: nat | ValidKey(k) && LastTouch(hist, k, s, q) ensures VersionOf(OpOn(hist[q], k), q) in vs {
      assert LastTouch(hist, k, |hist|, q);
    }
  }

  // ---------------------------------------------------------------- reads

  lemma LastTouchExists(hist: seq<Write>, k: Bytes, s: nat)
    requires !NeverTouched(hist, k, s)
    ensures exists q: nat :: LastTouch(hist, k, s, q)
  {
    var q := if s < |hist| then s else |hist| - 1;
    while !Touches(hist[q], k)
      invariant 0 <= q < |hist| && q <= s
      invariant forall p | q < p < |hist| && p <= s :: !Touches(hist[p], k)
      invariant exists p :: 0 <= p <= q && Touches(hist[p], k)
      decreases q
    {
      q := q - 1;
    }
    assert LastTouch(hist, k, s, q);
  }

  /** The newest visible version is the last write of the history to the key. */
  lemma NewestIsLastTouch(vs: set<Version>, hist: seq<Write>, k: Bytes, s: nat)
    requires Faithful(vs, hist) && Complete(vs, hist, s) && ValidKey(k)
    ensures NoneVisible(vs, k, s) ==> NeverTouched(hist, k, s)
    ensures forall v | IsNewest(v, vs, k, s) ::
              LastTouch(hist, k, s, v.seqno) && v == VersionOf(OpOn(hist[v.seqno], k), v.seqno)
  {
    if !NeverTouched(hist, k, s) {
      LastTouchExists(hist, k, s);
      var q: nat :| LastTouch(hist, k, s, q);
      var u := VersionOf(OpOn(hist[q], k), q);
      assert u in vs && Visible(u, k, s);
    }
  }

  /** What Get answers once it has the newest visible version. */
  ghost function Answer(found: Option<Version>, tombs: seq<Tomb>, k: Bytes, s: nat): Option<Bytes> {
    match found
    case None => None
    case Some(v) =>
      if v.kind == Deletion || Hidden(tombs, k, v.seqno, s) then None else Some(Unwrap(v.value))
  }

  lemma HiddenIsRanged(tombs: seq<Tomb>, hist: seq<Write>, k: Bytes, s: nat, q: nat)
    requires TombsOf(tombs, hist)
    ensures Hidden(tombs, k, q, s) <==> RangedAfter(hist, k, s, q)
  {
    if Hidden(tombs, k, q, s) {
      var i :| 0 <= i < |tombs| && Hides(tombs[i], k, q, s);
      var t := tombs[i];
      assert t in tombs;
      var j :| 0 <= j < |hist[t.seqno]| && hist[t.seqno][j] == DeleteRange(t.begin, t.end);
      assert Ranged(hist[t.seqno], k);
    }
    if RangedAfter(hist, k, s, q) {
      var p :| q < p < |hist| && 0 <= p <= s && Ranged(hist[p], k);
      var j :| 0 <= j < |hist[p]| && hist[p][j].DeleteRange? && Covers(hist[p][j].begin, hist[p][j].end, k);
      var t := Tomb(hist[p][j].begin, hist[p][j].end, p);
      assert hist[p][j] in hist[p];
      assert t in tombs;
      var i :| 0 <= i < |tombs| && tombs[i] == t;
      assert Hides(tombs[i], k, q, s);
    }
  }

  /** A snapshot sees the history up to its sequence number and nothing else. */
  lemma SnapshotOfHistory(hist: seq<Write>, k: Bytes, s: nat)
    ensures var h := UpTo(hist, s);
            && (NeverTouched(hist, k, s) ==> NeverTouched(h, k, |h|))
            && (forall q: nat | LastTouch(hist, k, s, q) ::
                  LastTouch(h, k, |h|, q) && h[q] == hist[q]
                  && (RangedAfter(hist, k, s, q) <==> RangedAfter(h, k, |h|, q)))
  {
    var h := UpTo(hist, s);
    forall q: nat | LastTouch(hist, k, s, q)
      ensures RangedAfter(hist, k, s, q) <==> RangedAfter(h, k, |h|, q)
    {
      if p :| q < p < |hist| && 0 <= p <= s && Ranged(hist[p], k) {
        assert h[p] == hist[p];
      }
      if p :| q < p < |h| && 0 <= p <= |h| && Ranged(h[p], k) {
        assert h[p] == hist[p];
      }
    }
  }

  /** The read rule of the engine computes the outcome of the history. */
  lemma {:induction false} AnswerIsOutcome(vs: set<Version>, tombs: seq<Tomb>, hist: seq<Write>,
                        k: Bytes, s: nat, found: Option<Version>)
    requires Faithful(vs, hist) && Complete(vs, hist, s) && TombsOf(tombs, hist)
    requires AllDistinct(hist) && ValidKey(k)
    requires match found case Some(v) => IsNewest(v, vs, k, s) case None => NoneVisible(vs, k, s)
    ensures Answer(found, tombs, k, s) == Outcome(UpTo(hist, s), k)
  {
    NewestIsLastTouch(vs, hist, k, s);
    SnapshotOfHistory(hist, k, s);
    ReadRule(UpTo(hist, s), k);
    if found.Some? {
      HiddenIsRanged(tombs, hist, k, s, found.value.seqno);
    }
  }

  // ---------------------------------------------------------------- compactions

  /** Replacing merge inputs by what the merge kept loses nothing a protected snapshot can
      ask for, nor anything of the latest state. */
  lemma CompactionStep(vs: set<Version>, vs': set<Version>, inputs: set<Version>, kept: seq<Version>,
                       hist: seq<Write>, observed: set<nat>)
    requires Faithful(vs, hist)
    requires inputs <= vs && vs' <= vs && vs <= vs' + inputs && Elems(kept) <= vs'
    requires Compaction.Merges(inputs, kept, observed)
    ensures Faithful(vs', hist)
    ensures forall s | Complete(vs, hist, s) && Compaction.Protected(inputs, observed, s) :: Complete(vs', hist, s)
    ensures Complete(vs, hist, |hist|) ==> Complete(vs', hist, |hist|)
  {
    forall s, k, q: nat | Complete(vs, hist, s) && Compaction.Protected(inputs, observed, s) && ValidKey(k) && LastTouch(hist, k, s, q)
      ensures VersionOf(OpOn(hist[q], k), q) in vs'
    {
      var v := VersionOf(OpOn(hist[q], k), q);
      assert v in vs;
      // A newer kept version would be a later write the snapshot can see.
      assert forall w | w in kept && w.key == k && q < w.seqno :: w in inputs && w.seqno > s;
      assert !Compaction.Shadowed(v, kept, observed);
      assert v in kept ==> v in Elems(kept);
    }
    assert Compaction.Protected(inputs, observed, |hist|);
  }
}
