/** What a client asked for: the history of write calls, one per sequence number,
    and the value every key has after replaying them in order. */
module History {
  import opened Bytes
  import opened Versions

  datatype Op =
    | Put(key: Bytes, value: Bytes)
    | Delete(key: Bytes)
    | DeleteRange(begin: Bytes, end: Bytes)

  /** One write call; a call whose log append failed has no operations. */
  type Write = seq<Op>

  predicate Covers(begin: Bytes, end: Bytes, k: Bytes) {
    LessEq(begin, k) && Less(k, end)
  }

  // ---------------------------------------------------------------- replay

  function Apply(state: Option<Bytes>, op: Op, k: Bytes): Option<Bytes> {
    match op
    case Put(key, value) => if key == k then Some(value) else state
    case Delete(key) => if key == k then None else state
    case DeleteRange(begin, end) => if Covers(begin, end, k) then None else state
  }

  function ApplyAll(state: Option<Bytes>, ops: seq<Op>, k: Bytes): Option<Bytes> {
    if ops == [] then state
    else Apply(ApplyAll(state, ops[..|ops| - 1], k), ops[|ops| - 1], k)
  }

  /** The value of `k` after replaying the whole history. */
  function Replay(hist: seq<Write>, k: Bytes): Option<Bytes> {
    if hist == [] then None
    else ApplyAll(Replay(hist[..|hist| - 1], k), hist[|hist| - 1], k)
  }

  // ---------------------------------------------------------------- one write

  predicate OnKey(op: Op, k: Bytes) {
    match op
    case Put(key, _) => key == k
    case Delete(key) => key == k
    case DeleteRange(_, _) => false
  }

  ghost predicate Touches(w: Write, k: Bytes) {
    exists i | 0 <= i < |w| :: OnKey(w[i], k)
  }

  ghost predicate Ranged(w: Write, k: Bytes) {
    exists i | 0 <= i < |w| :: w[i].DeleteRange? && Covers(w[i].begin, w[i].end, k)
  }

  /** All operations of a write share one sequence number, so the engine cannot
      order them: a key may be written once, and no two range deletions of a write
      may start at the same key. */
  ghost predicate DistinctKeys(w: Write) {
    && (forall i, j, k | 0 <= i < j < |w| && OnKey(w[i], k) :: !OnKey(w[j], k))
    && forall i, j | 0 <= i < j < |w| && w[i].DeleteRange? && w[j].DeleteRange? :: w[i].begin != w[j].begin
  }

  /** A range deletion never shadows a put of its own write. */
  ghost predicate NoPutThenRange(w: Write) {
    forall i, j | 0 <= i < j < |w| && w[i].Put? && w[j].DeleteRange? :: !Covers(w[j].begin, w[j].end, w[i].key)
  }

  /** The operation a write holds on `k`. */
  ghost function OpOn(w: Write, k: Bytes): Op
    requires Touches(w, k)
  {
    var i :| 0 <= i < |w| && OnKey(w[i], k);
    w[i]
  }

  lemma OpOnUnique(w: Write, k: Bytes, i: nat)
    requires DistinctKeys(w) && i < |w| && OnKey(w[i], k)
    ensures Touches(w, k) && OpOn(w, k) == w[i]
  {
    var j :| 0 <= j < |w| && OnKey(w[j], k) && OpOn(w, k) == w[j];
  }

  /** What the engine makes of a write: a point operation decides its key, a range
      deletion only the keys the write does not name. */
  ghost function Effect(state: Option<Bytes>, w: Write, k: Bytes): Option<Bytes> {
    if Touches(w, k) then
      match OpOn(w, k)
      case Put(_, value) => Some(value)
      case _ => None
    else if Ranged(w, k) then None
    else state
  }

  /** From index `i` on, no operation names `k`; without a range deletion over it
      the state stays, and once absent the key stays absent. */
  lemma {:induction false} Settled(state: Option<Bytes>, w: Write, k: Bytes, i: nat, n: nat)
    requires i <= n <= |w|
    requires forall j | i <= j < n :: !OnKey(w[j], k)
    ensures (forall j | i <= j < n :: !(w[j].DeleteRange? && Covers(w[j].begin, w[j].end, k)))
              ==> ApplyAll(state, w[..n], k) == ApplyAll(state, w[..i], k)
    ensures ApplyAll(state, w[..i], k) == None ==> ApplyAll(state, w[..n], k) == None
  {
    if i < n {
      Settled(state, w, k, i, n - 1);
      assert w[..n][..n - 1] == w[..n - 1];
    }
  }

  lemma {:induction false} EffectOnKey(state: Option<Bytes>, w: Write, k: Bytes)
    requires DistinctKeys(w)
    ensures Effect(state, w, k) == ApplyAll(state, w, k)
            || exists i, j :: 0 <= i < j < |w| && w[i].Put? && w[i].key == k
                              && w[j].DeleteRange? && Covers(w[j].begin, w[j].end, k)
  {
    assert w[..|w|] == w && w[..0] == [];
    if i :| 0 <= i < |w| && OnKey(w[i], k) {
      OpOnUnique(w, k, i);
      assert w[..i + 1][..i] == w[..i];
      Settled(state, w, k, i + 1, |w|);
    } else if Ranged(w, k) {
      var i :| 0 <= i < |w| && w[i].DeleteRange? && Covers(w[i].begin, w[i].end, k);
      assert w[..i + 1][..i] == w[..i];
      Settled(state, w, k, i + 1, |w|);
    } else {
      Settled(state, w, k, 0, |w|);
    }
  }

  /** The engine's reading of a write agrees with running its operations in order,
      for every key and every state, exactly when no put of the write is followed
      by a range deletion over its key. */
  lemma {:induction false} EffectIsSequential(w: Write)
    requires DistinctKeys(w)
    ensures NoPutThenRange(w) <==> forall k, state :: Effect(state, w, k) == ApplyAll(state, w, k)
  {
    if NoPutThenRange(w) {
      forall k, state ensures Effect(state, w, k) == ApplyAll(state, w, k) {
        EffectOnKey(state, w, k);
      }
    } else {
      var i, j :| 0 <= i < j < |w| && w[i].Put? && w[j].DeleteRange? && Covers(w[j].begin, w[j].end, w[i].key);
      var k := w[i].key;
      OpOnUnique(w, k, i);
      assert w[..j + 1][..j] == w[..j] && w[..|w|] == w;
      assert OnKey(w[i], k);
      Settled(None, w, k, j + 1, |w|);
      assert Effect(None, w, k) != ApplyAll(None, w, k);
    }
  }

  // ---------------------------------------------------------------- whole histories

  /** `q` is the last write up to sequence number `s` that names `k`. */
  ghost predicate LastTouch(hist: seq<Write>, k: Bytes, s: nat, q: nat) {
    && q < |hist| && q <= s && Touches(hist[q], k)
    && forall p | q < p < |hist| && p <= s :: !Touches(hist[p], k)
  }

  ghost predicate NeverTouched(hist: seq<Write>, k: Bytes, s: nat) {
    forall p | 0 <= p < |hist| && p <= s :: !Touches(hist[p], k)
  }

  /** Some range deletion after `q` and up to `s` covers `k`. */
  ghost predicate RangedAfter(hist: seq<Write>, k: Bytes, s: nat, q: int) {
    exists p :: q < p < |hist| && 0 <= p <= s && Ranged(hist[p], k)
  }

  ghost predicate AllDistinct(hist: seq<Write>) {
    forall p | 0 <= p < |hist| :: DistinctKeys(hist[p])
  }

  /** The value of `k` once the engine has taken every write of the history. */
  ghost function Outcome(hist: seq<Write>, k: Bytes): Option<Bytes> {
    if hist == [] then None
    else Effect(Outcome(hist[..|hist| - 1], k), hist[|hist| - 1], k)
  }

  /** Without a put that a later range deletion of its own batch covers, the
      outcome is the sequential replay of all operations. */
  lemma {:induction false} OutcomeIsReplay(hist: seq<Write>, k: Bytes)
    requires AllDistinct(hist) && forall p | 0 <= p < |hist| :: NoPutThenRange(hist[p])
    ensures Outcome(hist, k) == Replay(hist, k)
  {
    if hist != [] {
      var n := |hist| - 1;
      OutcomeIsReplay(hist[..n], k);
      EffectIsSequential(hist[n]);
    }
  }

  function UpTo(hist: seq<Write>, s: nat): seq<Write> {
    if s < |hist| then hist[..s + 1] else hist
  }

  /** The engine's rule -- the last write naming the key decides, unless a later
      range deletion covers it -- is what the outcome of the history is. */
  lemma {:induction false} ReadRule(hist: seq<Write>, k: Bytes)
    requires AllDistinct(hist)
    ensures NeverTouched(hist, k, |hist|) ==> Outcome(hist, k) == None
    ensures forall q: nat | LastTouch(hist, k, |hist|, q) ::
              Outcome(hist, k) == if OpOn(hist[q], k).Put? && !RangedAfter(hist, k, |hist|, q)
                                 then Some(OpOn(hist[q], k).value) else None
  {
    if hist != [] {
      var n := |hist| - 1;
      var init := hist[..n];
      ReadRule(init, k);
      assert Outcome(hist, k) == Effect(Outcome(init, k), hist[n], k);
      forall q: nat | LastTouch(hist, k, |hist|, q)
        ensures Outcome(hist, k) == if OpOn(hist[q], k).Put? && !RangedAfter(hist, k, |hist|, q)
                                   then Some(OpOn(hist[q], k).value) else None
      {
        if q < n {
          assert hist[q] == init[q];
          assert LastTouch(init, k, |init|, q);
          assert RangedAfter(hist, k, |hist|, q) <==> RangedAfter(init, k, |init|, q) || Ranged(hist[n], k) by {
            if p :| q < p < |hist| && 0 <= p <= |hist| && Ranged(hist[p], k) {
              assert p < n ==> init[p] == hist[p];
            }
            if p :| q < p < |init| && 0 <= p <= |init| && Ranged(init[p], k) {
              assert init[p] == hist[p];
            }
          }
        }
      }
    }
  }
}
