/** CompactionWorker::DoCompaction: the k-way merge of table files that rewrites
    them as new files and drops the versions no reader can still ask for. */
module Compaction {
  import opened Bytes
  import opened Versions

  /** An input file and the entries its iterator has not passed yet. */
  datatype Source = Source(fileId: nat, rest: seq<Version>)

  /** What the outside world decides during a merge. */
  datatype Env = Env(
    oldest: nat,             // oldest live snapshot when the merge starts
    refresh: nat -> nat,     // answer of the n-th later snapshot query
    full: nat -> bool,       // the output reached its target size after n entries
    addOk: nat -> bool,      // the n-th entry could be appended
    sealOk: nat -> bool)     // the n-th output could be finished and reopened

  const REFRESH_INTERVAL := 1000

  /** The heap's order: key, then larger seq first, then newer file first. */
  predicate HeapGreater(a: Source, b: Source)
    requires a.rest != [] && b.rest != []
  {
    var x, y := a.rest[0], b.rest[0];
    if x.key != y.key then Less(y.key, x.key)
    else if x.seqno != y.seqno then x.seqno < y.seqno
    else a.fileId < b.fileId
  }

  ghost function InputSet(inputs: seq<Source>): set<Version> {
    set i, v | 0 <= i < |inputs| && v in inputs[i].rest :: v
  }

  /** Each source is sorted and a version occurs in only one of them. */
  ghost predicate WellFormed(inputs: seq<Source>) {
    && (forall i | 0 <= i < |inputs| :: Sorted(inputs[i].rest))
    && forall i, j, a, b | 0 <= i < j < |inputs| && a in inputs[i].rest && b in inputs[j].rest ::
         !(a.key == b.key && a.seqno == b.seqno)
  }

  /** `v` may be dropped: a newer version of its key is kept, and that version is
      already visible to an oldest snapshot the merge saw. */
  ghost predicate Shadowed(v: Version, kept: seq<Version>, observed: set<nat>) {
    exists w, o :: w in kept && o in observed && w.key == v.key && v.seqno < w.seqno <= o
  }

  /** The contract of a merge, over the concatenation of its outputs. */
  ghost predicate Merges(inputs: set<Version>, kept: seq<Version>, observed: set<nat>) {
    && Sorted(kept)
    && (forall v | v in kept :: v in inputs)
    && forall v | v in inputs :: v in kept || Shadowed(v, kept, observed)
  }

  ghost function Flatten(outs: seq<seq<Version>>): seq<Version> {
    if outs == [] then [] else Flatten(outs[..|outs| - 1]) + outs[|outs| - 1]
  }

  lemma {:induction false} FlattenAppend(outs: seq<seq<Version>>, o: seq<Version>)
    ensures Flatten(outs + [o]) == Flatten(outs) + o
  {
    assert (outs + [o])[..|outs|] == outs;
  }

  function Pending(sources: seq<Source>): nat {
    if sources == [] then 0 else |sources[0].rest| + Pending(sources[1..])
  }

  lemma {:induction false} PendingDecreases(sources: seq<Source>, i: nat, n: nat)
    requires i < |sources| && 0 < n <= |sources[i].rest|
    ensures Pending(Advance(sources, i, n)) < Pending(sources)
  {
    if i > 0 {
      PendingDecreases(sources[1..], i - 1, n);
      assert Advance(sources, i, n)[1..] == Advance(sources[1..], i - 1, n);
    } else {
      assert Advance(sources, i, n)[1..] == sources[1..];
    }
  }

  /** The source whose head comes first in the heap's order. */
  function Least(sources: seq<Source>): (r: Option<nat>)
    ensures r.Some? ==> r.value < |sources| && sources[r.value].rest != []
  {
    if sources == [] then None
    else
      var i := |sources| - 1;
      var front := Least(sources[..i]);
      if sources[i].rest != [] && (front.None? || HeapGreater(sources[front.value], sources[i])) then Some(i) else front
  }

  lemma {:induction false} LeastIs(sources: seq<Source>)
    ensures Least(sources).None? <==> forall i | 0 <= i < |sources| :: sources[i].rest == []
    ensures Least(sources).Some? ==>
              forall i | 0 <= i < |sources| && sources[i].rest != [] :: !HeapGreater(sources[Least(sources).value], sources[i])
  {
    if sources != [] {
      var i := |sources| - 1;
      LeastIs(sources[..i]);
      assert forall j | 0 <= j < i :: sources[..i][j] == sources[j];
      TotalOrder();
    }
  }

  /** priority_queue::top. */
  method Top(sources: seq<Source>, heap: set<nat>) returns (best: nat)
    requires heap != {} && HeapOf(sources, heap)
    ensures Least(sources) == Some(best)
  {
    hide HeapGreater;
    var found := false;
    best := 0;
    for i := 0 to |sources|
      invariant Least(sources[..i]) == if found then Some(best) else None
      invariant found ==> best < i && sources[best].rest != []
    {
      assert sources[..i + 1][..i] == sources[..i];
      if i in heap && (!found || HeapGreater(sources[best], sources[i])) {
        best, found := i, true;
      }
    }
    assert sources[..|sources|] == sources;
    LeastIs(sources);
  }

  /** Each iterator stands somewhere in its file. */
  ghost predicate Suffixes(inputs: seq<Source>, sources: seq<Source>) {
    && |sources| == |inputs|
    && forall i | 0 <= i < |sources| ::
         |sources[i].rest| <= |inputs[i].rest|
         && sources[i].rest == inputs[i].rest[|inputs[i].rest| - |sources[i].rest|..]
  }

  ghost predicate Ahead(sources: seq<Source>, kept: seq<Version>) {
    forall i, v, w | 0 <= i < |sources| && v in sources[i].rest && w in kept :: Before(w, v)
  }

  ghost predicate Accounted(inputs: seq<Source>, sources: seq<Source>,
                            kept: seq<Version>, observed: set<nat>)
    requires |sources| == |inputs|
  {
    forall i, v | 0 <= i < |inputs| && v in inputs[i].rest ::
      v in sources[i].rest || v in kept || Shadowed(v, kept, observed)
  }

  /** The merge has consumed everything that is not in `sources` into `kept`. */
  ghost predicate Progress(inputs: seq<Source>, sources: seq<Source>,
                           kept: seq<Version>, observed: set<nat>) {
    && Suffixes(inputs, sources)
    && Sorted(kept)
    && Ahead(sources, kept)
    && (forall w | w in kept :: w in InputSet(inputs))
    && Accounted(inputs, sources, kept, observed)
  }

  /** The heap holds exactly the sources that have an entry left. */
  ghost predicate HeapOf(sources: seq<Source>, heap: set<nat>) {
    forall i :: i in heap <==> 0 <= i < |sources| && sources[i].rest != []
  }

  ghost predicate Smallest(sources: seq<Source>, heap: set<nat>, best: nat)
    requires HeapOf(sources, heap)
  {
    best in heap && forall i | i in heap :: !HeapGreater(sources[best], sources[i])
  }

  lemma {:induction false} LeastIsSmallest(sources: seq<Source>, heap: set<nat>)
    requires HeapOf(sources, heap)
    ensures Least(sources).None? <==> heap == {}
    ensures Least(sources).Some? ==> Smallest(sources, heap, Least(sources).value)
  {
    hide HeapGreater, Least;
    LeastIs(sources);
    if heap != {} {
      var i :| i in heap;
      assert sources[i].rest != [];
    }
  }

  /** Every version still to come sorts after the smallest pending head. */
  lemma HeadIsFirst(inputs: seq<Source>, sources: seq<Source>, heap: set<nat>, best: nat)
    requires WellFormed(inputs) && Suffixes(inputs, sources)
    requires HeapOf(sources, heap) && Smallest(sources, heap, best)
    ensures forall i, v | 0 <= i < |sources| && v in sources[i].rest ::
              v == sources[best].rest[0] || Before(sources[best].rest[0], v)
  {
    var top := sources[best].rest[0];
    assert top in inputs[best].rest;
    forall i, v | 0 <= i < |sources| && v in sources[i].rest
      ensures v == top || Before(top, v)
    {
      TotalOrder();
      SortedSuffix(inputs[i].rest, |inputs[i].rest| - |sources[i].rest|);
      var head := sources[i].rest[0];
      assert head in inputs[i].rest;
      assert i in heap;
      assert v == head || Before(head, v);
      assert i != best ==> !(head.key == top.key && head.seqno == top.seqno);
    }
  }

  /** The head of a source does not occur behind it or in another source. */
  lemma NotAgain(inputs: seq<Source>, sources: seq<Source>, best: nat, i: nat, v: Version)
    requires WellFormed(inputs) && Suffixes(inputs, sources)
    requires best < |sources| && i < |sources| && sources[best].rest != []
    requires if i == best then v in sources[best].rest[1..] else v in sources[i].rest
    ensures v != sources[best].rest[0]
  {
    var top := sources[best].rest[0];
    SortedSuffix(inputs[best].rest, |inputs[best].rest| - |sources[best].rest|);
    SortedIsDistinct(sources[best].rest);
    assert top in inputs[best].rest && v in inputs[i].rest;
  }

  function Advance(sources: seq<Source>, i: nat, n: nat): (r: seq<Source>)
    requires i < |sources| && n <= |sources[i].rest|
  {
    sources[i := Source(sources[i].fileId, sources[i].rest[n..])]
  }

  lemma AdvanceSuffixes(inputs: seq<Source>, sources: seq<Source>, i: nat, n: nat)
    requires Suffixes(inputs, sources) && i < |sources| && n <= |sources[i].rest|
    ensures Suffixes(inputs, Advance(sources, i, n))
  {
  }

  lemma KeepAhead(inputs: seq<Source>, sources: seq<Source>, heap: set<nat>, best: nat, kept: seq<Version>)
    requires WellFormed(inputs) && Suffixes(inputs, sources) && Ahead(sources, kept)
    requires HeapOf(sources, heap) && Smallest(sources, heap, best)
    ensures Ahead(Advance(sources, best, 1), kept + [sources[best].rest[0]])
  {
    var top := sources[best].rest[0];
    HeadIsFirst(inputs, sources, heap, best);
    forall i, v, w | 0 <= i < |sources| && v in Advance(sources, best, 1)[i].rest && w in kept + [top]
      ensures Before(w, v)
    {
      assert v in sources[i].rest;
      NotAgain(inputs, sources, best, i, v);
    }
  }

  lemma KeepAccounted(inputs: seq<Source>, sources: seq<Source>, best: nat,
                      kept: seq<Version>, observed: set<nat>)
    requires |sources| == |inputs| && Accounted(inputs, sources, kept, observed)
    requires best < |sources| && sources[best].rest != []
    ensures Accounted(inputs, Advance(sources, best, 1), kept + [sources[best].rest[0]], observed)
  {
    var kept' := kept + [sources[best].rest[0]];
    forall i, v | 0 <= i < |inputs| && v in inputs[i].rest && Shadowed(v, kept, observed)
      ensures Shadowed(v, kept', observed)
    {
      var w, o :| w in kept && o in observed && w.key == v.key && v.seqno < w.seqno <= o;
      assert w in kept';
    }
  }

  /** Appending the smallest pending version to the output. */
  lemma Keep(inputs: seq<Source>, sources: seq<Source>, heap: set<nat>, best: nat,
             kept: seq<Version>, observed: set<nat>)
    requires WellFormed(inputs) && Progress(inputs, sources, kept, observed)
    requires HeapOf(sources, heap) && Smallest(sources, heap, best)
    ensures Progress(inputs, Advance(sources, best, 1), kept + [sources[best].rest[0]], observed)
  {
    var top := sources[best].rest[0];
    KeepAhead(inputs, sources, heap, best, kept);
    KeepAccounted(inputs, sources, best, kept, observed);
    AdvanceSuffixes(inputs, sources, best, 1);
    assert top in inputs[best].rest;
    SortedAppend(kept, top);
  }

  /** Skipping the rest of a key whose kept version every snapshot can read. */
  lemma Drop(inputs: seq<Source>, sources: seq<Source>, idx: nat, n: nat,
             kept: seq<Version>, observed: set<nat>, o: nat)
    requires Progress(inputs, sources, kept, observed)
    requires idx < |sources| && n <= |sources[idx].rest|
    requires kept != [] && kept[|kept| - 1].seqno <= o && o in observed
    requires forall j | 0 <= j < n :: sources[idx].rest[j].key == kept[|kept| - 1].key
    ensures Progress(inputs, Advance(sources, idx, n), kept, observed)
  {
    var last := kept[|kept| - 1];
    AdvanceSuffixes(inputs, sources, idx, n);
    TotalOrder();
    forall v | v in sources[idx].rest && v !in sources[idx].rest[n..]
      ensures Shadowed(v, kept, observed)
    {
      assert Before(last, v) && v.key == last.key;
      assert last in kept && o in observed && last.key == v.key && v.seqno < last.seqno <= o;
    }
  }

  lemma ObserveMore(inputs: seq<Source>, sources: seq<Source>, kept: seq<Version>, env: Env, n: nat)
    requires Progress(inputs, sources, kept, Observed(env, n))
    ensures Progress(inputs, sources, kept, Observed(env, n + 1))
    ensures env.refresh(n) in Observed(env, n + 1)
  {
    var less, more := Observed(env, n), Observed(env, n + 1);
    assert less <= more;
    forall v | Shadowed(v, kept, less) ensures Shadowed(v, kept, more) {
      var w, o :| w in kept && o in less && w.key == v.key && v.seqno < w.seqno <= o;
      assert o in more;
    }
  }

  ghost predicate AllNonEmpty(outs: seq<seq<Version>>) {
    forall i | 0 <= i < |outs| :: outs[i] != []
  }

  /** The oldest-snapshot values seen up to the n-th query. */
  ghost function Observed(env: Env, n: nat): set<nat> {
    if n == 0 then {env.oldest} else Observed(env, n - 1) + {env.refresh(n - 1)}
  }

  // ---------------------------------------------------------------- the merge as a function

  /** Where a merge stands: what is left of its inputs, what it kept, the last entry
      written to the current output, and what it knows of live snapshots. */
  datatype Round = Round(sources: seq<Source>, kept: seq<Version>, lastKey: Bytes, lastSeq: nat,
                         oldest: nat, since: nat, queries: nat)

  function RunOf(rest: seq<Version>, key: Bytes): (n: nat)
    ensures n <= |rest| && (rest != [] && rest[0].key == key ==> n > 0)
  {
    if rest == [] || rest[0].key != key then 0 else 1 + RunOf(rest[1..], key)
  }

  lemma {:induction false} RunOfIs(rest: seq<Version>, key: Bytes, n: nat)
    requires n <= |rest| && (forall j | 0 <= j < n :: rest[j].key == key) && (n < |rest| ==> rest[n].key != key)
    ensures RunOf(rest, key) == n
    decreases n
  {
    if n > 0 {
      RunOfIs(rest[1..], key, n - 1);
    }
  }

  lemma {:induction false} RunOfKeys(rest: seq<Version>, key: Bytes)
    ensures forall j | 0 <= j < RunOf(rest, key) :: rest[j].key == key
  {
    if rest != [] && rest[0].key == key {
      RunOfKeys(rest[1..], key);
      forall j | 0 <= j < RunOf(rest, key) ensures rest[j].key == key {
        assert j > 0 ==> rest[1..][j - 1] == rest[j];
      }
    }
  }

  /** Every REFRESH_INTERVAL-th entry asks for the oldest live snapshot again. */
  function Asked(m: Round, env: Env): Round {
    if m.since + 1 >= REFRESH_INTERVAL then m.(oldest := env.refresh(m.queries), since := 0, queries := m.queries + 1)
    else m.(since := m.since + 1)
  }

  /** The head belongs to the key just written, and no snapshot can read past that. */
  predicate Droppable(m: Round, head: Version) {
    m.lastKey != [] && head.key == m.lastKey && m.lastSeq <= m.oldest
  }

  /** One entry: the key's run in this source is dropped, or the entry is kept; a full
      output is closed, and with it the last key forgotten. */
  function Next(m: Round, env: Env): Round
    requires Least(m.sources).Some?
  {
    var i := Least(m.sources).value;
    var head, q := m.sources[i].rest[0], Asked(m, env);
    if Droppable(q, head) then q.(sources := Advance(m.sources, i, RunOf(m.sources[i].rest, m.lastKey)))
    else
      var kept := m.kept + [head];
      q.(sources := Advance(m.sources, i, 1), kept := kept,
         lastKey := if env.full(|kept|) then [] else head.key, lastSeq := head.seqno)
  }

  lemma NextIsLess(m: Round, env: Env)
    requires Least(m.sources).Some?
    ensures Pending(Next(m, env).sources) < Pending(m.sources)
  {
    hide Pending, Least;
    var i := Least(m.sources).value;
    var q := Asked(m, env);
    if Droppable(q, m.sources[i].rest[0]) {
      PendingDecreases(m.sources, i, RunOf(m.sources[i].rest, m.lastKey));
    } else {
      PendingDecreases(m.sources, i, 1);
    }
  }

  ghost function Drain(m: Round, env: Env): Round
    decreases Pending(m.sources)
  {
    if Least(m.sources).None? then m else NextIsLess(m, env); Drain(Next(m, env), env)
  }

  function Begin(inputs: seq<Source>, env: Env): Round {
    Round(inputs, [], [], 0, env.oldest, 0, 0)
  }

  /** What the merge of these inputs keeps, in order. */
  ghost function Kept(inputs: seq<Source>, env: Env): seq<Version> {
    Drain(Begin(inputs, env), env).kept
  }

  /** How often it asked for the oldest snapshot. */
  ghost function Queries(inputs: seq<Source>, env: Env): nat {
    Drain(Begin(inputs, env), env).queries
  }

  lemma {:induction false} DrainExtends(m: Round, env: Env)
    ensures m.kept <= Drain(m, env).kept
    decreases Pending(m.sources)
  {
    if Least(m.sources).Some? {
      NextIsLess(m, env);
      DrainExtends(Next(m, env), env);
    }
  }

  ghost predicate RoundOK(inputs: seq<Source>, m: Round, env: Env) {
    && Progress(inputs, m.sources, m.kept, Observed(env, m.queries)) && m.oldest in Observed(env, m.queries)
    && (m.lastKey != [] ==> m.kept != [])
    && (m.lastKey != [] ==> m.lastKey == m.kept[|m.kept| - 1].key && m.lastSeq == m.kept[|m.kept| - 1].seqno)
  }

  lemma AskedOK(inputs: seq<Source>, m: Round, env: Env)
    requires RoundOK(inputs, m, env)
    ensures RoundOK(inputs, Asked(m, env), env)
  {
    hide Progress, Observed;
    if m.since + 1 >= REFRESH_INTERVAL {
      ObserveMore(inputs, m.sources, m.kept, env, m.queries);
    }
  }

  lemma NextOK(inputs: seq<Source>, m: Round, env: Env)
    requires WellFormed(inputs) && RoundOK(inputs, m, env) && Least(m.sources).Some?
    ensures RoundOK(inputs, Next(m, env), env)
  {
    hide Progress, Observed, WellFormed, Least, HeapGreater, RunOf;
    AskedOK(inputs, m, env);
    var i, q := Least(m.sources).value, Asked(m, env);
    var rest := m.sources[i].rest;
    if Droppable(q, rest[0]) {
      RunOfKeys(rest, m.lastKey);
      Drop(inputs, m.sources, i, RunOf(rest, m.lastKey), m.kept, Observed(env, q.queries), q.oldest);
    } else {
      var heap := set j: nat | j < |m.sources| && m.sources[j].rest != [];
      LeastIsSmallest(m.sources, heap);
      Keep(inputs, m.sources, heap, i, m.kept, Observed(env, q.queries));
    }
  }

  lemma {:induction false} DrainOK(inputs: seq<Source>, m: Round, env: Env)
    requires WellFormed(inputs) && RoundOK(inputs, m, env)
    ensures RoundOK(inputs, Drain(m, env), env) && Least(Drain(m, env).sources).None?
    decreases Pending(m.sources)
  {
    hide RoundOK, WellFormed, Next, Least;
    if Least(m.sources).Some? {
      NextOK(inputs, m, env);
      NextIsLess(m, env);
      DrainOK(inputs, Next(m, env), env);
    }
  }

  /** What the merge keeps is sorted, comes from the inputs, and lacks only what a kept
      version shadows for every snapshot it saw. */
  lemma {:induction false} KeptMerges(inputs: seq<Source>, env: Env)
    requires WellFormed(inputs)
    ensures Merges(InputSet(inputs), Kept(inputs, env), Observed(env, Queries(inputs, env)))
    ensures Kept(inputs, env) == [] <==> InputSet(inputs) == {}
  {
    hide Progress, Merges, WellFormed, InputSet, Observed, Drain, HeapGreater;
    Started(inputs, env);
    DrainOK(inputs, Begin(inputs, env), env);
    var m := Drain(Begin(inputs, env), env);
    LeastIs(m.sources);
    Finished(inputs, m.sources, m.kept, Observed(env, m.queries));
    MergesSomething(InputSet(inputs), m.kept, Observed(env, m.queries));
  }

  /** One more entry: the first of a new piece, or the last of the current one. */
  function Grow(front: seq<seq<Version>>, v: Version, cut: bool): (r: seq<seq<Version>>)
    requires cut || front != []
    ensures r != []
  {
    if cut then front + [[v]] else front[..|front| - 1] + [front[|front| - 1] + [v]]
  }

  /** The kept entries, cut behind every entry that fills an output. */
  ghost function Pieces(kept: seq<Version>, full: nat -> bool): (r: seq<seq<Version>>)
    ensures r == [] <==> kept == []
  {
    if kept == [] then []
    else
      var n := |kept| - 1;
      Grow(Pieces(kept[..n], full), kept[n], n == 0 || full(n))
  }

  lemma {:induction false} GrowFlatten(front: seq<seq<Version>>, v: Version, cut: bool)
    requires AllNonEmpty(front) && (cut || front != [])
    ensures Flatten(Grow(front, v, cut)) == Flatten(front) + [v] && AllNonEmpty(Grow(front, v, cut))
  {
    hide Flatten;
    if cut {
      FlattenAppend(front, [v]);
    } else {
      var k := |front| - 1;
      FlattenAppend(front[..k], front[k]);
      FlattenAppend(front[..k], front[k] + [v]);
      assert front[..k] + [front[k]] == front;
      assert Flatten(front[..k]) + (front[k] + [v]) == Flatten(front[..k]) + front[k] + [v];
    }
  }

  lemma NoPieces(full: nat -> bool)
    ensures Pieces([], full) == [] && Flatten([]) == [] && AllNonEmpty([])
  {
  }

  lemma {:induction false} PiecesAre(kept: seq<Version>, full: nat -> bool)
    ensures Flatten(Pieces(kept, full)) == kept && AllNonEmpty(Pieces(kept, full))
  {
    hide Flatten, Grow, AllNonEmpty;
    if kept == [] {
      NoPieces(full);
    } else {
      var n := |kept| - 1;
      PiecesAre(kept[..n], full);
      GrowFlatten(Pieces(kept[..n], full), kept[n], n == 0 || full(n));
      assert kept[..n] + [kept[n]] == kept;
    }
  }

  /** Every entry could be appended and every output finished, and the last one is not
      empty: a merge of nothing, or a cut right behind the last entry, fails the round. */
  ghost predicate Succeeds(kept: seq<Version>, env: Env) {
    && kept != [] && !env.full(|kept|)
    && (forall n | 0 <= n < |kept| :: env.addOk(n))
    && forall i | 0 <= i < |Pieces(kept, env.full)| :: env.sealOk(i)
  }

  /** The outputs, as a function of the inputs and the environment. */
  ghost function Compacted(inputs: seq<Source>, env: Env): Option<seq<seq<Version>>> {
    if inputs == [] then Some([])
    else if Succeeds(Kept(inputs, env), env) then Some(Pieces(Kept(inputs, env), env.full))
    else None
  }

  /** Every entry of the outputs was appended, and every output finished. */
  ghost predicate AllWritten(outs: seq<seq<Version>>, env: Env) {
    (forall n | 0 <= n < |Flatten(outs)| :: env.addOk(n)) && forall i | 0 <= i < |outs| :: env.sealOk(i)
  }

  lemma WrittenWhole(inputs: seq<Source>, env: Env)
    ensures var r := Compacted(inputs, env); r.Some? ==> AllWritten(r.value, env)
  {
    hide Kept, Pieces;
    PiecesAre(Kept(inputs, env), env.full);
  }

  /** A merge of something fails exactly when an entry cannot be appended, an output cannot
      be finished, or the last entry fills an output. */
  lemma FailsExactly(inputs: seq<Source>, env: Env)
    requires WellFormed(inputs) && InputSet(inputs) != {}
    ensures var kept := Kept(inputs, env);
            && kept != []
            && (Compacted(inputs, env).None? <==>
                  || (exists n | 0 <= n < |kept| :: !env.addOk(n))
                  || (exists i | 0 <= i < |Pieces(kept, env.full)| :: !env.sealOk(i))
                  || env.full(|kept|))
  {
    hide Kept, Pieces, WellFormed;
    KeptMerges(inputs, env);
  }

  // ---------------------------------------------------------------- the merge as the code does it

  /** The output side of the merge: finished files, the file being built, and
      whether some file could not be finished. */
  datatype Outputs = Outputs(files: seq<seq<Version>>, current: seq<Version>, failed: bool)

  /** `sealed` files were closed, and what was kept stands in them as it should. */
  ghost predicate Holds(o: Outputs, kept: seq<Version>, env: Env, sealed: nat) {
    && (o.current == [] <==> kept == [] || env.full(|kept|))
    && |Pieces(kept, env.full)| == sealed + (if o.current == [] then 0 else 1)
    && (o.failed <==> exists i | 0 <= i < sealed :: !env.sealOk(i))
    && (o.current != [] ==> Pieces(kept, env.full)[sealed] == o.current)
    && (!o.failed ==> Pieces(kept, env.full) == o.files + if o.current == [] then [] else [o.current])
  }

  /** finish_current_output: an empty file is refused. */
  function Seal(o: Outputs, ok: bool): Outputs {
    if ok && o.current != [] then Outputs(o.files + [o.current], [], o.failed)
    else Outputs(o.files, [], true)
  }

  /** An entry joins the current output, which is closed if that fills it. */
  function Put(o: Outputs, v: Version, full: bool, ok: bool): Outputs {
    var grown := o.(current := o.current + [v]);
    if full then Seal(grown, ok) else grown
  }

  lemma PutHolds(o: Outputs, kept: seq<Version>, env: Env, sealed: nat, v: Version)
    requires Holds(o, kept, env, sealed)
    ensures var full := env.full(|kept| + 1);
            Holds(Put(o, v, full, env.sealOk(sealed)), kept + [v], env, if full then sealed + 1 else sealed)
  {
    var p, p', n := Pieces(kept, env.full), Pieces(kept + [v], env.full), |kept|;
    assert (kept + [v])[..n] == kept && (kept + [v])[n] == v;
    if o.current == [] {
      assert p' == p + [[v]];
    } else {
      assert p' == p[..sealed] + [o.current + [v]];
      assert !o.failed ==> p[..sealed] == o.files;
    }
    assert p'[sealed] == o.current + [v];
    var full := env.full(n + 1);
    if full {
      assert (exists i | 0 <= i < sealed + 1 :: !env.sealOk(i)) <==> (exists i | 0 <= i < sealed :: !env.sealOk(i)) || !env.sealOk(sealed) by {
        SealedNext(env, sealed);
      }
    }
  }

  lemma SealedNext(env: Env, sealed: nat)
    ensures (exists i | 0 <= i < sealed + 1 :: !env.sealOk(i)) <==> (exists i | 0 <= i < sealed :: !env.sealOk(i)) || !env.sealOk(sealed)
  {
    if exists i | 0 <= i < sealed :: !env.sealOk(i) {
      var i :| 0 <= i < sealed && !env.sealOk(i);
      assert 0 <= i < sealed + 1 && !env.sealOk(i);
    }
  }

  /** The length of the run of `key` a source starts with. */
  method RunLength(rest: seq<Version>, key: Bytes) returns (n: nat)
    ensures n == RunOf(rest, key)
  {
    n := 0;
    while n < |rest| && rest[n].key == key
      invariant n <= |rest| && forall j | 0 <= j < n :: rest[j].key == key
    {
      n := n + 1;
    }
    RunOfIs(rest, key, n);
  }

  method DoCompaction(inputs: seq<Source>, env: Env)
    returns (r: Option<seq<seq<Version>>>)
    ensures r == Compacted(inputs, env)
    ensures r.Some? ==> AllNonEmpty(r.value)
    ensures r.Some? ==> AllWritten(r.value, env)
    ensures r.Some? && WellFormed(inputs) ==>
              Merges(InputSet(inputs), Flatten(r.value), Observed(env, Queries(inputs, env)))
  {
    WrittenWhole(inputs, env);
    hide Drain, Next, Least, Pending, Merges, HeapGreater, InputSet, WellFormed, Holds, Observed, Pieces, Put, Flatten, AllWritten;
    if WellFormed(inputs) {
      KeptMerges(inputs, env);
    }
    if inputs == [] {
      NothingToMerge(env);
      return Some([]);
    }
    var sources := inputs;
    var heap := set i: nat | i < |sources| && sources[i].rest != [];
    var oldest, sinceRefresh, refreshes := env.oldest, 0, 0;
    var out := Outputs([], [], false);
    var written, sealed := 0, 0;
    var lastKey: Bytes, lastSeq := [], 0;
    ghost var m := Begin(inputs, env);
    NothingHeld(env);

    while heap != {}
      invariant m == Round(sources, m.kept, lastKey, lastSeq, oldest, sinceRefresh, refreshes)
      invariant Drain(m, env) == Drain(Begin(inputs, env), env)
      invariant HeapOf(sources, heap) && written == |m.kept| && Holds(out, m.kept, env, sealed)
      invariant forall n | 0 <= n < written :: env.addOk(n)
      decreases Pending(sources)
    {
      var idx := Top(sources, heap);
      var entry := sources[idx].rest[0];
      Step(m, env);
      sinceRefresh := sinceRefresh + 1;
      if sinceRefresh >= REFRESH_INTERVAL {
        oldest := env.refresh(refreshes);
        refreshes, sinceRefresh := refreshes + 1, 0;
      }

      if lastKey != [] && entry.key == lastKey && lastSeq <= oldest {
        // Nobody can read past the version just written: skip this key here.
        var n := RunLength(sources[idx].rest, lastKey);
        HeapAdvance(sources, heap, idx, n);
        heap, sources := Repush(sources, heap, idx, n), Advance(sources, idx, n);
      } else if !env.addOk(written) {
        Refused(inputs, m, env);
        return None;
      } else {
        PutHolds(out, m.kept, env, sealed, entry);
        out := Put(out, entry, env.full(written + 1), env.sealOk(sealed));
        lastKey, lastSeq, written := entry.key, entry.seqno, written + 1;
        HeapAdvance(sources, heap, idx, 1);
        heap, sources := Repush(sources, heap, idx, 1), Advance(sources, idx, 1);
        if env.full(written) {
          lastKey, sealed := [], sealed + 1;
        }
      }
      m := Next(m, env);
    }

    Drained(m, heap, env);
    SealHolds(out, m.kept, env, sealed);
    PiecesAre(m.kept, env.full);
    out := Seal(out, env.sealOk(sealed));
    r := if out.failed then None else Some(out.files);
  }

  lemma NothingToMerge(env: Env)
    ensures AllNonEmpty([]) && Flatten([]) == [] && Kept([], env) == [] && Least([]).None?
  {
  }

  lemma NothingHeld(env: Env)
    ensures Holds(Outputs([], [], false), [], env, 0)
  {
  }

  /** One round of the loop: what it does to the sources, the output and the last key. */
  lemma {:induction false} Step(m: Round, env: Env)
    requires Least(m.sources).Some?
    ensures Drain(m, env) == Drain(Next(m, env), env) && Pending(Next(m, env).sources) < Pending(m.sources)
    ensures var i := Least(m.sources).value;
            var head, q, n := m.sources[i].rest[0], Asked(m, env), |m.kept| + 1;
            Next(m, env) ==
            if Droppable(q, head) then q.(sources := Advance(m.sources, i, RunOf(m.sources[i].rest, m.lastKey)))
            else q.(sources := Advance(m.sources, i, 1), kept := m.kept + [head],
                    lastKey := if env.full(n) then [] else head.key, lastSeq := head.seqno)
  {
    NextIsLess(m, env);
  }

  /** An entry that could not be appended. */
  lemma {:induction false} Refused(inputs: seq<Source>, m: Round, env: Env)
    requires inputs != [] && Drain(m, env) == Drain(Begin(inputs, env), env) && Least(m.sources).Some?
    requires |Next(m, env).kept| > |m.kept| && !env.addOk(|m.kept|)
    ensures Compacted(inputs, env) == None
  {
    hide Next, Least, Pieces;
    NextIsLess(m, env);
    DrainExtends(Next(m, env), env);
    assert |Kept(inputs, env)| > |m.kept|;
  }

  lemma {:induction false} Drained(m: Round, heap: set<nat>, env: Env)
    requires HeapOf(m.sources, heap) && heap == {}
    ensures Drain(m, env) == m
  {
    LeastIsSmallest(m.sources, heap);
  }

  /** The last output is closed. */
  lemma {:induction false} SealHolds(o: Outputs, kept: seq<Version>, env: Env, sealed: nat)
    requires Holds(o, kept, env, sealed) && forall n | 0 <= n < |kept| :: env.addOk(n)
    ensures var done := Seal(o, env.sealOk(sealed));
            && (done.failed <==> !Succeeds(kept, env))
            && (!done.failed ==> done.files == Pieces(kept, env.full))
  {
    hide Pieces;
    var p := Pieces(kept, env.full);
    if o.current != [] {
      SealedNext(env, sealed);
      assert |p| == sealed + 1;
    }
  }

  /** The heap after source `i` moved `n` entries on: it stays queued if it has more. */
  function Repush(sources: seq<Source>, heap: set<nat>, i: nat, n: nat): set<nat>
    requires i < |sources| && n <= |sources[i].rest|
  {
    if n < |sources[i].rest| then heap else heap - {i}
  }

  lemma HeapAdvance(sources: seq<Source>, heap: set<nat>, i: nat, n: nat)
    requires HeapOf(sources, heap) && i in heap && n <= |sources[i].rest|
    ensures HeapOf(Advance(sources, i, n), Repush(sources, heap, i, n))
  {
  }

  lemma MergesSomething(inputs: set<Version>, kept: seq<Version>, observed: set<nat>)
    requires Merges(inputs, kept, observed)
    ensures kept == [] <==> inputs == {}
  {
    if kept != [] {
      assert kept[0] in inputs;
    }
    assert forall v | v in inputs :: v in kept || Shadowed(v, kept, observed);
  }

  lemma {:induction false} Started(inputs: seq<Source>, env: Env)
    ensures Progress(inputs, inputs, [], Observed(env, 0)) && env.oldest in Observed(env, 0)
    ensures RoundOK(inputs, Begin(inputs, env), env)
  {
  }

  lemma Finished(inputs: seq<Source>, sources: seq<Source>, kept: seq<Version>, observed: set<nat>)
    requires Progress(inputs, sources, kept, observed)
    requires forall i | 0 <= i < |sources| :: sources[i].rest == []
    ensures Merges(InputSet(inputs), kept, observed)
  {
  }

  /** A snapshot the merge protects: it lies at or above every version that some
      observed oldest snapshot could already see. Every snapshot at or above all the
      observed values is one, and so is one at or above every sequence number. */
  ghost predicate Protected(inputs: set<Version>, observed: set<nat>, s: nat) {
    forall v, o | v in inputs && o in observed && v.seqno <= o :: v.seqno <= s
  }

  /** What a merge may drop changes no protected read: for every key the newest
      visible version is the same before and after, or absent on both sides. */
  lemma LookupPreserved(inputs: set<Version>, kept: seq<Version>, observed: set<nat>, k: Bytes, s: nat)
    requires Merges(inputs, kept, observed) && Protected(inputs, observed, s)
    ensures forall v :: IsNewest(v, inputs, k, s) <==> IsNewest(v, Elems(kept), k, s)
    ensures NoneVisible(inputs, k, s) <==> NoneVisible(Elems(kept), k, s)
  {
    // Whatever was dropped is outlived by a kept version that is still visible.
    forall v | v in inputs && v !in kept && Visible(v, k, s)
      ensures exists w :: w in kept && Visible(w, k, s) && w.seqno > v.seqno
    {
      var w, o :| w in kept && o in observed && w.key == v.key && v.seqno < w.seqno <= o;
      assert w in inputs;
    }
    assert forall v | v in kept :: v in inputs && v in Elems(kept);
    forall v | IsNewest(v, Elems(kept), k, s) ensures IsNewest(v, inputs, k, s) {
      forall u | u in inputs && Visible(u, k, s) ensures u.seqno <= v.seqno {
        assert u in kept ==> u in Elems(kept);
      }
    }
  }

  // ---------------------------------------------------------------- merges that see everything

  /** No output is ever full, and every version lies at or below every oldest snapshot the
      merge can observe, as it does when no snapshot is registered. */
  ghost predicate SeesAll(inputs: seq<Source>, env: Env) {
    && (forall n :: !env.full(n))
    && (forall v | v in InputSet(inputs) :: v.key != [] && v.seqno <= env.oldest)
    && forall v, n | v in InputSet(inputs) :: v.seqno <= env.refresh(n)
  }

  ghost predicate DistinctIn(kept: seq<Version>) {
    forall i, j | 0 <= i < j < |kept| :: kept[i].key != kept[j].key
  }

  ghost predicate RoundOne(inputs: seq<Source>, m: Round, env: Env) {
    && RoundOK(inputs, m, env) && DistinctIn(m.kept)
    && (forall v | v in InputSet(inputs) :: v.seqno <= m.oldest)
    && (m.kept != [] ==> m.lastKey == m.kept[|m.kept| - 1].key && m.lastKey != [])
  }

  /** The next entry kept has a new key. */
  lemma NewKey(inputs: seq<Source>, m: Round, observed: set<nat>, head: Version, i: nat)
    requires Progress(inputs, m.sources, m.kept, observed)
    requires i < |m.sources| && head in m.sources[i].rest && DistinctIn(m.kept)
    requires m.kept != [] ==> head.key != m.kept[|m.kept| - 1].key
    ensures DistinctIn(m.kept + [head])
  {
    hide Less;
    if m.kept != [] {
      TotalOrder();
      var last := m.kept[|m.kept| - 1];
      assert last in m.kept && Before(last, head);
      forall j | 0 <= j < |m.kept| ensures m.kept[j].key != head.key {
        assert j < |m.kept| - 1 ==> Before(m.kept[j], last);
      }
    }
  }

  lemma NextOne(inputs: seq<Source>, m: Round, env: Env)
    requires WellFormed(inputs) && SeesAll(inputs, env) && RoundOne(inputs, m, env) && Least(m.sources).Some?
    ensures RoundOne(inputs, Next(m, env), env)
  {
    hide Observed, WellFormed, Least, HeapGreater, RunOf, DistinctIn, Progress;
    NextOK(inputs, m, env);
    var i, q := Least(m.sources).value, Asked(m, env);
    var head := m.sources[i].rest[0];
    HeadIsInput(inputs, m.sources, m.kept, Observed(env, m.queries), i);
    if !Droppable(q, head) {
      NewKey(inputs, m, Observed(env, m.queries), head, i);
    }
  }

  lemma HeadIsInput(inputs: seq<Source>, sources: seq<Source>, kept: seq<Version>, observed: set<nat>, i: nat)
    requires Progress(inputs, sources, kept, observed) && i < |sources| && sources[i].rest != []
    ensures sources[i].rest[0] in InputSet(inputs) && forall w | w in kept :: w in InputSet(inputs)
  {
    assert sources[i].rest[0] in inputs[i].rest;
  }

  lemma {:induction false} DrainOne(inputs: seq<Source>, m: Round, env: Env)
    requires WellFormed(inputs) && SeesAll(inputs, env) && RoundOne(inputs, m, env)
    ensures DistinctIn(Drain(m, env).kept)
    decreases Pending(m.sources)
  {
    if Least(m.sources).Some? {
      hide RoundOne, WellFormed, Next, Least, SeesAll, DistinctIn;
      NextOne(inputs, m, env);
      NextIsLess(m, env);
      DrainOne(inputs, Next(m, env), env);
    }
  }

  /** Such a merge keeps one version of every key. */
  lemma OnePerKey(inputs: seq<Source>, env: Env)
    requires WellFormed(inputs) && SeesAll(inputs, env)
    ensures forall v, w | v in Kept(inputs, env) && w in Kept(inputs, env) && v.key == w.key :: v == w
  {
    hide Drain, RoundOK, WellFormed, HeapGreater, Observed;
    Started(inputs, env);
    DrainOne(inputs, Begin(inputs, env), env);
    var kept := Kept(inputs, env);
    forall v, w | v in kept && w in kept && v.key == w.key ensures v == w {
      var i, j :| 0 <= i < |kept| && kept[i] == v && 0 <= j < |kept| && kept[j] == w;
      assert i == j;
    }
  }

  /** Some key has versions on both sides of the snapshot. */
  ghost predicate Straddles(inputs: set<Version>, s: nat) {
    exists v, w :: v in inputs && w in inputs && v.key == w.key && v.seqno <= s < w.seqno
  }

  /** Such a merge leaves every lookup at the snapshot as it was exactly when no key of its
      inputs has versions on both sides of it. */
  lemma SparedExactly(inputs: seq<Source>, env: Env, s: nat)
    requires WellFormed(inputs) && SeesAll(inputs, env)
    ensures (forall k, v :: IsNewest(v, InputSet(inputs), k, s) <==> IsNewest(v, Elems(Kept(inputs, env)), k, s))
            <==> !Straddles(InputSet(inputs), s)
  {
    hide InputSet, Kept, WellFormed, SeesAll, Observed, Queries;
    KeptMerges(inputs, env);
    OnePerKey(inputs, env);
    var all, kept := InputSet(inputs), Kept(inputs, env);
    var observed := Observed(env, Queries(inputs, env));
    if Straddles(all, s) {
      var v, w :| v in all && w in all && v.key == w.key && v.seqno <= s < w.seqno;
      assert Visible(v, v.key, s);
      var u := NewestOf(all, v.key, s);
      var x := KeptAbove(all, kept, observed, w);
      assert u in kept ==> u == x;
      assert !IsNewest(u, Elems(kept), v.key, s);
    } else {
      forall k, v ensures IsNewest(v, all, k, s) <==> IsNewest(v, Elems(kept), k, s) {
        SparedLookup(all, kept, observed, k, s, v);
      }
    }
  }

  /** A kept version of the key that is not older. */
  lemma KeptAbove(inputs: set<Version>, kept: seq<Version>, observed: set<nat>, w: Version) returns (x: Version)
    requires Merges(inputs, kept, observed) && w in inputs
    ensures x in kept && x in inputs && x.key == w.key && x.seqno >= w.seqno
  {
    x := w;
    if w !in kept {
      var y, o :| y in kept && o in observed && y.key == w.key && w.seqno < y.seqno <= o;
      x := y;
    }
  }

  lemma SparedLookup(inputs: set<Version>, kept: seq<Version>, observed: set<nat>, k: Bytes, s: nat, v: Version)
    requires Merges(inputs, kept, observed) && !Straddles(inputs, s)
    ensures IsNewest(v, inputs, k, s) <==> IsNewest(v, Elems(kept), k, s)
  {
    assert forall u | u in kept :: u in inputs && u in Elems(kept);
    forall u | u in inputs && Visible(u, k, s)
      ensures exists x :: x in kept && Visible(x, k, s) && x.seqno >= u.seqno && (x.seqno == u.seqno ==> u in kept)
    {
      var x := KeptAbove(inputs, kept, observed, u);
      assert x.seqno <= s;
      if u !in kept {
        var y, o :| y in kept && o in observed && y.key == u.key && u.seqno < y.seqno <= o;
        assert y.seqno <= s;
        assert Visible(y, k, s);
      }
    }
  }

  lemma KeptNewer(a: Version, b: Version, first: nat, second: nat, env: Env)
    requires a.key == b.key && b.seqno < a.seqno <= env.oldest && a.key != [] && !env.full(1)
    ensures var inputs := [Source(first, [a]), Source(second, [b])];
            Kept(inputs, env) == [a] && Pieces([a], env.full) == [[a]]
  {
    hide Pieces, Drain;
    var s0, s1, s2 := [Source(first, [a]), Source(second, [b])], [Source(first, []), Source(second, [b])],
                      [Source(first, []), Source(second, [])];
    assert s0[..1] == [Source(first, [a])] && s1[..1] == [Source(first, [])] == s2[..1];
    assert [Source(first, [a])][..0] == [] && [Source(first, [])][..0] == [];
    assert Least([Source(first, [a])]) == Some(0) && Least([Source(first, [])]) == None;
    assert Least(s0) == Some(0) && Least(s1) == Some(1) && Least(s2) == None;
    var m0 := Begin(s0, env);
    var m1 := Next(m0, env);
    assert m1.sources == s1 && m1.kept == [a] && m1.lastKey == a.key && m1.lastSeq == a.seqno;
    var m2 := Next(m1, env);
    assert [b][1..] == [] && RunOf([b], a.key) == 1 && Droppable(Asked(m1, env), b);
    assert m2.sources == s2 && m2.kept == [a];
    Step(m0, env);
    Step(m1, env);
    Ended(m2, env);
    OnePiece(a, env.full);
  }

  lemma OnePiece(a: Version, full: nat -> bool)
    ensures Pieces([a], full) == [[a]]
  {
    assert [a][..0] == [];
  }

  /** Two versions of one key are merged without a cut while the oldest snapshot observed
      is at or above both: a snapshot between them finds nothing afterwards. */
  method SnapshotLost(newer: Version, older: Version, s: nat) returns (r: Option<seq<seq<Version>>>)
    requires newer.key == older.key != [] && older.seqno <= s < newer.seqno
    ensures r == Some([[newer]]) && FirstVisible(r.value[0], older.key, s) == None && Visible(older, older.key, s)
  {
    var oldest := newer.seqno;
    var env := Env(oldest, n => oldest, n => false, n => true, n => true);
    var inputs := [Source(1, [newer]), Source(2, [older])];
    r := DoCompaction(inputs, env);
    KeptNewer(newer, older, 1, 2, env);
  }

  /** Neighbouring outputs may only share a key if the size cut fell inside it. */
  ghost predicate CutBetweenKeys(outs: seq<seq<Version>>)
    requires AllNonEmpty(outs)
  {
    forall i | 0 <= i < |outs| - 1 :: outs[i][|outs[i]| - 1].key != outs[i + 1][0].key
  }

  ghost predicate KeyDisjoint(outs: seq<seq<Version>>) {
    forall i, j, a, b | 0 <= i < j < |outs| && a in outs[i] && b in outs[j] :: Less(a.key, b.key)
  }

  lemma SortedSplit(a: seq<Version>, b: seq<Version>)
    requires Sorted(a + b)
    ensures Sorted(a) && Sorted(b) && forall x, y | x in a && y in b :: Before(x, y)
  {
    hide Before;
    var all := a + b;
    assert forall i | 0 <= i < |a| :: a[i] == all[i];
    assert forall i | 0 <= i < |b| :: b[i] == all[|a| + i];
  }

  lemma {:induction false} FlattenElems(outs: seq<seq<Version>>)
    ensures forall v :: v in Flatten(outs) <==> exists i | 0 <= i < |outs| :: v in outs[i]
  {
    if outs != [] {
      var n := |outs| - 1;
      FlattenElems(outs[..n]);
      forall v ensures v in Flatten(outs) <==> exists i | 0 <= i < |outs| :: v in outs[i] {
        assert v in Flatten(outs) <==> v in Flatten(outs[..n]) || v in outs[n];
        if v in Flatten(outs[..n]) {
          var i :| 0 <= i < n && v in outs[..n][i];
          assert v in outs[i];
        } else if i :| 0 <= i < |outs| && v in outs[i] {
          assert i < n ==> v in outs[..n][i];
        }
      }
    }
  }

  lemma {:induction false} FlattenSorted(outs: seq<seq<Version>>)
    requires Sorted(Flatten(outs))
    ensures forall i | 0 <= i < |outs| :: Sorted(outs[i])
    ensures forall i, j, a, b | 0 <= i < j < |outs| && a in outs[i] && b in outs[j] :: Before(a, b)
    ensures Elems(Flatten(outs)) == set i, v | 0 <= i < |outs| && v in outs[i] :: v
  {
    hide Before, Sorted;
    FlattenElems(outs);
    if outs != [] {
      var n := |outs| - 1;
      var init, last := outs[..n], outs[n];
      assert Flatten(outs) == Flatten(init) + last;
      hide Flatten;
      SortedSplit(Flatten(init), last);
      FlattenSorted(init);
      FlattenElems(init);
      forall i, j, a, b | 0 <= i < j < |outs| && a in outs[i] && b in outs[j] ensures Before(a, b) {
        assert outs[i] == init[i] && a in Flatten(init);
        assert j < n ==> outs[j] == init[j];
      }
      forall i | 0 <= i < |outs| ensures Sorted(outs[i]) {
        assert i < n ==> outs[i] == init[i];
      }
    }
  }

  /** The inputs and the environment put no size cut between two versions of one key:
      wherever an output is full, the next entry has another key. */
  ghost predicate CutsApart(kept: seq<Version>, full: nat -> bool) {
    forall n | 0 < n < |kept| && full(n) :: kept[n - 1].key != kept[n].key
  }

  lemma {:induction false} PiecesCut(kept: seq<Version>, full: nat -> bool)
    ensures AllNonEmpty(Pieces(kept, full)) && (CutBetweenKeys(Pieces(kept, full)) <==> CutsApart(kept, full))
    ensures kept != [] ==> var p := Pieces(kept, full); p[|p| - 1][|p[|p| - 1]| - 1] == kept[|kept| - 1]
  {
    PiecesAre(kept, full);
    if kept != [] {
      var n := |kept| - 1;
      var front, p := Pieces(kept[..n], full), Pieces(kept, full);
      PiecesCut(kept[..n], full);
      CutsNext(kept, full);
      if n == 0 || full(n) {
        CutNew(front, [kept[n]]);
      } else {
        CutLonger(front, kept[n]);
      }
    }
  }

  lemma CutsNext(kept: seq<Version>, full: nat -> bool)
    requires kept != []
    ensures var n := |kept| - 1;
            CutsApart(kept, full) <==> CutsApart(kept[..n], full) && (n > 0 && full(n) ==> kept[n - 1].key != kept[n].key)
  {
    var n := |kept| - 1;
    var front := kept[..n];
    assert forall i | 0 <= i < n :: front[i] == kept[i];
  }

  lemma CutNew(front: seq<seq<Version>>, last: seq<Version>)
    requires AllNonEmpty(front) && last != []
    ensures AllNonEmpty(front + [last])
    ensures CutBetweenKeys(front + [last]) <==>
            CutBetweenKeys(front) && (front != [] ==> front[|front| - 1][|front[|front| - 1]| - 1].key != last[0].key)
  {
    var p, k := front + [last], |front|;
    assert forall i | 0 <= i < k :: p[i] == front[i];
    assert p[k] == last;
    if CutBetweenKeys(p) {
      forall i | 0 <= i < k - 1 ensures front[i][|front[i]| - 1].key != front[i + 1][0].key {
        assert p[i][|p[i]| - 1].key != p[i + 1][0].key;
      }
      if front != [] {
        assert p[k - 1][|p[k - 1]| - 1].key != p[k - 1 + 1][0].key;
      }
    }
  }

  lemma CutLonger(front: seq<seq<Version>>, v: Version)
    requires AllNonEmpty(front) && front != []
    ensures var k := |front| - 1;
            var p := front[..k] + [front[k] + [v]];
            AllNonEmpty(p) && (CutBetweenKeys(p) <==> CutBetweenKeys(front))
  {
    var k := |front| - 1;
    var p := front[..k] + [front[k] + [v]];
    assert forall i | 0 <= i < k :: p[i] == front[i];
    assert p[k][0] == front[k][0];
    if CutBetweenKeys(p) {
      forall i | 0 <= i < |front| - 1 ensures front[i][|front[i]| - 1].key != front[i + 1][0].key {
        assert p[i][|p[i]| - 1].key != p[i + 1][0].key;
      }
    }
  }

  /** Sorted outputs occupy disjoint key ranges exactly when no cut fell between two
      versions of one key. */
  lemma {:induction false} DisjointIffCut(outs: seq<seq<Version>>)
    requires AllNonEmpty(outs) && Sorted(Flatten(outs))
    ensures KeyDisjoint(outs) <==> CutBetweenKeys(outs)
  {
    if CutBetweenKeys(outs) {
      hide Flatten, Less, Sorted, AllNonEmpty, CutBetweenKeys;
      forall i, j, a, b | 0 <= i < j < |outs| && a in outs[i] && b in outs[j]
        ensures Less(a.key, b.key)
      {
        AcrossCut(outs, i, j, a, b);
      }
    } else {
      hide Flatten, Less, Sorted;
      SharedKey(outs);
    }
  }

  lemma SharedKey(outs: seq<seq<Version>>)
    requires AllNonEmpty(outs) && !CutBetweenKeys(outs)
    ensures !KeyDisjoint(outs)
  {
    hide Less;
    var i :| 0 <= i < |outs| - 1 && outs[i][|outs[i]| - 1].key == outs[i + 1][0].key;
    var a, b := outs[i][|outs[i]| - 1], outs[i + 1][0];
    assert a in outs[i] && b in outs[i + 1];
    LessIrreflexive(b.key);
  }

  /** The outputs of a merge occupy disjoint key ranges exactly when the inputs and the
      environment put no size cut inside a key. */
  lemma OutputsDisjoint(inputs: seq<Source>, env: Env)
    requires WellFormed(inputs)
    ensures KeyDisjoint(Pieces(Kept(inputs, env), env.full)) <==> CutsApart(Kept(inputs, env), env.full)
  {
    hide Pieces, Kept, WellFormed, KeyDisjoint, CutsApart, CutBetweenKeys;
    var kept := Kept(inputs, env);
    KeptMerges(inputs, env);
    PiecesAre(kept, env.full);
    PiecesCut(kept, env.full);
    DisjointIffCut(Pieces(kept, env.full));
  }

  lemma {:induction false} AcrossCut(outs: seq<seq<Version>>, i: nat, j: nat, a: Version, b: Version)
    requires AllNonEmpty(outs) && Sorted(Flatten(outs)) && CutBetweenKeys(outs)
    requires i < j < |outs| && a in outs[i] && b in outs[j]
    ensures Less(a.key, b.key)
  {
    hide Flatten, Less;
    FlattenSorted(outs);
    var last, first := outs[i][|outs[i]| - 1], outs[i + 1][0];
    assert last in outs[i] && first in outs[i + 1];
    assert Before(last, first) && last.key != first.key;
    assert a == last || Before(a, last);
    assert b == first || Before(first, b);
    Spread(a, last, first, b);
  }

  lemma Spread(a: Version, last: Version, first: Version, b: Version)
    requires a == last || Before(a, last)
    requires Less(last.key, first.key)
    requires b == first || Before(first, b)
    ensures Less(a.key, b.key)
  {
    TotalOrder();
  }

  /** A cut inside a key happens: two files with a version each of one key, and an output
      that is full after one entry. Rotation forgets the last key, so the older version
      is written at the head of the next file although nobody can read it. */
  method CutInsideKey() returns (r: Option<seq<seq<Version>>>)
    ensures r == Some([[Version([1], 2, Value, [])], [Version([1], 1, Value, [])]])
    ensures !KeyDisjoint(r.value)
  {
    var a, b := Version([1], 2, Value, []), Version([1], 1, Value, []);
    var inputs := [Source(1, [a]), Source(2, [b])];
    var env := Env(10, n => 10, n => n == 1, n => true, n => true);
    r := DoCompaction(inputs, env);
    KeptPair(a, b, env);
    LessIrreflexive(a.key);
    assert r.value[0][0] in r.value[0] && r.value[1][0] in r.value[1];
  }

  lemma KeptPair(a: Version, b: Version, env: Env)
    requires a.key == b.key && b.seqno < a.seqno && a.key != []
    requires env.full(1) && !env.full(2)
    ensures var inputs := [Source(1, [a]), Source(2, [b])];
            Kept(inputs, env) == [a, b] && Pieces([a, b], env.full) == [[a], [b]]
  {
    hide Pieces, Drain;
    var s0, s1, s2 := [Source(1, [a]), Source(2, [b])], [Source(1, []), Source(2, [b])], [Source(1, []), Source(2, [])];
    assert s0[..1] == [Source(1, [a])] && s1[..1] == [Source(1, [])] == s2[..1];
    assert [Source(1, [a])][..0] == [] && [Source(1, [])][..0] == [];
    assert Least([Source(1, [a])]) == Some(0) && Least([Source(1, [])]) == None;
    assert Least(s0) == Some(0) && Least(s1) == Some(1) && Least(s2) == None;
    var m0 := Begin(s0, env);
    var m1 := Next(m0, env);
    assert m1.sources == s1 && m1.kept == [a] && m1.lastKey == [];
    var m2 := Next(m1, env);
    assert [b][1..] == [] && !Droppable(Asked(m1, env), b);
    assert m2.sources == s2 && m2.kept == [a, b];
    Step(m0, env);
    Step(m1, env);
    Ended(m2, env);
    TwoPieces(a, b, env.full);
  }

  /** Two versions of a key behind another key, cut between them. */
  lemma KeptTriple(j: Version, a: Version, b: Version, env: Env)
    requires a.key == b.key && b.seqno < a.seqno && a.key != [] && Less(j.key, a.key)
    requires !env.full(1) && env.full(2)
    ensures var inputs := [Source(1, [j, a]), Source(2, [b])];
            Kept(inputs, env) == [j, a, b] && Pieces([j, a, b], env.full) == [[j, a], [b]]
  {
    hide Pieces, Drain;
    var s0, s1, s2, s3 := [Source(1, [j, a]), Source(2, [b])], [Source(1, [a]), Source(2, [b])],
                          [Source(1, []), Source(2, [b])], [Source(1, []), Source(2, [])];
    LessIrreflexive(a.key);
    LeastPair(s0);
    LeastPair(s1);
    LeastPair(s2);
    LeastPair(s3);
    assert !HeapGreater(s0[0], s0[1]) by {
      TotalOrder();
    }
    assert [j, a][1..] == [a] && [a][1..] == [] && [b][1..] == [];
    var m0 := Begin(s0, env);
    var m1 := Next(m0, env);
    assert m1.sources == s1 && m1.kept == [j] && m1.lastKey == j.key;
    var m2 := Next(m1, env);
    assert !Droppable(Asked(m1, env), a);
    assert m2.sources == s2 && m2.kept == [j, a] && m2.lastKey == [];
    var m3 := Next(m2, env);
    assert !Droppable(Asked(m2, env), b);
    assert m3.sources == s3 && m3.kept == [j, a, b];
    Step(m0, env);
    Step(m1, env);
    Step(m2, env);
    Ended(m3, env);
    ThreePieces(j, a, b, env.full);
  }

  lemma {:induction false} LeastPair(s: seq<Source>)
    requires |s| == 2
    ensures Least(s) == if s[1].rest != [] && (s[0].rest == [] || HeapGreater(s[0], s[1])) then Some(1)
                        else if s[0].rest != [] then Some(0) else None
  {
    assert s[..1] == [s[0]] && [s[0]][..0] == [];
    assert Least([s[0]]) == if s[0].rest != [] then Some(0) else None;
  }

  lemma ThreePieces(a: Version, b: Version, c: Version, full: nat -> bool)
    requires !full(1) && full(2)
    ensures Pieces([a, b, c], full) == [[a, b], [c]]
  {
    assert [a, b, c][..2] == [a, b] && [a, b][..1] == [a] && [a][..0] == [];
    assert Pieces([a], full) == [[a]];
    assert [a] + [b] == [a, b];
    assert [[a]][..0] + [[a] + [b]] == [[a, b]];
    assert Pieces([a, b], full) == [[a, b]];
  }

  lemma {:induction false} Ended(m: Round, env: Env)
    requires Least(m.sources).None?
    ensures Drain(m, env) == m
  {
  }

  lemma TwoPieces(a: Version, b: Version, full: nat -> bool)
    requires full(1)
    ensures Pieces([a, b], full) == [[a], [b]]
  {
    assert [a, b][..1] == [a] && [a][..0] == [];
    assert Pieces([a], full) == [[a]];
  }
}
