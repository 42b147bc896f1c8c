/** Group commit of the write-ahead log: writers append under the write lock, one of
    them at a time leads an fsync that holds no lock, rotations switch the file in
    between, and the file of a flushed memtable is closed. */
module GroupCommit {
  /** A log file of one generation: how many records it holds and how many of them
      are known to have reached the disk. */
  datatype File = File(len: nat, durable: nat, closed: bool)

  datatype Pc =
    | Idle
    | Waiting(file: nat, idx: nat)
    | Leading(file: nat, idx: nat)
    | Syncing(file: nat, idx: nat, target: nat, covered: nat)
    | Synced(file: nat, idx: nat, target: nat, covered: nat)
    | Done(file: nat, idx: nat)   // told OK: no failure of an fsync is ever reported

  datatype State = State(
    files: seq<File>,        // by generation; the last one is being written
    written: nat, synced: nat, inflight: nat, syncing: bool, requested: bool,
    imm: int,                // generation of imm_wal_, or -1
    hasImm: bool,
    pcs: seq<Pc>,
    unsafe: bool)            // some round or rotation ignored a failed fsync

  function Gen(s: State): int {
    |s.files| - 1
  }

  datatype Step =
    | Append(t: nat, sync: bool)
    | AlreadySynced(t: nat)
    | Lead(t: nat)
    | Capture(t: nat)
    | Fsync(t: nat, ok: bool, reached: nat)
    | Finish(t: nat)
    | Rotate(openOk: bool, syncOk: bool)
    | CloseFlushed

  predicate Enabled(s: State, a: Step) {
    |s.files| > 0 &&
    match a
    case Append(t, _) => t < |s.pcs| && s.pcs[t] == Idle
    case AlreadySynced(t) => t < |s.pcs| && s.pcs[t].Waiting? && s.synced >= s.pcs[t].idx
    case Lead(t) => t < |s.pcs| && s.pcs[t].Waiting? && s.synced < s.pcs[t].idx && !s.syncing
    case Capture(t) => t < |s.pcs| && s.pcs[t].Leading?
    case Fsync(t, ok, reached) =>
      && t < |s.pcs| && s.pcs[t].Syncing? && s.pcs[t].target < |s.files|
      && s.pcs[t].covered <= reached <= s.files[s.pcs[t].target].len
    case Finish(t) => t < |s.pcs| && s.pcs[t].Synced?
    case Rotate(_, _) => !s.hasImm
    case CloseFlushed => s.hasImm && s.inflight == 0
  }

  function Max(a: nat, b: nat): nat {
    if a > b then a else b
  }

  function Apply(s: State, a: Step): State
    requires Enabled(s, a)
  {
    var g := |s.files| - 1;
    match a
    case Append(t, sync) =>
      s.(files := s.files[g := s.files[g].(len := s.files[g].len + 1)],
         written := s.written + 1, requested := s.requested || sync,
         pcs := if sync then s.pcs[t := Waiting(g, s.written + 1)] else s.pcs)
    case AlreadySynced(t) =>
      s.(pcs := s.pcs[t := Done(s.pcs[t].file, s.pcs[t].idx)])
    case Lead(t) =>
      s.(syncing := true, pcs := s.pcs[t := Leading(s.pcs[t].file, s.pcs[t].idx)])
    case Capture(t) =>
      s.(inflight := s.inflight + 1, pcs := s.pcs[t := Syncing(s.pcs[t].file, s.pcs[t].idx, g, s.written)])
    case Fsync(t, ok, reached) =>
      var p := s.pcs[t];
      var f := s.files[p.target];
      s.(files := if ok then s.files[p.target := f.(durable := Max(f.durable, reached))] else s.files,
         pcs := s.pcs[t := Synced(p.file, p.idx, p.target, p.covered)], unsafe := s.unsafe || !ok)
    case Finish(t) =>
      var p := s.pcs[t];
      s.(inflight := if s.inflight > 0 then s.inflight - 1 else 0, syncing := false,
         synced := if p.target == g && p.covered > s.synced then p.covered else s.synced,
         pcs := s.pcs[t := Done(p.file, p.idx)])
    case Rotate(openOk, syncOk) =>
      if !openOk then s.(hasImm := true)
      else
        var f := s.files[g];
        var out := if s.requested && syncOk then f.(durable := f.len) else f;
        s.(files := s.files[g := out] + [File(0, 0, false)], written := 0, synced := 0,
           imm := g, hasImm := true, unsafe := s.unsafe || (s.requested && !syncOk))
    case CloseFlushed =>
      s.(files := if 0 <= s.imm < |s.files| then s.files[s.imm := s.files[s.imm].(closed := true)] else s.files,
         imm := -1, hasImm := false)
  }

  /** A record survives: its bytes reached the disk, or its memtable was flushed
      before the log was closed. */
  predicate Durable(s: State, file: nat, idx: nat) {
    file < |s.files| && (s.files[file].durable >= idx || s.files[file].closed)
  }

  // ---------------------------------------------------------------- invariants

  predicate Leads(p: Pc) {
    p.Leading? || p.Syncing? || p.Synced?
  }

  ghost predicate FilesOK(s: State) {
    && |s.files| > 0 && s.written == s.files[Gen(s)].len && s.synced <= s.files[Gen(s)].len
    && !s.files[Gen(s)].closed && -1 <= s.imm < Gen(s) && (s.imm >= 0 ==> s.hasImm)
    && (forall f | 0 <= f < |s.files| :: s.files[f].durable <= s.files[f].len)
    && (forall f | 0 <= f < Gen(s) && f != s.imm :: s.files[f].closed)
    && (s.imm >= 0 ==> !s.files[s.imm].closed)
  }

  /** At most one thread leads, and the in-flight count is its fsync. */
  ghost predicate LeaderOK(s: State) {
    && (forall t, u | 0 <= t < |s.pcs| && 0 <= u < |s.pcs| && Leads(s.pcs[t]) && Leads(s.pcs[u]) :: t == u)
    && (s.syncing <==> exists t | 0 <= t < |s.pcs| :: Leads(s.pcs[t]))
    && (forall t | 0 <= t < |s.pcs| && (s.pcs[t].Syncing? || s.pcs[t].Synced?) ::
          s.inflight == 1 && (s.pcs[t].target == Gen(s) || s.pcs[t].target == s.imm))
    && ((forall t | 0 <= t < |s.pcs| :: !s.pcs[t].Syncing? && !s.pcs[t].Synced?) ==> s.inflight == 0)
  }

  /** What is known of one writer's record. */
  ghost predicate RecordOK(s: State, p: Pc) {
    p.Idle? ||
    (&& s.requested && 0 < p.idx && p.file < |s.files| && p.idx <= s.files[p.file].len
     && (p.Syncing? || p.Synced? ==>
           && 0 <= p.target < |s.files| && p.covered <= s.files[p.target].len && p.file <= p.target
           && (p.file == p.target ==> p.idx <= p.covered)))
  }

  ghost predicate Inv(s: State) {
    FilesOK(s) && LeaderOK(s) && forall t | 0 <= t < |s.pcs| :: RecordOK(s, s.pcs[t])
  }

  lemma LeaderKept(s: State, a: Step)
    requires Inv(s) && Enabled(s, a)
    ensures LeaderOK(Apply(s, a))
  {
    hide RecordOK;
    if a.Rotate? || a.CloseFlushed? {
      LeaderStays(s, a);
    } else if a.Lead? {
      NewLeader(s, a);
    } else if a.Finish? {
      LeaderLeaves(s, a);
    } else {
      LeaderMoves(s, a);
    }
  }

  lemma LeaderStays(s: State, a: Step)
    requires FilesOK(s) && LeaderOK(s) && Enabled(s, a) && (a.Rotate? || a.CloseFlushed?)
    ensures LeaderOK(Apply(s, a))
  {
    assert Apply(s, a).pcs == s.pcs;
  }

  lemma NewLeader(s: State, a: Step)
    requires LeaderOK(s) && Enabled(s, a) && a.Lead?
    ensures LeaderOK(Apply(s, a))
  {
    var s' := Apply(s, a);
    assert forall u | 0 <= u < |s.pcs| && u != a.t :: s'.pcs[u] == s.pcs[u];
    assert forall u | 0 <= u < |s.pcs| :: !Leads(s.pcs[u]);
    assert Leads(s'.pcs[a.t]);
  }

  lemma LeaderLeaves(s: State, a: Step)
    requires LeaderOK(s) && Enabled(s, a) && a.Finish?
    ensures LeaderOK(Apply(s, a))
  {
    var s' := Apply(s, a);
    assert forall u | 0 <= u < |s.pcs| && u != a.t :: s'.pcs[u] == s.pcs[u];
    assert Leads(s.pcs[a.t]);
    assert forall u | 0 <= u < |s.pcs| && u != a.t :: !Leads(s.pcs[u]);
  }

  lemma LeaderMoves(s: State, a: Step)
    requires LeaderOK(s) && Enabled(s, a) && !a.Rotate? && !a.CloseFlushed? && !a.Lead? && !a.Finish?
    ensures LeaderOK(Apply(s, a))
  {
    var s' := Apply(s, a);
    assert forall u | 0 <= u < |s.pcs| && u != a.t :: s'.pcs[u] == s.pcs[u];
    assert Leads(s'.pcs[a.t]) <==> Leads(s.pcs[a.t]);
    assert Gen(s') == Gen(s) && s'.imm == s.imm;
    if s.syncing {
      var l :| 0 <= l < |s.pcs| && Leads(s.pcs[l]);
      assert Leads(s'.pcs[l]);
    }
    if a.Capture? {
      assert Leads(s.pcs[a.t]);
      assert forall u | 0 <= u < |s.pcs| && u != a.t :: !Leads(s.pcs[u]);
    }
  }

  lemma FilesKept(s: State, a: Step)
    requires Inv(s) && Enabled(s, a)
    ensures FilesOK(Apply(s, a))
  {
    hide LeaderOK;
    assert FilesOK(s);
    if a.Finish? {
      assert RecordOK(s, s.pcs[a.t]);
      hide RecordOK;
    } else {
      hide RecordOK;
      if a.Rotate? {
        RotatedFiles(s, a);
      }
    }
  }

  lemma RotatedFiles(s: State, a: Step)
    requires FilesOK(s) && Enabled(s, a) && a.Rotate?
    ensures FilesOK(Apply(s, a))
  {
    var s', g := Apply(s, a), Gen(s);
    if a.openOk {
      assert forall f | 0 <= f < g :: s'.files[f] == s.files[f];
      assert s'.files[g + 1] == File(0, 0, false);
    }
  }

  /** Logs only grow, and what is durable stays so. */
  ghost predicate Grown(s: State, s': State) {
    && |s'.files| == |s.files| && (s.requested ==> s'.requested)
    && forall f | 0 <= f < |s.files| ::
         && s.files[f].len <= s'.files[f].len && s.files[f].durable <= s'.files[f].durable
         && (s.files[f].closed ==> s'.files[f].closed)
  }

  lemma StillOK(s: State, s': State, p: Pc)
    requires Grown(s, s') && RecordOK(s, p)
    ensures RecordOK(s', p)
  {
  }

  lemma RotatedRecord(s: State, a: Step, p: Pc)
    requires FilesOK(s) && RecordOK(s, p) && Enabled(s, a) && a.Rotate? && a.openOk
    ensures RecordOK(Apply(s, a), p)
  {
    var s', g := Apply(s, a), Gen(s);
    assert forall f | 0 <= f < g :: s'.files[f] == s.files[f];
    assert s'.files[g].len == s.files[g].len && s'.files[g].durable >= s.files[g].durable;
  }

  /** The thread that moved. */
  lemma OwnRecord(s: State, a: Step)
    requires FilesOK(s) && Enabled(s, a) && !a.Rotate? && !a.CloseFlushed?
    requires RecordOK(s, s.pcs[a.t])
    ensures RecordOK(Apply(s, a), Apply(s, a).pcs[a.t])
  {
    match a {
      case Append(t, sync) => OwnAppend(s, t, sync);
      case Capture(t) => OwnCapture(s, t);
      case Fsync(t, ok, reached) => OwnFsync(s, t, ok, reached);
      case _ => OwnOther(s, a);
    }
  }

  lemma OwnAppend(s: State, t: nat, sync: bool)
    requires FilesOK(s) && Enabled(s, Append(t, sync)) && RecordOK(s, s.pcs[t])
    ensures RecordOK(Apply(s, Append(t, sync)), Apply(s, Append(t, sync)).pcs[t])
  {
  }

  lemma OwnCapture(s: State, t: nat)
    requires FilesOK(s) && Enabled(s, Capture(t)) && RecordOK(s, s.pcs[t])
    ensures RecordOK(Apply(s, Capture(t)), Apply(s, Capture(t)).pcs[t])
  {
  }

  lemma OwnFsync(s: State, t: nat, ok: bool, reached: nat)
    requires FilesOK(s) && Enabled(s, Fsync(t, ok, reached)) && RecordOK(s, s.pcs[t])
    ensures RecordOK(Apply(s, Fsync(t, ok, reached)), Apply(s, Fsync(t, ok, reached)).pcs[t])
  {
    var s', p := Apply(s, Fsync(t, ok, reached)), s.pcs[t];
    assert |s'.files| == |s.files| && s'.files[p.file].durable >= s.files[p.file].durable;
    assert s'.files[p.file].len == s.files[p.file].len && s'.files[p.file].closed == s.files[p.file].closed;
  }

  lemma OwnOther(s: State, a: Step)
    requires FilesOK(s) && Enabled(s, a) && (a.AlreadySynced? || a.Lead? || a.Finish?)
    requires RecordOK(s, s.pcs[a.t])
    ensures RecordOK(Apply(s, a), Apply(s, a).pcs[a.t])
  {
    assert Apply(s, a).files == s.files;
  }

  lemma RecordKept(s: State, a: Step, t: nat)
    requires Inv(s) && Enabled(s, a) && t < |s.pcs|
    ensures RecordOK(Apply(s, a), Apply(s, a).pcs[t])
  {
    hide LeaderOK, RecordOK;
    var s' := Apply(s, a);
    if a.Rotate? && a.openOk {
      RotatedRecord(s, a, s.pcs[t]);
    } else if a.Rotate? || a.CloseFlushed? || t != a.t {
      assert Grown(s, s');
      StillOK(s, s', s.pcs[t]);
    } else {
      OwnRecord(s, a);
    }
  }

  lemma StepKeepsInv(s: State, a: Step)
    requires Inv(s) && Enabled(s, a)
    ensures Inv(Apply(s, a))
  {
    FilesKept(s, a);
    LeaderKept(s, a);
    forall t | 0 <= t < |Apply(s, a).pcs| ensures RecordOK(Apply(s, a), Apply(s, a).pcs[t]) {
      RecordKept(s, a, t);
    }
  }

  function Start(n: nat): State {
    State([File(0, 0, false)], 0, 0, 0, false, false, -1, false, seq(n, _ => Idle), false)
  }

  ghost predicate Reachable(s: State, steps: seq<Step>, n: nat)
    decreases |steps|
  {
    if steps == [] then s == Start(n)
    else
      var k := |steps| - 1;
      exists s0 :: Reachable(s0, steps[..k], n) && Enabled(s0, steps[k]) && s == Apply(s0, steps[k])
  }

  lemma {:induction false} Invariant(s: State, steps: seq<Step>, n: nat)
    requires Reachable(s, steps, n)
    ensures Inv(s)
    decreases |steps|
  {
    if steps != [] {
      var k := |steps| - 1;
      var s0 :| Reachable(s0, steps[..k], n) && Enabled(s0, steps[k]) && s == Apply(s0, steps[k]);
      Invariant(s0, steps[..k], n);
      StepKeepsInv(s0, steps[k]);
    }
  }

  // ---------------------------------------------------------------- exposed records

  /** The position a waiting writer compares with covers it, or is about to. */
  ghost predicate Announced(s: State, idx: nat) {
    s.synced >= idx || exists u | 0 <= u < |s.pcs| :: s.pcs[u].Synced? && s.pcs[u].target == Gen(s) && s.pcs[u].covered >= idx
  }

  /** The round in flight is on the file of the record and covers it. */
  ghost predicate Rescued(s: State, file: nat, idx: nat) {
    s.synced < idx && exists u | 0 <= u < |s.pcs| :: s.pcs[u].Syncing? && s.pcs[u].target == file && s.pcs[u].covered >= idx
  }

  /** A record that is not on disk, of a writer that nothing makes wait for it any more:
      its round is over or is on another file, the position it compares with passed it,
      or its file was rotated out and no round on that file covers it. */
  ghost predicate Doomed(s: State, p: Pc) {
    !p.Idle? && !Durable(s, p.file, p.idx) &&
    match p
    case Waiting(file, idx) => if file == Gen(s) then Announced(s, idx) else !Rescued(s, file, idx)
    case Leading(file, _) => file < Gen(s)
    case Syncing(file, _, target, _) => target != file
    case _ => true
  }

  ghost predicate Exposed(s: State) {
    exists t | 0 <= t < |s.pcs| :: Doomed(s, s.pcs[t])
  }

  ghost predicate AcksDurable(s: State) {
    forall t | 0 <= t < |s.pcs| && s.pcs[t].Done? :: Durable(s, s.pcs[t].file, s.pcs[t].idx)
  }

  /** A step in which no fsync fails. */
  predicate Clean(s: State, a: Step) {
    (a.Fsync? ==> a.ok) && (a.Rotate? && a.openOk && s.requested ==> a.syncOk)
  }

  ghost predicate CleanRun(s: State, steps: seq<Step>, s': State)
    decreases |steps|
  {
    if steps == [] then s' == s
    else Enabled(s, steps[0]) && Clean(s, steps[0]) && CleanRun(Apply(s, steps[0]), steps[1..], s')
  }

  // A step with working fsyncs exposes no record that was not.

  lemma AppendSafe(s: State, a: Step, t: nat)
    requires Inv(s) && Enabled(s, a) && a.Append? && t < |s.pcs| && !Doomed(s, s.pcs[t])
    ensures !Doomed(Apply(s, a), Apply(s, a).pcs[t])
  {
    hide LeaderOK;
    var s' := Apply(s, a);
    assert RecordOK(s, s.pcs[t]);
    assert forall u | 0 <= u < |s.pcs| :: s'.pcs[u] == s.pcs[u] || (u == a.t && s'.pcs[u].Waiting?);
    assert forall u | 0 <= u < |s.pcs| :: RecordOK(s, s.pcs[u]);
    assert forall f | 0 <= f < |s.files| :: s'.files[f].durable == s.files[f].durable && s'.files[f].closed == s.files[f].closed;
    if t != a.t && s.pcs[t].Waiting? && Rescued(s, s.pcs[t].file, s.pcs[t].idx) {
      var u :| 0 <= u < |s.pcs| && s.pcs[u].Syncing? && s.pcs[u].target == s.pcs[t].file && s.pcs[u].covered >= s.pcs[t].idx;
      assert s'.pcs[u] == s.pcs[u];
    }
  }

  lemma ReturnSafe(s: State, a: Step, t: nat)
    requires Inv(s) && Enabled(s, a) && (a.AlreadySynced? || a.Lead?) && t < |s.pcs| && !Doomed(s, s.pcs[t])
    ensures !Doomed(Apply(s, a), Apply(s, a).pcs[t])
  {
    hide FilesOK;
    var s' := Apply(s, a);
    assert RecordOK(s, s.pcs[t]) && s'.files == s.files && s'.synced == s.synced;
    assert forall u | 0 <= u < |s.pcs| && u != a.t :: s'.pcs[u] == s.pcs[u];
    assert !s'.pcs[a.t].Syncing? && !s'.pcs[a.t].Synced?;
    if s.pcs[t].Waiting? && Rescued(s, s.pcs[t].file, s.pcs[t].idx) {
      var u :| 0 <= u < |s.pcs| && s.pcs[u].Syncing? && s.pcs[u].target == s.pcs[t].file && s.pcs[u].covered >= s.pcs[t].idx;
      assert Leads(s.pcs[u]) && s'.pcs[u] == s.pcs[u];
    }
  }

  lemma CaptureSafe(s: State, a: Step, t: nat)
    requires Inv(s) && Enabled(s, a) && a.Capture? && t < |s.pcs| && !Doomed(s, s.pcs[t])
    ensures !Doomed(Apply(s, a), Apply(s, a).pcs[t])
  {
    var s' := Apply(s, a);
    assert RecordOK(s, s.pcs[t]) && s'.files == s.files && s'.synced == s.synced;
    assert forall u | 0 <= u < |s.pcs| && u != a.t :: s'.pcs[u] == s.pcs[u] && !Leads(s.pcs[u]);
  }

  lemma FsyncSafe(s: State, a: Step, t: nat)
    requires Inv(s) && Enabled(s, a) && a.Fsync? && a.ok && t < |s.pcs| && !Doomed(s, s.pcs[t])
    ensures !Doomed(Apply(s, a), Apply(s, a).pcs[t])
  {
    var s', p := Apply(s, a), s.pcs[a.t];
    assert RecordOK(s, s.pcs[t]) && RecordOK(s, p) && s'.synced == s.synced && Gen(s') == Gen(s);
    assert forall u | 0 <= u < |s.pcs| && u != a.t :: s'.pcs[u] == s.pcs[u] && !Leads(s.pcs[u]);
    assert forall f | 0 <= f < |s.files| :: s'.files[f].durable >= s.files[f].durable && s'.files[f].closed == s.files[f].closed;
    assert s'.files[p.target].durable >= p.covered;
  }

  lemma FinishSafe(s: State, a: Step, t: nat)
    requires Inv(s) && Enabled(s, a) && a.Finish? && t < |s.pcs| && !Doomed(s, s.pcs[t])
    ensures !Doomed(Apply(s, a), Apply(s, a).pcs[t])
  {
    var s', p := Apply(s, a), s.pcs[a.t];
    assert RecordOK(s, s.pcs[t]) && s'.files == s.files;
    assert forall u | 0 <= u < |s.pcs| && u != a.t :: s'.pcs[u] == s.pcs[u] && !Leads(s.pcs[u]);
  }

  lemma RotateSafe(s: State, a: Step, t: nat)
    requires Inv(s) && Enabled(s, a) && a.Rotate? && Clean(s, a) && t < |s.pcs| && !Doomed(s, s.pcs[t])
    ensures !Doomed(Apply(s, a), Apply(s, a).pcs[t])
  {
    hide LeaderOK;
    var s', g, p := Apply(s, a), Gen(s), s.pcs[t];
    assert RecordOK(s, p) && s'.pcs == s.pcs;
    if a.openOk && !p.Idle? {
      assert s'.files[p.file] == if p.file == g then s.files[g].(durable := s.files[g].len) else s.files[p.file];
      assert Durable(s', p.file, p.idx);
    }
  }

  lemma CloseSafe(s: State, a: Step, t: nat)
    requires Inv(s) && Enabled(s, a) && a.CloseFlushed? && t < |s.pcs| && !Doomed(s, s.pcs[t])
    ensures !Doomed(Apply(s, a), Apply(s, a).pcs[t])
  {
    hide LeaderOK;
    var s' := Apply(s, a);
    assert RecordOK(s, s.pcs[t]) && s'.pcs == s.pcs && |s'.files| == |s.files|;
    assert forall f | 0 <= f < |s.files| :: s'.files[f].durable == s.files[f].durable && (s.files[f].closed ==> s'.files[f].closed);
  }

  lemma StaysSafe(s: State, a: Step)
    requires Inv(s) && Enabled(s, a) && Clean(s, a) && !Exposed(s)
    ensures !Exposed(Apply(s, a))
  {
    hide Inv, Doomed, Apply, Enabled;
    forall t | 0 <= t < |Apply(s, a).pcs| ensures !Doomed(Apply(s, a), Apply(s, a).pcs[t]) {
      SameThreads(s, a);
      match a {
        case Append(_, _) => AppendSafe(s, a, t);
        case AlreadySynced(_) => ReturnSafe(s, a, t);
        case Lead(_) => ReturnSafe(s, a, t);
        case Capture(_) => CaptureSafe(s, a, t);
        case Fsync(_, _, _) => FsyncSafe(s, a, t);
        case Finish(_) => FinishSafe(s, a, t);
        case Rotate(_, _) => RotateSafe(s, a, t);
        case CloseFlushed => CloseSafe(s, a, t);
      }
    }
  }

  lemma SameThreads(s: State, a: Step)
    requires Enabled(s, a)
    ensures |Apply(s, a).pcs| == |s.pcs|
  {
  }

  lemma {:induction false} CleanRunSafe(s: State, steps: seq<Step>, s': State)
    requires Inv(s) && !Exposed(s) && CleanRun(s, steps, s')
    ensures AcksDurable(s')
    decreases |steps|
  {
    hide Apply, Enabled, Clean;
    if steps == [] {
      forall t | 0 <= t < |s.pcs| && s.pcs[t].Done? ensures Durable(s, s.pcs[t].file, s.pcs[t].idx) {
        assert !Doomed(s, s.pcs[t]);
      }
    } else {
      hide Inv, Exposed;
      StaysSafe(s, steps[0]);
      StepKeepsInv(s, steps[0]);
      CleanRunSafe(Apply(s, steps[0]), steps[1..], s');
    }
  }

  // A doomed writer is told OK although every fsync from now on works.

  function Stage(p: Pc): nat {
    match p
    case Leading(_, _) => 3
    case Syncing(_, _, _, _) => 2
    case Synced(_, _, _, _) => 1
    case _ => 0
  }

  /** The next step of a leader, with an fsync that works. */
  function LeaderStep(p: Pc, t: nat): Step
    requires Leads(p)
  {
    if p.Leading? then Capture(t) else if p.Syncing? then Fsync(t, true, p.covered) else Finish(t)
  }

  /** `t` has been told OK, and its record is not durable. */
  ghost predicate Misled(s: State, t: nat, p: Pc) {
    !p.Idle? && t < |s.pcs| && s.pcs[t] == Done(p.file, p.idx) && !Durable(s, p.file, p.idx)
  }

  lemma OwnStepDoomed(s: State, t: nat)
    requires Inv(s) && t < |s.pcs| && Leads(s.pcs[t]) && Doomed(s, s.pcs[t])
    ensures var a := LeaderStep(s.pcs[t], t);
            && Enabled(s, a) && Clean(s, a) && var s' := Apply(s, a);
            && |s'.pcs| == |s.pcs| && Doomed(s', s'.pcs[t]) && (Leads(s'.pcs[t]) || s'.pcs[t].Done?)
            && Stage(s'.pcs[t]) < Stage(s.pcs[t]) && s'.pcs[t].file == s.pcs[t].file && s'.pcs[t].idx == s.pcs[t].idx
  {
    hide LeaderOK;
    assert RecordOK(s, s.pcs[t]);
  }

  lemma {:induction false} LeaderMisled(s: State, t: nat) returns (more: seq<Step>, s': State)
    requires Inv(s) && t < |s.pcs| && (Leads(s.pcs[t]) || s.pcs[t].Done?) && Doomed(s, s.pcs[t])
    ensures CleanRun(s, more, s') && Misled(s', t, s.pcs[t])
    decreases Stage(s.pcs[t])
  {
    more, s' := [], s;
    if Leads(s.pcs[t]) {
      hide Inv, Enabled, Apply, Clean, Doomed;
      OwnStepDoomed(s, t);
      var a := LeaderStep(s.pcs[t], t);
      StepKeepsInv(s, a);
      more, s' := LeaderMisled(Apply(s, a), t);
      more := [a] + more;
      assert more[0] == a && CleanRun(s, more, s');
    }
  }

  /** The leader a doomed writer waits for takes a step: the writer stays doomed. */
  lemma OtherStepDoomed(s: State, t: nat, u: nat)
    requires Inv(s) && t < |s.pcs| && u < |s.pcs| && s.pcs[t].Waiting? && Leads(s.pcs[u])
    requires Doomed(s, s.pcs[t]) && s.synced < s.pcs[t].idx
    ensures var a := LeaderStep(s.pcs[u], u);
            && Enabled(s, a) && Clean(s, a) && var s' := Apply(s, a);
            && |s'.pcs| == |s.pcs| && s'.pcs[t] == s.pcs[t] && Doomed(s', s'.pcs[t])
            && (if s.pcs[u].Synced? then !s'.syncing else Leads(s'.pcs[u]) && s'.synced == s.synced)
            && Stage(s'.pcs[u]) < Stage(s.pcs[u])
  {
    var a, p, q := LeaderStep(s.pcs[u], u), s.pcs[t], s.pcs[u];
    assert RecordOK(s, p) && RecordOK(s, q);
    assert forall v | 0 <= v < |s.pcs| && v != u :: !Leads(s.pcs[v]);
    var s' := Apply(s, a);
    assert forall v | 0 <= v < |s.pcs| && v != u :: s'.pcs[v] == s.pcs[v];
    if p.file == Gen(s) {
      assert q.Synced? && q.target == Gen(s) && q.covered >= p.idx;
    } else {
      assert q.Syncing? ==> q.target != p.file || q.covered < p.idx;
    }
  }

  lemma {:induction false} LeaderDone(s: State, t: nat, u: nat) returns (more: seq<Step>, s': State)
    requires Inv(s) && t < |s.pcs| && u < |s.pcs| && s.pcs[t].Waiting? && Leads(s.pcs[u])
    requires Doomed(s, s.pcs[t]) && s.synced < s.pcs[t].idx
    ensures CleanRun(s, more, s') && Inv(s') && |s'.pcs| == |s.pcs|
    ensures s'.pcs[t] == s.pcs[t] && Doomed(s', s'.pcs[t]) && !s'.syncing
    decreases Stage(s.pcs[u])
  {
    hide Inv, Enabled, Apply, Clean, Doomed;
    OtherStepDoomed(s, t, u);
    var a := LeaderStep(s.pcs[u], u);
    StepKeepsInv(s, a);
    var s1 := Apply(s, a);
    more, s' := [], s1;
    if !s.pcs[u].Synced? {
      more, s' := LeaderDone(s1, t, u);
    }
    more := [a] + more;
    assert more[0] == a && CleanRun(s1, more[1..], s');
  }

  lemma LeadDoomed(s: State, t: nat)
    requires Inv(s) && t < |s.pcs| && s.pcs[t].Waiting? && Doomed(s, s.pcs[t]) && !s.syncing && s.synced < s.pcs[t].idx
    ensures Enabled(s, Lead(t)) && Clean(s, Lead(t)) && var s' := Apply(s, Lead(t));
            |s'.pcs| == |s.pcs| && s'.pcs[t] == Leading(s.pcs[t].file, s.pcs[t].idx) && Doomed(s', s'.pcs[t])
  {
    assert RecordOK(s, s.pcs[t]);
    assert forall u | 0 <= u < |s.pcs| :: !Leads(s.pcs[u]);
  }

  lemma {:induction false} ReturnDoomed(s: State, t: nat)
    requires t < |s.pcs| && s.pcs[t].Waiting? && Doomed(s, s.pcs[t]) && s.synced >= s.pcs[t].idx && |s.files| > 0
    ensures CleanRun(s, [AlreadySynced(t)], Apply(s, AlreadySynced(t))) && Misled(Apply(s, AlreadySynced(t)), t, s.pcs[t])
  {
  }

  lemma {:induction false} CleanJoin(s: State, first: seq<Step>, m: State, second: seq<Step>, s': State)
    requires CleanRun(s, first, m) && CleanRun(m, second, s')
    ensures CleanRun(s, first + second, s')
    decreases |first|
  {
    hide Apply, Enabled, Clean;
    if first == [] {
      assert first + second == second;
    } else {
      CleanJoin(Apply(s, first[0]), first[1..], m, second, s');
      assert (first + second)[0] == first[0] && (first + second)[1..] == first[1..] + second;
    }
  }

  /** From a state without a leader. */
  lemma IdleMisled(s: State, t: nat) returns (more: seq<Step>, s': State)
    requires Inv(s) && t < |s.pcs| && s.pcs[t].Waiting? && Doomed(s, s.pcs[t]) && (!s.syncing || s.synced >= s.pcs[t].idx)
    ensures CleanRun(s, more, s') && Misled(s', t, s.pcs[t])
  {
    hide Doomed, Clean, CleanRun, LeaderOK;
    if s.synced >= s.pcs[t].idx {
      ReturnDoomed(s, t);
      more, s' := [AlreadySynced(t)], Apply(s, AlreadySynced(t));
    } else {
      LeadDoomed(s, t);
      StepKeepsInv(s, Lead(t));
      var s1 := Apply(s, Lead(t));
      more, s' := LeaderMisled(s1, t);
      LeadFirst(s, t, more, s');
      more := [Lead(t)] + more;
    }
  }

  lemma {:induction false} LeadFirst(s: State, t: nat, more: seq<Step>, s': State)
    requires Enabled(s, Lead(t)) && CleanRun(Apply(s, Lead(t)), more, s')
    ensures CleanRun(s, [Lead(t)] + more, s')
  {
    assert ([Lead(t)] + more)[1..] == more;
  }

  /** A writer that is doomed is told OK in a continuation whose fsyncs all work, whether
      it waits, leads or is in a round, and whoever else leads. */
  lemma DoomedIsMisled(s: State, t: nat) returns (more: seq<Step>, s': State)
    requires Inv(s) && t < |s.pcs| && Doomed(s, s.pcs[t])
    ensures CleanRun(s, more, s') && Misled(s', t, s.pcs[t])
  {
    hide CleanRun, Doomed, Apply, Enabled, FilesOK;
    if !s.pcs[t].Waiting? {
      NotIdle(s, t);
      more, s' := LeaderMisled(s, t);
    } else if !s.syncing || s.synced >= s.pcs[t].idx {
      more, s' := IdleMisled(s, t);
    } else {
      var u: nat :| u < |s.pcs| && Leads(s.pcs[u]);
      var first, m := LeaderDone(s, t, u);
      more, s' := IdleMisled(m, t);
      CleanJoin(s, first, m, more, s');
      more := first + more;
    }
  }

  lemma NotIdle(s: State, t: nat)
    requires t < |s.pcs| && Doomed(s, s.pcs[t])
    ensures !s.pcs[t].Idle?
  {
  }

  // ---------------------------------------------------------------- results

  /** In every run, whether all writers told OK from now on have durable records, as long
      as no further fsync fails, is decided by the present state: exactly when no record
      is exposed. */
  lemma {:induction false} DurableExactly(s: State, steps: seq<Step>, n: nat)
    requires Reachable(s, steps, n)
    ensures (forall more, s' | CleanRun(s, more, s') :: AcksDurable(s')) <==> !Exposed(s)
  {
    hide Reachable, CleanRun, Doomed, Inv;
    Invariant(s, steps, n);
    if Exposed(s) {
      var t: nat :| t < |s.pcs| && Doomed(s, s.pcs[t]);
      var more, s' := DoomedIsMisled(s, t);
      assert !AcksDurable(s');
    } else {
      forall more, s' | CleanRun(s, more, s') ensures AcksDurable(s') {
        CleanRunSafe(s, more, s');
      }
    }
  }

  // ---------------------------------------------------------------- progress

  lemma LeaderAdvances(s: State, u: nat)
    requires Inv(s) && u < |s.pcs| && Leads(s.pcs[u])
    ensures var a := LeaderStep(s.pcs[u], u);
            && Enabled(s, a) && Clean(s, a) && var s' := Apply(s, a);
            && |s'.pcs| == |s.pcs| && (forall t | 0 <= t < |s.pcs| && t != u :: s'.pcs[t] == s.pcs[t])
            && Stage(s'.pcs[u]) < Stage(s.pcs[u])
            && (if s.pcs[u].Synced? then s'.pcs[u] == Done(s.pcs[u].file, s.pcs[u].idx) && !s'.syncing
                else Leads(s'.pcs[u]) && s'.pcs[u].file == s.pcs[u].file && s'.pcs[u].idx == s.pcs[u].idx)
  {
    hide LeaderOK;
    assert RecordOK(s, s.pcs[u]);
  }

  /** Whoever leads can finish its round. */
  lemma {:induction false} LeaderFinishes(s: State, u: nat) returns (more: seq<Step>, s': State)
    requires Inv(s) && u < |s.pcs| && Leads(s.pcs[u])
    ensures CleanRun(s, more, s') && Inv(s') && |s'.pcs| == |s.pcs| && !s'.syncing
    ensures s'.pcs[u] == Done(s.pcs[u].file, s.pcs[u].idx)
    ensures forall t | 0 <= t < |s.pcs| && t != u :: s'.pcs[t] == s.pcs[t]
    decreases Stage(s.pcs[u])
  {
    hide Inv, Enabled, Apply, Clean;
    LeaderAdvances(s, u);
    var a := LeaderStep(s.pcs[u], u);
    StepKeepsInv(s, a);
    var s1 := Apply(s, a);
    more, s' := [], s1;
    if !s.pcs[u].Synced? {
      more, s' := LeaderFinishes(s1, u);
    }
    more := [a] + more;
    assert more[0] == a && CleanRun(s1, more[1..], s');
  }

  /** Without a leader, a waiting writer returns or leads its own round. */
  lemma WaiterReturns(s: State, t: nat) returns (more: seq<Step>, s': State)
    requires Inv(s) && t < |s.pcs| && s.pcs[t].Waiting? && (!s.syncing || s.synced >= s.pcs[t].idx)
    ensures CleanRun(s, more, s') && |s'.pcs| == |s.pcs| && s'.pcs[t] == Done(s.pcs[t].file, s.pcs[t].idx)
  {
    hide LeaderOK, RecordOK;
    if s.synced >= s.pcs[t].idx {
      more, s' := [AlreadySynced(t)], Apply(s, AlreadySynced(t));
      assert more[1..] == [];
    } else {
      StepKeepsInv(s, Lead(t));
      hide Inv;
      more, s' := LeaderFinishes(Apply(s, Lead(t)), t);
      LeadFirst(s, t, more, s');
      more := [Lead(t)] + more;
    }
  }

  /** From every state of every run, a writer whose record was appended can be told OK by a
      continuation in which no fsync fails; nobody waits forever. */
  lemma WriterReturns(s: State, steps: seq<Step>, n: nat, t: nat) returns (more: seq<Step>, s': State)
    requires Reachable(s, steps, n) && t < |s.pcs| && !s.pcs[t].Idle?
    ensures CleanRun(s, more, s') && t < |s'.pcs| && s'.pcs[t] == Done(s.pcs[t].file, s.pcs[t].idx)
  {
    Invariant(s, steps, n);
    hide CleanRun, Apply, Enabled, FilesOK;
    if s.pcs[t].Done? {
      more, s' := [], s;
      NothingDone(s);
    } else if !s.pcs[t].Waiting? {
      more, s' := LeaderFinishes(s, t);
    } else if !s.syncing || s.synced >= s.pcs[t].idx {
      more, s' := WaiterReturns(s, t);
    } else {
      var u: nat :| u < |s.pcs| && Leads(s.pcs[u]);
      var first, m := LeaderFinishes(s, u);
      more, s' := WaiterReturns(m, t);
      CleanJoin(s, first, m, more, s');
      more := first + more;
    }
  }

  lemma {:induction false} NothingDone(s: State)
    ensures CleanRun(s, [], s)
  {
  }

  lemma SafeIsClean(s: State, a: Step)
    requires Enabled(s, a)
    ensures !Apply(s, a).unsafe <==> Clean(s, a) && !s.unsafe
  {
  }

  /** A run is unsafe exactly when some fsync of it failed that was asked for. */
  lemma {:induction false} CleanRunStaysSafe(s: State, steps: seq<Step>, s': State)
    requires CleanRun(s, steps, s')
    ensures s'.unsafe <==> s.unsafe
    decreases |steps|
  {
    hide Apply, Enabled, Clean;
    if steps != [] {
      SafeIsClean(s, steps[0]);
      CleanRunStaysSafe(Apply(s, steps[0]), steps[1..], s');
    }
  }

  /** Behind a rotation the next one waits, and from every state of every run the flushed
      log can be closed and the log rotated again. */
  lemma RotationReturns(s: State, steps: seq<Step>, n: nat) returns (more: seq<Step>, s': State)
    requires Reachable(s, steps, n)
    ensures forall o, k | Enabled(s, Rotate(o, k)) :: !Enabled(Apply(s, Rotate(o, k)), Rotate(o, k))
    ensures CleanRun(s, more, s') && Enabled(s', Rotate(true, true))
  {
    hide Inv;
    Invariant(s, steps, n);
    more, s' := NobodyLeads(s);
    NothingInFlight(s');
    if s'.hasImm {
      var last := Apply(s', CloseFlushed);
      assert CleanRun(s', [CloseFlushed], last) by {
        assert [CloseFlushed][1..] == [];
      }
      CleanJoin(s, more, s', [CloseFlushed], last);
      more, s' := more + [CloseFlushed], last;
    }
  }

  lemma NobodyLeads(s: State) returns (more: seq<Step>, s': State)
    requires Inv(s)
    ensures CleanRun(s, more, s') && Inv(s') && !s'.syncing
  {
    hide FilesOK, RecordOK, CleanRun;
    more, s' := [], s;
    if s.syncing {
      var u: nat :| u < |s.pcs| && Leads(s.pcs[u]);
      more, s' := LeaderFinishes(s, u);
    } else {
      NothingDone(s);
    }
  }

  lemma NothingInFlight(s: State)
    requires Inv(s) && !s.syncing
    ensures |s.files| > 0 && s.inflight == 0
  {
    hide RecordOK;
    assert forall t | 0 <= t < |s.pcs| :: !Leads(s.pcs[t]);
  }

  lemma {:induction false} UnexposedUnlessUnsafe(s: State, steps: seq<Step>, n: nat)
    requires Reachable(s, steps, n) && !s.unsafe
    ensures !Exposed(s)
    decreases |steps|
  {
    if steps == [] {
      assert forall t | 0 <= t < |s.pcs| :: s.pcs[t].Idle?;
    } else {
      hide Exposed, Inv, Apply, Enabled, Clean, Start;
      var k := |steps| - 1;
      var s0 :| Reachable(s0, steps[..k], n) && Enabled(s0, steps[k]) && s == Apply(s0, steps[k]);
      SafeIsClean(s0, steps[k]);
      Invariant(s0, steps[..k], n);
      UnexposedUnlessUnsafe(s0, steps[..k], n);
      StaysSafe(s0, steps[k]);
    }
  }

  /** In every run, a writer that asked for sync and was told OK has a durable record,
      as long as no round and no rotation had to ignore a failed fsync. */
  lemma {:induction false} AcknowledgedIsDurable(s: State, steps: seq<Step>, n: nat, t: nat)
    requires Reachable(s, steps, n) && t < |s.pcs| && s.pcs[t].Done? && !s.unsafe
    ensures Durable(s, s.pcs[t].file, s.pcs[t].idx)
  {
    UnexposedUnlessUnsafe(s, steps, n);
    assert !Doomed(s, s.pcs[t]);
  }

  /** In every run, an fsync never touches a file that was closed. */
  lemma {:induction false} SyncTargetOpen(s: State, steps: seq<Step>, n: nat, t: nat)
    requires Reachable(s, steps, n) && t < |s.pcs| && s.pcs[t].Syncing?
    ensures s.pcs[t].target < |s.files| && !s.files[s.pcs[t].target].closed
  {
    Invariant(s, steps, n);
    assert RecordOK(s, s.pcs[t]);
  }

  lemma {:induction false} Extend(s: State, steps: seq<Step>, n: nat, a: Step)
    requires Reachable(s, steps, n) && Enabled(s, a)
    ensures Reachable(Apply(s, a), steps + [a], n)
  {
    assert (steps + [a])[..|steps|] == steps;
  }

  /** A failed fsync is not reported: one synced write leads a round whose fsync fails,
      is told OK and is not on disk. */
  lemma FailedRoundReachable() returns (s: State)
    ensures Reachable(s, [Append(0, true), Lead(0), Capture(0), Fsync(0, false, 1), Finish(0)], 1)
    ensures |s.pcs| == 1 && s.pcs[0] == Done(0, 1) && !Durable(s, 0, 1) && s.unsafe && |s.files| == 1
  {
    hide Reachable;
    var s1 := Apply(Start(1), Append(0, true));
    var s2 := Apply(s1, Lead(0));
    var s3 := Apply(s2, Capture(0));
    var s4 := Apply(s3, Fsync(0, false, 1));
    s := Apply(s4, Finish(0));
    var r1 := [Append(0, true)];
    var r2 := [Append(0, true), Lead(0)];
    var r3 := [Append(0, true), Lead(0), Capture(0)];
    var r4 := [Append(0, true), Lead(0), Capture(0), Fsync(0, false, 1)];
    Started();
    Extend(Start(1), [], 1, Append(0, true));
    assert [] + [Append(0, true)] == r1;
    Extend(s1, r1, 1, Lead(0));
    assert r1 + [Lead(0)] == r2;
    Extend(s2, r2, 1, Capture(0));
    assert r2 + [Capture(0)] == r3;
    Extend(s3, r3, 1, Fsync(0, false, 1));
    assert r3 + [Fsync(0, false, 1)] == r4;
    Extend(s4, r4, 1, Finish(0));
    assert r4 + [Finish(0)] == [Append(0, true), Lead(0), Capture(0), Fsync(0, false, 1), Finish(0)];
  }

  lemma Started()
    ensures Reachable(Start(1), [], 1)
  {
  }

  /** A rotation whose fsync fails exposes the record of a synced write that waits. */
  lemma FailedRotationReachable() returns (s: State)
    ensures Reachable(s, [Append(0, true), Rotate(true, false)], 1)
    ensures |s.pcs| == 1 && s.pcs[0] == Waiting(0, 1) && !Durable(s, 0, 1) && s.unsafe && Exposed(s)
  {
    Extend(Start(1), [], 1, Append(0, true));
    var s1 := Apply(Start(1), Append(0, true));
    assert [] + [Append(0, true)] == [Append(0, true)];
    Extend(s1, [Append(0, true)], 1, Rotate(true, false));
    assert [Append(0, true)] + [Rotate(true, false)] == [Append(0, true), Rotate(true, false)];
    s := Apply(s1, Rotate(true, false));
    assert Doomed(s, s.pcs[0]);
  }
}
