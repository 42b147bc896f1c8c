/** How a record moves from a log to a memtable to a table named by the MANIFEST, with
    readers in between and a crash possible after every step. One background thread
    flushes and compacts; a MANIFEST write succeeds or leaves the old one in place. */
module Handoff {
  import opened Bytes

  datatype Rec = Rec(key: Bytes, seqno: nat)

  /** Where the background thread is. */
  datatype Work =
    | Resting
    | Built(file: nat)             // table written, not yet in level 0
    | Published(file: nat)         // in level 0, MANIFEST not yet written
    | Refused(file: nat)           // the MANIFEST could not be written
    | Named(file: nat)             // on disk and named; the memtable is still there
    | Merged(inputs: set<nat>, outs: set<nat>)
    | Installed(inputs: set<nat>)

  /** A point read holds the shared lock; `due` is all the store held at its start. */
  datatype Reader =
    | NoReader
    | Started(due: set<Rec>)
    | LoadedMem(due: set<Rec>, mem: set<Rec>)
    | LoadedBoth(due: set<Rec>, mem: set<Rec>, imm: set<Rec>)

  datatype State = State(
    recs: set<Rec>,                  // every record ever written
    mem: set<Rec>, imm: Option<set<Rec>>, rotating: bool,
    wals: map<nat, set<Rec>>, wal: nat, immWal: Option<nat>,
    disk: map<nat, set<Rec>>,        // table files
    live: set<nat>,                  // levels_, and the MANIFEST as kept in memory
    named: set<nat>,                 // the MANIFEST on disk
    pending: set<nat>,               // files waiting to be unlinked
    nextFile: nat,
    work: Work, reader: Reader)

  datatype Step =
    | Write(r: Rec)
    | StoreImm                        // rotation: imm_ first,
    | StoreMem(openOk: bool, id: nat) // then mem_, then the log
    | BuildTable
    | Publish
    | WriteManifest(ok: bool)
    | Withdraw
    | DropImm
    | Merge(inputs: set<nat>, outs: map<nat, set<Rec>>, next: nat)
    | Install
    | WriteMerged(ok: bool)
    | Cleanup
    | Begin | LoadMem | LoadImm | End

  function Tables(disk: map<nat, set<Rec>>, files: set<nat>): set<Rec> {
    set f, r | f in files && f in disk && r in disk[f] :: r
  }

  function ImmRecs(s: State): set<Rec> {
    if s.imm.Some? then s.imm.value else {}
  }

  /** Every version the store holds, in a live table or in a memtable. */
  function Held(s: State): set<Rec> {
    Tables(s.disk, s.live) + ImmRecs(s) + s.mem
  }

  /** No record of the same key is newer. */
  ghost predicate Newest(r: Rec, rs: set<Rec>) {
    r in rs && forall q | q in rs && q.key == r.key :: q.seqno <= r.seqno
  }

  /** A merge keeps, of its inputs, the newest record of every key. */
  ghost predicate Keeps(before: set<Rec>, after: set<Rec>) {
    after <= before && forall r | Newest(r, before) :: r in after
  }

  ghost predicate Enabled(s: State, a: Step) {
    match a
    case Write(r) => !s.rotating
    case StoreImm => s.imm.None? && !s.rotating
    case StoreMem(_, id) => s.rotating && id !in s.wals
    case BuildTable => s.work.Resting? && s.imm.Some? && !s.rotating
    case Publish => s.work.Built? && s.reader.NoReader?
    case WriteManifest(_) => s.work.Published?
    case Withdraw => s.work.Refused? && s.reader.NoReader?
    case DropImm => s.work.Named? && !s.rotating
    case Merge(inputs, outs, next) =>
      && s.work.Resting? && inputs <= s.live && s.nextFile <= next
      && (forall f | f in outs :: s.nextFile <= f < next)
      && Keeps(Tables(s.disk, inputs), Tables(outs, outs.Keys))
    case Install => s.work.Merged? && s.reader.NoReader?
    case WriteMerged(_) => s.work.Installed?
    case Cleanup => true
    case Begin => s.reader.NoReader?
    case LoadMem => s.reader.Started?
    case LoadImm => s.reader.LoadedMem?
    case End => s.reader.LoadedBoth?
  }

  ghost function Apply(s: State, a: Step): State
    requires Enabled(s, a)
  {
    match a
    case Write(r) =>
      s.(recs := s.recs + {r}, mem := s.mem + {r},
         wals := s.wals[s.wal := (if s.wal in s.wals then s.wals[s.wal] else {}) + {r}])
    case StoreImm => s.(imm := Some(s.mem), rotating := true)
    case StoreMem(openOk, id) =>
      if openOk then s.(mem := {}, rotating := false, wals := s.wals[id := {}], wal := id, immWal := Some(s.wal))
      else s.(mem := {}, rotating := false)
    case BuildTable =>
      s.(disk := s.disk[s.nextFile := s.imm.value], nextFile := s.nextFile + 1, work := Built(s.nextFile))
    case Publish => s.(live := s.live + {s.work.file}, work := Published(s.work.file))
    case WriteManifest(ok) =>
      if ok then s.(named := s.live, work := Named(s.work.file)) else s.(work := Refused(s.work.file))
    case Withdraw =>
      s.(live := s.live - {s.work.file}, pending := s.pending + {s.work.file}, work := Resting)
    case DropImm =>
      s.(imm := None, immWal := None,
         wals := if s.immWal.Some? then s.wals - {s.immWal.value} else s.wals, work := Resting)
    case Merge(inputs, outs, next) =>
      s.(disk := s.disk + outs, nextFile := next, work := Merged(inputs, outs.Keys))
    case Install =>
      s.(live := s.live - s.work.inputs + s.work.outs, work := Installed(s.work.inputs))
    case WriteMerged(ok) =>
      if ok then s.(named := s.live, pending := s.pending + s.work.inputs, work := Resting)
      else s.(work := Resting)
    case Cleanup => s.(disk := s.disk - s.pending, pending := {})
    case Begin => s.(reader := Started(Held(s)))
    case LoadMem => s.(reader := LoadedMem(s.reader.due, s.mem))
    case LoadImm => s.(reader := LoadedBoth(s.reader.due, s.reader.mem, ImmRecs(s)))
    case End => s.(reader := NoReader)
  }

  // ---------------------------------------------------------------- invariants

  ghost predicate FilesOK(s: State) {
    && s.live <= s.disk.Keys && s.named <= s.disk.Keys
    && (forall f | f in s.disk :: f < s.nextFile) && (forall f | f in s.pending :: f < s.nextFile)
    && s.pending !! s.live && s.pending !! s.named
    && (forall f | f in s.disk :: s.disk[f] <= s.recs)
    && s.mem <= s.recs && ImmRecs(s) <= s.recs
  }

  ghost predicate WorkOK(s: State) {
    match s.work
    case Resting => true
    case Built(f) => s.imm.Some? && f in s.disk && s.disk[f] == s.imm.value && f !in s.live + s.named + s.pending
    case Published(f) => s.imm.Some? && f in s.live && f in s.disk && s.disk[f] == s.imm.value && f !in s.named
    case Refused(f) => s.imm.Some? && f in s.live && f in s.disk && s.disk[f] == s.imm.value && f !in s.named
    case Named(f) => s.imm.Some? && f in s.live && f in s.named && f in s.disk && s.disk[f] == s.imm.value
    case Merged(inputs, outs) =>
      && inputs <= s.live && outs <= s.disk.Keys && outs !! s.live && outs !! s.named && outs !! s.pending
      && Keeps(Tables(s.disk, inputs), Tables(s.disk, outs))
    case Installed(inputs) => inputs !! s.live && forall f | f in inputs :: f < s.nextFile
  }

  /** The newest record of every key is in these tables or in a memtable. */
  ghost predicate Covers(s: State, files: set<nat>) {
    forall r | Newest(r, s.recs) :: r in Tables(s.disk, files) || r in ImmRecs(s) || r in s.mem
  }

  /** Every memtable has a log that holds all of it. */
  ghost predicate LogsOK(s: State) {
    && s.wal in s.wals && s.mem <= s.wals[s.wal]
    && (s.immWal.Some? ==> s.immWal.value in s.wals && s.immWal.value != s.wal && s.imm.Some? && !s.rotating)
    && (s.imm.Some? ==> s.imm.value <= s.wals[if s.immWal.Some? then s.immWal.value else s.wal])
    && (s.rotating ==> s.imm == Some(s.mem))
    && forall w | w in s.wals :: s.wals[w] <= s.recs
  }

  ghost predicate ReaderOK(s: State) {
    match s.reader
    case NoReader => true
    case Started(due) => due <= Tables(s.disk, s.live) + ImmRecs(s) + s.mem
    case LoadedMem(due, mem) => due <= Tables(s.disk, s.live) + ImmRecs(s) + mem
    case LoadedBoth(due, mem, imm) => due <= Tables(s.disk, s.live) + imm + mem
  }

  ghost predicate Inv(s: State) {
    FilesOK(s) && WorkOK(s) && LogsOK(s) && ReaderOK(s) && Covers(s, s.live) && Covers(s, s.named)
  }

  // ---------------------------------------------------------------- steps

  lemma FilesKept(s: State, a: Step)
    requires Inv(s) && Enabled(s, a)
    ensures FilesOK(Apply(s, a))
  {
    hide Covers, ReaderOK, LogsOK, Newest;
    if a.Merge? {
      FilesMerged(s, a);
    } else if a.Install? || a.WriteMerged? || a.Withdraw? || a.Publish? || a.Cleanup? {
      hide Tables, Keeps, ImmRecs;
    } else {
      hide Tables, Keeps;
    }
  }

  lemma FilesMerged(s: State, a: Step)
    requires Inv(s) && Enabled(s, a) && a.Merge?
    ensures FilesOK(Apply(s, a))
  {
    hide Covers, ReaderOK, LogsOK, Newest, WorkOK;
    forall f | f in a.outs ensures a.outs[f] <= s.recs {
      forall r | r in a.outs[f] ensures r in s.recs {
        assert r in Tables(a.outs, a.outs.Keys);
      }
    }
  }

  lemma SameTables(disk: map<nat, set<Rec>>, disk': map<nat, set<Rec>>, files: set<nat>)
    requires forall f | f in files && f in disk :: f in disk' && disk'[f] == disk[f]
    requires forall f | f in files && f in disk' :: f in disk
    ensures Tables(disk', files) == Tables(disk, files)
  {
  }

  lemma WorkKept(s: State, a: Step)
    requires Inv(s) && Enabled(s, a)
    ensures WorkOK(Apply(s, a))
  {
    hide Covers, ReaderOK, Newest, Tables, Keeps;
    var s' := Apply(s, a);
    if a.Merge? {
      SameTables(s.disk, s'.disk, a.inputs);
      SameTables(a.outs, s'.disk, a.outs.Keys);
    } else if a.Cleanup? && s.work.Merged? {
      SameTables(s.disk, s'.disk, s.work.inputs);
      SameTables(s.disk, s'.disk, s.work.outs);
    }
  }

  lemma LogsKept(s: State, a: Step)
    requires Inv(s) && Enabled(s, a)
    ensures LogsOK(Apply(s, a))
  {
    hide Covers, ReaderOK, Newest, Tables, Keeps;
  }

  lemma TablesKept(s: State, a: Step, files: set<nat>)
    requires Inv(s) && Enabled(s, a) && files <= s.disk.Keys && files !! s.pending
    ensures Tables(Apply(s, a).disk, files) == Tables(s.disk, files)
  {
    hide Covers, ReaderOK, Newest, Keeps, LogsOK;
    SameTables(s.disk, Apply(s, a).disk, files);
  }

  lemma ReaderKept(s: State, a: Step)
    requires Inv(s) && Enabled(s, a)
    ensures ReaderOK(Apply(s, a))
  {
    TablesKept(s, a, s.live);
    hide Newest, Keeps, LogsOK;
    if a.DropImm? {
      assert s.imm.value <= Tables(s.disk, s.live);
    }
    if a.StoreMem? {
      assert LogsOK(s) ==> s.imm == Some(s.mem);
    }
  }

  lemma NewestGrows(s: State, r: Rec)
    ensures forall q | Newest(q, s.recs + {r}) :: q == r || Newest(q, s.recs)
  {
  }

  /** The set the tables are drawn from does not matter to a record that stays in it. */
  lemma CoversKept(s: State, a: Step, files: set<nat>)
    requires Inv(s) && Enabled(s, a) && Covers(s, files) && files <= s.disk.Keys && files !! s.pending
    requires s.work.Named? ==> s.work.file in files
    ensures Covers(Apply(s, a), files)
  {
    TablesKept(s, a, files);
    hide Keeps, ReaderOK, Newest;
    if a.Write? {
      NewestGrows(s, a.r);
    }
    if a.DropImm? {
      assert s.imm.value <= Tables(s.disk, files);
    }
  }

  lemma LiveCovered(s: State, a: Step)
    requires Inv(s) && Enabled(s, a)
    ensures Covers(Apply(s, a), Apply(s, a).live)
  {
    CoversKept(s, a, s.live);
    var s' := Apply(s, a);
    if a.Withdraw? {
      hide Keeps, ReaderOK, Newest, LogsOK;
      forall r | Newest(r, s'.recs) ensures r in Tables(s'.disk, s'.live) || r in ImmRecs(s') || r in s'.mem {
        if r in Tables(s.disk, s.live) {
          var f :| f in s.live && r in s.disk[f];
          assert f == s.work.file || f in s'.live;
        }
      }
    } else if a.Install? {
      hide ReaderOK, LogsOK;
      forall r | Newest(r, s'.recs) ensures r in Tables(s'.disk, s'.live) || r in ImmRecs(s') || r in s'.mem {
        if r in Tables(s.disk, s.live) {
          var f :| f in s.live && r in s.disk[f];
          if f in s.work.inputs {
            MergedKept(s, r, f);
          } else {
            assert f in s'.live;
          }
        }
      }
    } else if a.Publish? {
      hide Keeps, ReaderOK, Newest, LogsOK;
      assert Tables(s.disk, s.live) <= Tables(s'.disk, s'.live);
    }
  }

  lemma MergedKept(s: State, r: Rec, f: nat)
    requires Inv(s) && s.work.Merged? && f in s.work.inputs && r in s.disk[f] && Newest(r, s.recs)
    ensures r in Tables(s.disk, s.live - s.work.inputs + s.work.outs)
  {
    hide ReaderOK, LogsOK, Covers;
    var before := Tables(s.disk, s.work.inputs);
    assert r in before;
    assert before <= s.recs;
    assert Newest(r, before);
    assert r in Tables(s.disk, s.work.outs);
  }

  lemma StepKeepsInv(s: State, a: Step)
    requires Inv(s) && Enabled(s, a)
    ensures Inv(Apply(s, a))
  {
    FilesKept(s, a);
    WorkKept(s, a);
    LogsKept(s, a);
    ReaderKept(s, a);
    LiveCovered(s, a);
    hide FilesOK, Covers, ReaderOK, LogsOK;
    if (a.WriteManifest? || a.WriteMerged?) && a.ok {
      assert Apply(s, a).named == Apply(s, a).live;
    } else {
      NamedCovered(s, a);
    }
  }

  lemma NamedCovered(s: State, a: Step)
    requires Inv(s) && Enabled(s, a) && !((a.WriteManifest? || a.WriteMerged?) && a.ok)
    ensures Covers(Apply(s, a), Apply(s, a).named)
  {
    hide Covers, ReaderOK, LogsOK;
    CoversKept(s, a, s.named);
  }

  // ---------------------------------------------------------------- runs

  const START := State({}, {}, None, false, map[0 := {}], 0, None, map[], {}, {}, {}, 1, Resting, NoReader)

  ghost predicate Reachable(s: State, steps: seq<Step>)
    decreases |steps|
  {
    if steps == [] then s == START
    else
      var k := |steps| - 1;
      exists s0 :: Reachable(s0, steps[..k]) && Enabled(s0, steps[k]) && s == Apply(s0, steps[k])
  }

  lemma {:induction false} Invariant(s: State, steps: seq<Step>)
    requires Reachable(s, steps)
    ensures Inv(s)
    decreases |steps|
  {
    if steps != [] {
      var k := |steps| - 1;
      var s0 :| Reachable(s0, steps[..k]) && Enabled(s0, steps[k]) && s == Apply(s0, steps[k]);
      Invariant(s0, steps[..k]);
      StepKeepsInv(s0, steps[k]);
    }
  }

  /** What a restart finds: the named tables and every log. */
  function Recovered(s: State): set<Rec> {
    Tables(s.disk, s.named) + set w, r | w in s.wals && r in s.wals[w] :: r
  }

  /** A restart can open every named file and finds the newest record of every key. */
  ghost predicate Recoverable(s: State) {
    && s.named <= s.disk.Keys && Recovered(s) <= s.recs
    && forall r | Newest(r, s.recs) :: r in Recovered(s)
  }

  /** A crash after any step of any run loses nothing. */
  lemma {:induction false} CrashSafe(s: State, steps: seq<Step>)
    requires Reachable(s, steps)
    ensures Recoverable(s)
    ensures forall r :: Newest(r, s.recs) <==> Newest(r, Recovered(s))
  {
    Invariant(s, steps);
    forall r | Newest(r, s.recs) ensures r in Recovered(s) {}
    forall r | Newest(r, Recovered(s)) ensures Newest(r, s.recs) {
      var q := NewestLike(s.recs, r);
      assert q in Recovered(s);
    }
  }

  lemma {:induction false} NewestLike(rs: set<Rec>, r: Rec) returns (q: Rec)
    requires r in rs
    ensures Newest(q, rs) && q.key == r.key && q.seqno >= r.seqno
    decreases rs
  {
    var rest := rs - {r};
    q := r;
    if exists p :: p in rest && p.key == r.key && p.seqno > r.seqno {
      var p :| p in rest && p.key == r.key && p.seqno > r.seqno;
      q := NewestLike(rest, p);
      assert forall x | x in rs :: x == r || x in rest;
    } else {
      assert forall x | x in rs :: x == r || x in rest;
    }
  }

  /** A read finds every version the store held when it began, old ones as well as the
      newest, however the rotation, the flush and the retirement of the memtable fall
      between its loads. */
  lemma {:induction false} ReaderMissesNothing(s: State, steps: seq<Step>)
    requires Reachable(s, steps) && s.reader.LoadedBoth?
    ensures s.reader.due <= Tables(s.disk, s.live) + s.reader.imm + s.reader.mem
  {
    Invariant(s, steps);
  }

  /** Before any merge nothing has been dropped. */
  lemma {:induction false} UnmergedHoldsAll(s: State, steps: seq<Step>)
    requires Reachable(s, steps) && forall i | 0 <= i < |steps| :: !steps[i].Merge?
    ensures s.recs == Held(s) && !s.work.Merged? && !s.work.Installed?
    decreases |steps|
  {
    Invariant(s, steps);
    if steps != [] {
      var k := |steps| - 1;
      var s0 :| Reachable(s0, steps[..k]) && Enabled(s0, steps[k]) && s == Apply(s0, steps[k]);
      UnmergedHoldsAll(s0, steps[..k]);
      Invariant(s0, steps[..k]);
      HeldKept(s0, steps[k]);
    }
  }

  lemma HeldKept(s: State, a: Step)
    requires Inv(s) && Enabled(s, a) && s.recs == Held(s) && !a.Merge? && !s.work.Merged? && !s.work.Installed?
    ensures Apply(s, a).recs <= Held(Apply(s, a))
    ensures !Apply(s, a).work.Merged? && !Apply(s, a).work.Installed?
  {
    hide Covers, ReaderOK, Newest, Keeps;
    var s' := Apply(s, a);
    forall r | r in s'.recs ensures r in Held(s') {
      if r in Tables(s.disk, s.live) {
        var f :| f in s.live && f in s.disk && r in s.disk[f];
        assert f in s'.live ==> f in s'.disk && r in s'.disk[f];
        assert f in s'.live || r in ImmRecs(s');
      }
    }
  }

  /** What a read that begins now has to find: the newest record of every key at least,
      and every record ever written as long as no merge has taken place. */
  lemma {:induction false} ReaderIsDue(s: State, steps: seq<Step>)
    requires Reachable(s, steps) && s.reader.NoReader?
    ensures Apply(s, Begin).reader.due <= s.recs
    ensures forall r | Newest(r, s.recs) :: r in Apply(s, Begin).reader.due
    ensures (forall i | 0 <= i < |steps| :: !steps[i].Merge?) ==> Apply(s, Begin).reader.due == s.recs
  {
    Invariant(s, steps);
    if forall i | 0 <= i < |steps| :: !steps[i].Merge? {
      UnmergedHoldsAll(s, steps);
    }
  }

  // ---------------------------------------------------------------- settling

  ghost predicate Runs(s: State, steps: seq<Step>, s': State)
    decreases |steps|
  {
    if steps == [] then s' == s else Enabled(s, steps[0]) && Runs(Apply(s, steps[0]), steps[1..], s')
  }

  /** Nothing under way, nothing left in a memtable and no file to be unlinked. */
  ghost predicate Settled(s: State) {
    s.work.Resting? && s.reader.NoReader? && !s.rotating && s.imm.None? && s.mem == {} && s.pending == {}
  }

  /** The files that are neither live nor waiting to be unlinked yet. */
  function InWork(s: State): set<nat> {
    match s.work
    case Built(f) => {f}
    case Merged(_, outs) => outs
    case Installed(inputs) => inputs
    case _ => {}
  }

  /** No table file is forgotten. */
  ghost predicate Accounted(s: State) {
    s.disk.Keys <= s.live + s.pending + InWork(s)
  }

  lemma StaysAccounted(s: State, a: Step)
    requires Inv(s) && Enabled(s, a) && Accounted(s) && a != WriteMerged(false)
    ensures Accounted(Apply(s, a))
  {
    hide Covers, ReaderOK, Tables, Newest, Keeps, LogsOK;
  }

  /** Files are forgotten only where the MANIFEST could not be written behind a merge: its
      inputs stay on disk. */
  lemma {:induction false} NoOrphans(s: State, steps: seq<Step>)
    requires Reachable(s, steps) && forall i | 0 <= i < |steps| :: steps[i] != WriteMerged(false)
    ensures Accounted(s)
    decreases |steps|
  {
    hide Enabled, Apply;
    if steps != [] {
      var k := |steps| - 1;
      var s0 :| Reachable(s0, steps[..k]) && Enabled(s0, steps[k]) && s == Apply(s0, steps[k]);
      Invariant(s0, steps[..k]);
      NoOrphans(s0, steps[..k]);
      StaysAccounted(s0, steps[k]);
    }
  }

  /** How many steps are missing until the store has settled. */
  ghost function Missing(s: State): nat {
    (match s.reader case NoReader => 0 case LoadedBoth(_, _, _) => 1 case LoadedMem(_, _) => 2 case Started(_) => 3)
    + (if s.rotating then 1 else if s.mem == {} then 0 else 6)
    + (if s.imm.None? then 0
       else match s.work case Named(_) => 1 case Published(_) => 2 case Built(_) => 3 case Refused(_) => 6 case _ => 4)
    + (match s.work case Merged(_, _) => 3 case Installed(_) => 2 case _ => 0)
    + (if s.pending == {} then 0 else 1)
  }

  lemma {:induction false} UnusedId(ids: set<nat>) returns (id: nat)
    ensures forall i | i in ids :: i < id
    decreases ids
  {
    id := 0;
    if ids != {} {
      var i :| i in ids;
      var rest := UnusedId(ids - {i});
      id := if i < rest then rest else i + 1;
      assert forall j | j in ids :: j == i || j in ids - {i};
    }
  }

  /** Whatever is under way, one step brings the store nearer to having settled. */
  lemma Nearer(s: State) returns (a: Step)
    requires Inv(s) && !Settled(s)
    ensures Enabled(s, a) && Apply(s, a).recs == s.recs && Missing(Apply(s, a)) < Missing(s) && a != WriteMerged(false)
  {
    hide FilesOK, Covers, ReaderOK, Tables, Newest, Keeps;
    if !s.reader.NoReader? {
      return if s.reader.Started? then LoadMem else if s.reader.LoadedMem? then LoadImm else End;
    }
    if s.rotating {
      var id := UnusedId(s.wals.Keys);
      return StoreMem(true, id);
    }
    if !s.work.Resting? {
      return match s.work case Built(_) => Publish case Published(_) => WriteManifest(true) case Refused(_) => Withdraw
                          case Named(_) => DropImm case Merged(_, _) => Install case _ => WriteMerged(true);
    }
    return if s.imm.Some? then BuildTable else if s.mem != {} then StoreImm else Cleanup;
  }

  lemma {:induction false} CanSettle(s: State) returns (more: seq<Step>, s': State)
    requires Inv(s)
    ensures Runs(s, more, s') && Inv(s') && Settled(s') && s'.recs == s.recs && (Accounted(s) ==> Accounted(s'))
    decreases Missing(s)
  {
    hide Inv, Enabled, Apply, Settled, Missing, Accounted;
    more, s' := [], s;
    if !Settled(s) {
      var a := Nearer(s);
      StepKeepsInv(s, a);
      if Accounted(s) {
        StaysAccounted(s, a);
      }
      more, s' := CanSettle(Apply(s, a));
      more := [a] + more;
      assert more[0] == a && Runs(s, more, s');
    }
  }

  /** From every state of every run the store can settle, with no write in between, and then
      the named tables alone hold the newest record of every key; no file but the live ones is
      left, unless the MANIFEST could not be written behind a merge. */
  lemma FlushCompletes(s: State, steps: seq<Step>) returns (more: seq<Step>, s': State)
    requires Reachable(s, steps)
    ensures Runs(s, more, s') && Settled(s') && s'.recs == s.recs
    ensures forall r | Newest(r, s.recs) :: r in Tables(s'.disk, s'.named)
    ensures (forall i | 0 <= i < |steps| :: steps[i] != WriteMerged(false)) ==> s'.disk.Keys == s'.live
  {
    Invariant(s, steps);
    if forall i | 0 <= i < |steps| :: steps[i] != WriteMerged(false) {
      NoOrphans(s, steps);
    }
    more, s' := CanSettle(s);
    hide WorkOK, LogsOK, ReaderOK, Tables, Newest;
    assert Covers(s', s'.named);
  }

  // ---------------------------------------------------------------- reopening

  /** Initialize: tables from the MANIFEST, every log replayed into a memtable, the
      logs unlinked, a fresh one opened. */
  function Reopened(s: State, id: nat): State {
    State(Recovered(s), set w, r | w in s.wals && r in s.wals[w] :: r, None, false, map[id := {}], id, None,
          s.disk, s.named, s.named, {}, s.nextFile, Resting, NoReader)
  }

  /** A reopened store survives a second crash exactly when what the logs held was
      already in a named table: the logs are gone before the replayed memtable is
      flushed. */
  lemma {:induction false} SecondCrash(s: State, steps: seq<Step>, id: nat)
    requires Reachable(s, steps)
    ensures Recoverable(Reopened(s, id)) <==> forall r | Newest(r, s.recs) :: r in Tables(s.disk, s.named)
  {
    CrashSafe(s, steps);
    var s' := Reopened(s, id);
    assert Recovered(s') == Tables(s.disk, s.named);
  }

  /** One write, a crash, a restart: a second crash loses the write. */
  lemma SecondCrashLoses(r: Rec)
    ensures exists s :: Reachable(s, [Write(r)]) && Newest(r, s.recs) && !Recoverable(Reopened(s, 1))
  {
    var s := Apply(START, Write(r));
    var steps := [Write(r)];
    assert steps[..|steps| - 1] == [];
    assert Reachable(START, steps[..|steps| - 1]) && Enabled(START, steps[|steps| - 1]);
    assert Reachable(s, steps);
    SecondCrash(s, steps, 1);
    assert Newest(r, s.recs) && r !in Tables(s.disk, s.named);
  }
}
