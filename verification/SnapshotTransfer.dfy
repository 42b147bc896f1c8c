/** Chunked snapshot transfer between a leader and one follower. The network may lose,
    repeat, delay and reorder chunk requests and may lose replies; either side may
    restart. A snapshot's identity fixes its bytes. */
module SnapshotTransfer {
  import opened Bytes

  /** last_included_index, last_included_term and total size. */
  datatype Id = Id(index: nat, term: nat, size: nat)

  datatype Chunk = Chunk(id: Id, offset: nat, data: Bytes)

  datatype Reply = Reply(chunk: Chunk, accepted: nat, rejected: bool, complete: bool)

  datatype Staging = NoStaging | Staging(id: Id, buffer: Bytes)

  datatype Sending = NotSending | Sending(id: Id, sent: nat)

  datatype State = State(
    images: map<Id, Bytes>,       // every snapshot a leader ever took
    staging: Staging,             // follower
    installed: seq<(Id, Bytes)>,  // follower: what ApplySnapshot was given, in order
    sending: Sending,             // leader, for this follower
    waiting: bool, asked: Chunk,  // leader: the call it is in
    requests: set<Chunk>, replies: set<Reply>,
    matched: set<Id>)             // leader: snapshots it counts as replicated

  const MAX_SNAPSHOT: nat := 0x4000_0000

  datatype Step =
    | Take(id: Id, image: Bytes)
    | Send(id: Id, chunkSize: nat)
    | Deliver(chunk: Chunk, applyOk: bool)
    | Answer(reply: Reply)
    | LostReply
    | Conclude(id: Id)
    | FollowerRestart
    | LeaderRestart

  /** Progress as the leader sees it before a chunk: a different snapshot starts over. */
  function Progress(s: State, id: Id): nat {
    if s.sending.Sending? && s.sending.id == id then s.sending.sent else 0
  }

  function NextChunk(s: State, id: Id, chunkSize: nat): Chunk
    requires id in s.images && Progress(s, id) <= |s.images[id]|
  {
    var image, sent := s.images[id], Progress(s, id);
    var take := if chunkSize < |image| - sent then chunkSize else |image| - sent;
    Chunk(id, sent, image[sent..sent + take])
  }

  ghost predicate Enabled(s: State, a: Step) {
    match a
    case Take(id, image) => id !in s.images && |image| == id.size
    case Send(id, n) => !s.waiting && id in s.images && Progress(s, id) < id.size && n > 0 && Progress(s, id) <= |s.images[id]|
    case Deliver(c, _) => c in s.requests
    case Answer(r) => s.waiting && r in s.replies && r.chunk == s.asked
    case LostReply => s.waiting
    case Conclude(id) => !s.waiting && s.sending.Sending? && s.sending.id == id && s.sending.sent >= id.size
    case FollowerRestart => true
    case LeaderRestart => true
  }

  /** What the follower makes of a chunk: new staging, the reply, and the image to
      install when it is complete. */
  function Handle(staging: Staging, c: Chunk, applyOk: bool): (r: (Staging, Reply, Option<Bytes>)) {
    var refuse := Reply(c, 0, true, false);
    if c.data == [] || c.id.size == 0 || c.id.size > MAX_SNAPSHOT || c.offset + |c.data| > c.id.size then
      (staging, refuse, None)
    else
      var held := if staging.Staging? && staging.id == c.id then staging.buffer else [];
      if c.offset > |held| then (NoStaging, refuse, None)
      else
        var buffer := held[..c.offset] + c.data;
        if |buffer| < c.id.size then (Staging(c.id, buffer), Reply(c, |buffer|, false, false), None)
        else if !applyOk then (NoStaging, Reply(c, |buffer|, true, false), None)
        else (NoStaging, Reply(c, |buffer|, false, true), Some(buffer))
  }

  ghost function Apply(s: State, a: Step): State
    requires Enabled(s, a)
  {
    match a
    case Take(id, image) => s.(images := s.images[id := image])
    case Send(id, n) =>
      var c := NextChunk(s, id, n);
      s.(sending := Sending(id, Progress(s, id)), waiting := true, asked := c, requests := s.requests + {c})
    case Deliver(c, ok) =>
      var r := Handle(s.staging, c, ok);
      s.(staging := r.0, replies := s.replies + {r.1},
         installed := if r.2.Some? then s.installed + [(c.id, r.2.value)] else s.installed)
    case Answer(r) =>
      s.(waiting := false,
         sending := if r.rejected then NotSending
                    else if !s.sending.Sending? then NotSending
                    else if r.accepted < s.sending.sent then NotSending
                    else if r.accepted == s.sending.sent then s.sending
                    else s.sending.(sent := r.accepted))
    case LostReply =>  // reads as zero bytes accepted
      s.(waiting := false,
         sending := if s.sending.Sending? && s.sending.sent > 0 then NotSending else s.sending)
    case Conclude(id) => s.(sending := NotSending, matched := s.matched + {id})
    case FollowerRestart => s.(staging := NoStaging)
    case LeaderRestart => s.(sending := NotSending, waiting := false)
  }

  // ---------------------------------------------------------------- invariants

  ghost predicate Genuine(s: State, c: Chunk) {
    c.id in s.images && c.offset + |c.data| <= |s.images[c.id]|
    && c.data == s.images[c.id][c.offset..c.offset + |c.data|]
  }

  ghost predicate Installed(s: State, id: Id) {
    exists i | 0 <= i < |s.installed| :: s.installed[i].0 == id
  }

  ghost predicate ImagesOK(s: State) {
    forall id | id in s.images :: |s.images[id]| == id.size
  }

  ghost predicate FollowerOK(s: State) {
    && (s.staging.Staging? ==> s.staging.id in s.images && s.staging.buffer <= s.images[s.staging.id])
    && forall i | 0 <= i < |s.installed| :: s.installed[i].0 in s.images && s.installed[i].1 == s.images[s.installed[i].0]
  }

  ghost predicate RepliesOK(s: State) {
    && (forall c | c in s.requests :: Genuine(s, c))
    && forall r | r in s.replies && !r.rejected :: r.accepted <= r.chunk.id.size
         && (r.accepted == r.chunk.id.size ==> Installed(s, r.chunk.id))
  }

  ghost predicate LeaderOK(s: State) {
    && (s.sending.Sending? ==>
          s.sending.id in s.images && s.sending.sent <= s.sending.id.size
          && (s.sending.sent == s.sending.id.size ==> Installed(s, s.sending.id) || s.sending.id.size == 0)
          && (s.waiting ==> s.asked.id == s.sending.id))
    && (s.waiting ==> s.asked in s.requests)
    && forall id | id in s.matched :: Installed(s, id) || id.size == 0
  }

  ghost predicate Inv(s: State) {
    ImagesOK(s) && FollowerOK(s) && RepliesOK(s) && LeaderOK(s)
  }

  lemma HandleGenuine(s: State, c: Chunk, ok: bool)
    requires ImagesOK(s) && FollowerOK(s) && Genuine(s, c)
    ensures var r := Handle(s.staging, c, ok);
            && (r.0.Staging? ==> r.0.id in s.images && r.0.buffer <= s.images[r.0.id])
            && (r.2.Some? ==> r.2.value == s.images[c.id])
            && r.1.chunk == c
            && (!r.1.rejected ==> r.1.accepted <= c.id.size && (r.1.accepted == c.id.size ==> r.2.Some?))
  {
    var image := s.images[c.id];
    var held := if s.staging.Staging? && s.staging.id == c.id then s.staging.buffer else [];
    assert held <= image;
    if c.offset <= |held| {
      assert held[..c.offset] == image[..c.offset];
      assert held[..c.offset] + c.data == image[..c.offset + |c.data|];
    }
  }

  function HeldOf(staging: Staging, id: Id): Bytes {
    if staging.Staging? && staging.id == id then staging.buffer else []
  }

  /** What a follower does with any chunk of an image within the size limit: a chunk that
      leaves no gap is taken and acknowledged up to its end, the last one completes the
      image if it can be applied; a gap or a failed apply is refused and drops the rest. */
  lemma HandleExactly(s: State, c: Chunk, ok: bool)
    requires ImagesOK(s) && FollowerOK(s) && Genuine(s, c) && c.data != [] && c.id.size <= 0x4000_0000
    ensures var r, end := Handle(s.staging, c, ok), c.offset + |c.data|;
            if c.offset > |HeldOf(s.staging, c.id)| then r == (NoStaging, Reply(c, 0, true, false), None)
            else if end < c.id.size then
              r == (Staging(c.id, s.images[c.id][..end]), Reply(c, end, false, false), None)
            else if ok then
              r == (NoStaging, Reply(c, end, false, true), Some(s.images[c.id]))
            else r == (NoStaging, Reply(c, end, true, false), None)
  {
    var image, held := s.images[c.id], HeldOf(s.staging, c.id);
    assert held <= image;
    if c.offset <= |held| {
      assert held[..c.offset] == image[..c.offset];
      assert held[..c.offset] + c.data == image[..c.offset + |c.data|];
      assert image[..|image|] == image;
    }
  }

  /** An empty chunk, an image beyond the limit and a chunk beyond its image are refused and
      leave what is staged alone. */
  lemma HandleRefuses(staging: Staging, c: Chunk, ok: bool)
    requires c.data == [] || c.id.size == 0 || c.id.size > 0x4000_0000 || c.offset + |c.data| > c.id.size
    ensures Handle(staging, c, ok) == (staging, Reply(c, 0, true, false), None)
  {
  }

  lemma MoreInstalled(s: State, s': State)
    requires s.installed <= s'.installed
    ensures forall id | Installed(s, id) :: Installed(s', id)
  {
    forall id | Installed(s, id) ensures Installed(s', id) {
      var i :| 0 <= i < |s.installed| && s.installed[i].0 == id;
      assert s'.installed[i] == s.installed[i];
    }
  }

  lemma DeliverKeeps(s: State, c: Chunk, ok: bool)
    requires Inv(s) && Enabled(s, Deliver(c, ok))
    ensures Inv(Apply(s, Deliver(c, ok)))
  {
    hide Handle, Installed;
    var s', r := Apply(s, Deliver(c, ok)), Handle(s.staging, c, ok);
    HandleGenuine(s, c, ok);
    MoreInstalled(s, s');
    if r.2.Some? {
      JustInstalled(s', |s.installed|);
    }
  }

  lemma SendKeeps(s: State, id: Id, n: nat)
    requires Inv(s) && Enabled(s, Send(id, n))
    ensures Inv(Apply(s, Send(id, n)))
  {
    hide Installed, NextChunk;
    MoreInstalled(s, Apply(s, Send(id, n)));
    SendGenuine(s, id, n);
  }

  lemma TakeKeeps(s: State, id: Id, image: Bytes)
    requires Inv(s) && Enabled(s, Take(id, image))
    ensures Inv(Apply(s, Take(id, image)))
  {
    hide Installed;
    MoreInstalled(s, Apply(s, Take(id, image)));
  }

  lemma StepKeepsInv(s: State, a: Step)
    requires Inv(s) && Enabled(s, a)
    ensures Inv(Apply(s, a))
  {
    match a {
      case Deliver(c, ok) => DeliverKeeps(s, c, ok);
      case Send(id, n) => SendKeeps(s, id, n);
      case Take(id, image) => TakeKeeps(s, id, image);
      case Answer(r) => AnswerOK(s, r);
      case _ => RestKeeps(s, a);
    }
  }

  lemma RestKeeps(s: State, a: Step)
    requires Inv(s) && Enabled(s, a) && !a.Deliver? && !a.Send? && !a.Take? && !a.Answer?
    ensures Inv(Apply(s, a))
  {
    hide Installed;
    MoreInstalled(s, Apply(s, a));
  }

  lemma JustInstalled(s: State, i: nat)
    requires i < |s.installed|
    ensures Installed(s, s.installed[i].0)
  {
  }

  lemma SendGenuine(s: State, id: Id, n: nat)
    requires ImagesOK(s) && Enabled(s, Send(id, n))
    ensures Genuine(s, NextChunk(s, id, n)) && NextChunk(s, id, n).id == id
  {
  }

  lemma AnswerOK(s: State, r: Reply)
    requires Inv(s) && Enabled(s, Answer(r))
    ensures Inv(Apply(s, Answer(r)))
  {
    hide Installed;
    MoreInstalled(s, Apply(s, Answer(r)));
  }

  function Start(): State {
    State(map[], NoStaging, [], NotSending, false, Chunk(Id(0, 0, 0), 0, []), {}, {}, {})
  }

  ghost predicate Reachable(s: State, steps: seq<Step>)
    decreases |steps|
  {
    if steps == [] then s == Start()
    else
      var k := |steps| - 1;
      exists s0 :: Reachable(s0, steps[..k]) && Enabled(s0, steps[k]) && s == Apply(s0, steps[k])
  }

  lemma {:induction false} Invariant(s: State, steps: seq<Step>)
    requires Reachable(s, steps)
    ensures Inv(s)
    decreases |steps|
  {
    if steps != [] {
      var k := |steps| - 1;
      var s0 :| Reachable(s0, steps[..k]) && Enabled(s0, steps[k]) && s == Apply(s0, steps[k]);
      Invariant(s0, steps[..k]);
      StepKeepsInv(s0, steps[k]);
    }
  }

  /** In every run the bytes a follower has staged are a prefix of one image, it installs
      only whole images, byte for byte, and the leader counts a snapshot as replicated only
      after the follower installed it. */
  lemma {:induction false} TransferIsExact(s: State, steps: seq<Step>)
    requires Reachable(s, steps)
    ensures s.staging.Staging? ==>
              s.staging.id in s.images && s.staging.buffer <= s.images[s.staging.id]
    ensures forall i | 0 <= i < |s.installed| ::
              s.installed[i].0 in s.images && s.installed[i].1 == s.images[s.installed[i].0]
    ensures forall id | id in s.matched && id.size > 0 :: Installed(s, id)
  {
    Invariant(s, steps);
  }

  // ---------------------------------------------------------------- completion

  /** A step in which nothing is lost, restarted or refused by the state machine, and only
      this snapshot is sent. */
  ghost predicate Smooth(a: Step, id: Id, n: nat) {
    a == Send(id, n) || (a.Deliver? && a.applyOk) || a.Answer? || a == Conclude(id)
  }

  ghost predicate SmoothRun(s: State, more: seq<Step>, s': State, id: Id, n: nat)
    decreases |more|
  {
    if more == [] then s' == s
    else Enabled(s, more[0]) && Smooth(more[0], id, n) && SmoothRun(Apply(s, more[0]), more[1..], s', id, n)
  }

  lemma {:induction false} SmoothJoin(s: State, first: seq<Step>, m: State, second: seq<Step>, s': State, id: Id, n: nat)
    requires SmoothRun(s, first, m, id, n) && SmoothRun(m, second, s', id, n)
    ensures SmoothRun(s, first + second, s', id, n)
    decreases |first|
  {
    hide Enabled, Apply, Smooth;
    if first == [] {
      assert first + second == second;
    } else {
      SmoothJoin(Apply(s, first[0]), first[1..], m, second, s', id, n);
      assert (first + second)[0] == first[0] && (first + second)[1..] == first[1..] + second;
    }
  }

  lemma {:induction false} SmoothReachable(s: State, steps: seq<Step>, more: seq<Step>, s': State, id: Id, n: nat)
    requires Reachable(s, steps) && SmoothRun(s, more, s', id, n)
    ensures Reachable(s', steps + more)
    decreases |more|
  {
    hide Enabled, Apply, Smooth;
    if more == [] {
      assert steps + more == steps;
    } else {
      assert (steps + [more[0]])[..|steps|] == steps;
      assert Reachable(Apply(s, more[0]), steps + [more[0]]);
      SmoothReachable(Apply(s, more[0]), steps + [more[0]], more[1..], s', id, n);
      assert steps + [more[0]] + more[1..] == steps + more;
    }
  }

  /** The leader has a chunk in flight: it is delivered and answered. */
  lemma FinishCall(s: State, id: Id, n: nat) returns (more: seq<Step>, s': State)
    requires Inv(s) && s.waiting
    ensures SmoothRun(s, more, s', id, n) && Inv(s') && !s'.waiting && s'.images == s.images
    ensures s' == Apply(Apply(s, Deliver(s.asked, true)), Answer(Handle(s.staging, s.asked, true).1))
  {
    hide Handle, Inv;
    assert s.asked in s.requests by {
      Asked(s);
    }
    var a := Deliver(s.asked, true);
    var s1 := Apply(s, a);
    ReplyNames(s.staging, s.asked, true);
    var b := Answer(Handle(s.staging, s.asked, true).1);
    s' := Apply(s1, b);
    StepKeepsInv(s, a);
    StepKeepsInv(s1, b);
    more := [a, b];
    assert more[1..] == [b] && [b][1..] == [];
    assert SmoothRun(s1, [b], s', id, n);
  }

  lemma Asked(s: State)
    requires Inv(s) && s.waiting
    ensures s.asked in s.requests
  {
  }

  lemma ReplyNames(staging: Staging, c: Chunk, ok: bool)
    ensures Handle(staging, c, ok).1.chunk == c
  {
  }

  /** One round for this snapshot, delivered and answered. */
  lemma Round(s: State, id: Id, n: nat) returns (more: seq<Step>, s': State)
    requires Inv(s) && !s.waiting && id in s.images && id.size <= 0x4000_0000 && n > 0 && Progress(s, id) < id.size
    ensures SmoothRun(s, more, s', id, n) && Inv(s') && !s'.waiting && s'.images == s.images
    ensures if Progress(s, id) > |HeldOf(s.staging, id)| then s'.sending == NotSending
            else var end := if n < id.size - Progress(s, id) then Progress(s, id) + n else id.size;
                 s'.sending == Sending(id, end) && (end < id.size ==> |HeldOf(s'.staging, id)| == end)
  {
    var a := Send(id, n);
    assert |s.images[id]| == id.size && Enabled(s, a);
    var s1 := Apply(s, a);
    StepKeepsInv(s, a);
    SendGenuine(s, id, n);
    var c := s1.asked;
    var rest;
    rest, s' := FinishCall(s1, id, n);
    assert Genuine(s1, c) && c.data != [];
    HandleExactly(s1, c, true);
    more := [a] + rest;
    assert more[1..] == rest;
  }

  lemma {:induction false} Transfer(s: State, id: Id, n: nat) returns (more: seq<Step>, s': State)
    requires Inv(s) && !s.waiting && id in s.images && 0 < id.size <= 0x4000_0000 && n > 0
    requires Progress(s, id) <= |HeldOf(s.staging, id)| || Progress(s, id) == id.size
    ensures SmoothRun(s, more, s', id, n) && Inv(s') && id in s'.matched
    decreases id.size - Progress(s, id)
  {
    hide Handle, Genuine;
    if Progress(s, id) == id.size {
      var a := Conclude(id);
      s' := Apply(s, a);
      more := [a];
      StepKeepsInv(s, a);
      assert more[1..] == [];
    } else {
      assert |HeldOf(s.staging, id)| <= id.size;
      var first, m := Round(s, id, n);
      hide Inv, Apply, Enabled;
      var rest;
      rest, s' := Transfer(m, id, n);
      SmoothJoin(s, first, m, rest, s', id, n);
      more := first + rest;
    }
  }

  /** From every reachable state, sending the chunks of a snapshot in order with nothing
      lost ends with it installed and counted, whatever was under way. */
  lemma TransferCompletes(s: State, steps: seq<Step>, id: Id, n: nat) returns (more: seq<Step>, s': State)
    requires Reachable(s, steps) && id in s.images && 0 < id.size <= 0x4000_0000 && n > 0
    ensures SmoothRun(s, more, s', id, n) && Reachable(s', steps + more)
    ensures id in s'.matched && Installed(s', id)
  {
    hide Handle, Enabled, Apply, SmoothRun;
    Invariant(s, steps);
    more, s' := [], s;
    assert SmoothRun(s, more, s', id, n) by {
      NoSteps(s, id, n);
    }
    if s.waiting {
      more, s' := FinishCall(s, id, n);
    }
    if Progress(s', id) > |HeldOf(s'.staging, id)| && Progress(s', id) < id.size {
      var second, s2 := Round(s', id, n);
      SmoothJoin(s, more, s', second, s2, id, n);
      more, s' := more + second, s2;
    }
    assert Progress(s', id) <= id.size by {
      assert s'.sending.Sending? ==> s'.sending.sent <= s'.sending.id.size;
    }
    var last, s3 := Transfer(s', id, n);
    SmoothJoin(s, more, s', last, s3, id, n);
    more, s' := more + last, s3;
    SmoothReachable(s, steps, more, s', id, n);
  }

  lemma {:induction false} NoSteps(s: State, id: Id, n: nat)
    ensures SmoothRun(s, [], s, id, n)
  {
  }
}
