/** The replicated log of a Raft node: matching and merging of AppendEntries, commit
    advance, compaction, snapshot installation, and the state file. */
module Raft {
  import opened Bytes
  import opened Codec

  datatype Entry = Entry(index: nat, term: nat, kind: Byte, data: Bytes)

  datatype Request = Request(term: nat, leader: nat, prevIndex: nat, prevTerm: nat, entries: seq<Entry>, leaderCommit: nat)

  datatype Response = Response(term: nat, success: bool, conflictIndex: nat, conflictTerm: nat)

  /** log[i] holds absolute index base + i, and there is always a base entry. */
  ghost predicate Indexed(log: seq<Entry>, base: nat) {
    log != [] && forall i | 0 <= i < |log| :: log[i].index == base + i
  }

  predicate Holds(log: seq<Entry>, base: nat, index: nat) {
    base <= index < base + |log|
  }

  function At(log: seq<Entry>, base: nat, index: nat): Entry
    requires Holds(log, base, index)
  {
    log[index - base]
  }

  /** A leader sends consecutive entries. */
  ghost predicate Consecutive(req: Request) {
    From(req.entries, req.prevIndex + 1)
  }

  ghost predicate From(es: seq<Entry>, first: nat) {
    forall i | 0 <= i < |es| :: es[i].index == first + i
  }

  // ---------------------------------------------------------------- merging

  /** How many of the entries the tail of a log has already. */
  function Known(tail: seq<Entry>, es: seq<Entry>): (k: nat)
    ensures k <= |es| && k <= |tail|
    decreases |es|
  {
    if es == [] || tail == [] || tail[0].term != es[0].term then 0 else 1 + Known(tail[1..], es[1..])
  }

  /** Entries that are there stay with all that follows them; the first one that is
      missing or differs replaces the rest of the log. */
  function Merged(log: seq<Entry>, p: nat, es: seq<Entry>): seq<Entry>
    requires p <= |log|
  {
    var k := Known(log[p..], es);
    if k == |es| then log else log[..p + k] + es[k..]
  }

  lemma {:induction false} KnownIs(tail: seq<Entry>, es: seq<Entry>)
    ensures var k := Known(tail, es);
            && (forall i | 0 <= i < k :: tail[i].term == es[i].term)
            && (k < |es| && k < |tail| ==> tail[k].term != es[k].term)
    decreases |es|
  {
    if !(es == [] || tail == [] || tail[0].term != es[0].term) {
      KnownIs(tail[1..], es[1..]);
      forall i | 0 < i < Known(tail, es) ensures tail[i].term == es[i].term {
        assert tail[1..][i - 1].term == es[1..][i - 1].term;
      }
    }
  }

  lemma {:induction false} KnownUnique(tail: seq<Entry>, es: seq<Entry>, k: nat)
    requires k <= |tail| && k <= |es| && forall i | 0 <= i < k :: tail[i].term == es[i].term
    requires k < |es| && k < |tail| ==> tail[k].term != es[k].term
    ensures Known(tail, es) == k
    decreases |es|
  {
    if k > 0 {
      KnownUnique(tail[1..], es[1..], k - 1);
    }
  }

  /** Delivering the same entries again changes nothing. */
  lemma Redelivery(log: seq<Entry>, p: nat, es: seq<Entry>)
    requires p <= |log|
    ensures p <= |Merged(log, p, es)| && Merged(Merged(log, p, es), p, es) == Merged(log, p, es)
  {
    KnownIs(log[p..], es);
    var k, log' := Known(log[p..], es), Merged(log, p, es);
    if k < |es| {
      assert log'[p..] == log[p..][..k] + es[k..];
      KnownUnique(log'[p..], es, |es|);
    }
  }

  // ---------------------------------------------------------------- log matching

  /** Where two logs have the same term at an index, they agree up to it. */
  ghost predicate Matching(f: seq<Entry>, fb: nat, l: seq<Entry>, lb: nat) {
    forall i: nat, j: nat | Holds(f, fb, i) && Holds(l, lb, i) && At(f, fb, i).term == At(l, lb, i).term
                  && j <= i && Holds(f, fb, j) && Holds(l, lb, j) ::
      At(f, fb, j) == At(l, lb, j)
  }

  /** The request quotes the leader's log. */
  ghost predicate Quotes(req: Request, l: seq<Entry>, lb: nat) {
    && Holds(l, lb, req.prevIndex) && At(l, lb, req.prevIndex).term == req.prevTerm
    && forall i: nat | req.prevIndex < i <= req.prevIndex + |req.entries| ::
         Holds(l, lb, i) && req.entries[i - req.prevIndex - 1] == At(l, lb, i)
  }

  /** After a successful AppendEntries the follower agrees with the leader up to the
      last entry sent, and log matching still holds between them. */
  lemma MatchingKept(f: seq<Entry>, fb: nat, l: seq<Entry>, lb: nat, req: Request)
    requires Matching(f, fb, l, lb) && Quotes(req, l, lb)
    requires Holds(f, fb, req.prevIndex) && At(f, fb, req.prevIndex).term == req.prevTerm
    ensures var f' := Merged(f, req.prevIndex + 1 - fb, req.entries);
            && Matching(f', fb, l, lb)
            && forall i: nat | fb <= i <= req.prevIndex + |req.entries| ::
                 Holds(f', fb, i) && (Holds(l, lb, i) ==> At(f', fb, i) == At(l, lb, i))
  {
    var p, es := req.prevIndex + 1 - fb, req.entries;
    var f' := Merged(f, p, es);
    forall i: nat | fb <= i <= req.prevIndex + |es|
      ensures Holds(f', fb, i) && (Holds(l, lb, i) ==> At(f', fb, i) == At(l, lb, i))
    {
      AgreesAt(f, fb, l, lb, req, i);
    }
    forall i: nat, j: nat | Holds(f', fb, i) && Holds(l, lb, i) && At(f', fb, i).term == At(l, lb, i).term
                  && j <= i && Holds(f', fb, j) && Holds(l, lb, j)
      ensures At(f', fb, j) == At(l, lb, j)
    {
      if i > req.prevIndex + |es| {
        assert f' == f;
      }
    }
  }

  lemma AgreesAt(f: seq<Entry>, fb: nat, l: seq<Entry>, lb: nat, req: Request, i: nat)
    requires Matching(f, fb, l, lb) && Quotes(req, l, lb)
    requires Holds(f, fb, req.prevIndex) && At(f, fb, req.prevIndex).term == req.prevTerm
    requires fb <= i <= req.prevIndex + |req.entries|
    ensures var f' := Merged(f, req.prevIndex + 1 - fb, req.entries);
            Holds(f', fb, i) && (Holds(l, lb, i) ==> At(f', fb, i) == At(l, lb, i))
  {
    hide Known, Matching, Quotes, Merged;
    var p, es := req.prevIndex + 1 - fb, req.entries;
    var f' := Merged(f, p, es);
    MergedShape(f, p, es);
    if i > req.prevIndex {
      var n := i - req.prevIndex - 1;
      QuotedAt(req, l, lb, i);
      if n < Known(f[p..], es) {
        assert f'[p + n] == f[p + n] == At(f, fb, i);
        MatchedAt(f, fb, l, lb, i, i);
      } else {
        assert f'[p + n] == es[n];
      }
    } else {
      assert f'[i - fb] == f[i - fb];
      if Holds(l, lb, i) {
        QuotedPrev(req, l, lb);
        MatchedAt(f, fb, l, lb, req.prevIndex, i);
      }
    }
  }

  lemma QuotedAt(req: Request, l: seq<Entry>, lb: nat, i: nat)
    requires Quotes(req, l, lb) && req.prevIndex < i <= req.prevIndex + |req.entries|
    ensures Holds(l, lb, i) && req.entries[i - req.prevIndex - 1] == At(l, lb, i)
  {
  }

  lemma QuotedPrev(req: Request, l: seq<Entry>, lb: nat)
    requires Quotes(req, l, lb)
    ensures Holds(l, lb, req.prevIndex) && At(l, lb, req.prevIndex).term == req.prevTerm
  {
  }

  lemma MatchedAt(f: seq<Entry>, fb: nat, l: seq<Entry>, lb: nat, i: nat, j: nat)
    requires Matching(f, fb, l, lb) && Holds(f, fb, i) && Holds(l, lb, i) && At(f, fb, i).term == At(l, lb, i).term
    requires j <= i && Holds(f, fb, j) && Holds(l, lb, j)
    ensures At(f, fb, j) == At(l, lb, j)
  {
  }

  /** Position by position, the merge is the old log or the entries. */
  lemma {:induction false} MergedShape(log: seq<Entry>, p: nat, es: seq<Entry>)
    requires p <= |log|
    ensures var k, m := Known(log[p..], es), Merged(log, p, es);
            && p + k <= |log| && p + |es| <= |m|
            && (forall i | 0 <= i < p + k :: m[i] == log[i])
            && (forall n | 0 <= n < k :: es[n].term == log[p + n].term)
            && (forall n | k <= n < |es| :: es[n] == m[p + n])
  {
    hide Known;
    var k, m := Known(log[p..], es), Merged(log, p, es);
    KnownIs(log[p..], es);
    forall n | 0 <= n < k ensures es[n].term == log[p + n].term {
      assert log[p..][n] == log[p + n];
    }
    if k < |es| {
      assert m == log[..p + k] + es[k..];
      forall n | k <= n < |es| ensures es[n] == m[p + n] {
        assert m[p + n] == es[k..][n - k];
      }
    }
  }

  // ---------------------------------------------------------------- commit of a follower

  function Min(a: nat, b: nat): nat {
    if a < b then a else b
  }

  function LastIndex(log: seq<Entry>, base: nat): nat
    requires log != []
  {
    base + |log| - 1
  }

  /** A log a node can hold in a term: no entry is of a later term, and terms never fall. */
  ghost predicate Ordered(log: seq<Entry>, base: nat, term: nat) {
    && Indexed(log, base)
    && (forall i | 0 <= i < |log| :: log[i].term <= term)
    && (forall i, j | 0 <= i <= j < |log| :: log[i].term <= log[j].term)
  }

  /** A leader log the request could come from: it holds what the request quotes, it
      reaches the commit index it announces, and log matching holds with the follower. */
  ghost predicate Possible(l: seq<Entry>, f: seq<Entry>, base: nat, req: Request) {
    && Ordered(l, base, req.term) && req.leaderCommit <= LastIndex(l, base)
    && Matching(f, base, l, base) && Quotes(req, l, base)
  }

  /** Entries of the request's own term were created by its leader, so they are in its log. */
  ghost predicate OwnTerm(l: seq<Entry>, f: seq<Entry>, base: nat, term: nat) {
    forall i: nat | Holds(f, base, i) && At(f, base, i).term == term :: Holds(l, base, i) && At(l, base, i) == At(f, base, i)
  }

  ghost predicate AgreeUpTo(f: seq<Entry>, l: seq<Entry>, base: nat, commit: nat) {
    forall i: nat | base <= i <= commit && Holds(f, base, i) && Holds(l, base, i) :: At(f, base, i) == At(l, base, i)
  }

  /** The request as the follower meets it: its own log is ordered, it has the previous
      entry, and at least one leader log fits. */
  ghost predicate Met(f: seq<Entry>, base: nat, req: Request, l0: seq<Entry>) {
    && Ordered(f, base, req.term) && Possible(l0, f, base, req)
    && Holds(f, base, req.prevIndex) && At(f, base, req.prevIndex).term == req.prevTerm
  }

  /** The follower's commit rule bounds by its own last entry, not by the last entry of
      the request. What it commits agrees with every leader log the request could come
      from exactly when the bound stays within the request, or the last entry the request
      vouches for is of the leader's term. */
  lemma CommitAgreesExactly(f: seq<Entry>, base: nat, req: Request, l0: seq<Entry>)
    requires Met(f, base, req, l0)
    ensures var f', m := Merged(f, req.prevIndex + 1 - base, req.entries), req.prevIndex + |req.entries|;
            Holds(f', base, m) &&
            var commit := Min(req.leaderCommit, LastIndex(f', base));
            ((forall l | Possible(l, f, base, req) :: AgreeUpTo(f', l, base, commit))
             <==> commit <= m || At(f', base, m).term == req.term)
  {
    hide Matching, Quotes, Known, Merged, Ordered, AgreeUpTo;
    var m := req.prevIndex + |req.entries|;
    var f' := Merged(f, req.prevIndex + 1 - base, req.entries);
    MatchingKept(f, base, l0, base, req);
    assert Holds(f', base, m);
    var commit := Min(req.leaderCommit, LastIndex(f', base));
    if commit <= m || At(f', base, m).term == req.term {
      forall l | Possible(l, f, base, req) ensures AgreeUpTo(f', l, base, commit) {
        CommitAgrees(f, base, req, l);
      }
    } else {
      UnchangedBeyond(f, base, req, l0);
      var l := Rival(f, base, req, l0, commit);
    }
  }

  /** When the follower's entries of the leader's term are known to come from it, the
      condition is weaker: it is enough that the follower's last entry is of that term. */
  lemma CommitAgreesWithinTerm(f: seq<Entry>, base: nat, req: Request, l0: seq<Entry>)
    requires Met(f, base, req, l0) && OwnTerm(l0, f, base, req.term)
    ensures var f', m := Merged(f, req.prevIndex + 1 - base, req.entries), req.prevIndex + |req.entries|;
            Holds(f', base, m) &&
            var commit := Min(req.leaderCommit, LastIndex(f', base));
            ((forall l | Possible(l, f, base, req) && OwnTerm(l, f, base, req.term) :: AgreeUpTo(f', l, base, commit))
             <==> commit <= m || f'[|f'| - 1].term == req.term)
  {
    hide Matching, Quotes, Known, Merged, AgreeUpTo;
    var m := req.prevIndex + |req.entries|;
    var f' := Merged(f, req.prevIndex + 1 - base, req.entries);
    MatchingKept(f, base, l0, base, req);
    assert Holds(f', base, m);
    var commit := Min(req.leaderCommit, LastIndex(f', base));
    if commit <= m {
      forall l | Possible(l, f, base, req) ensures AgreeUpTo(f', l, base, commit) {
        CommitAgrees(f, base, req, l);
      }
    } else {
      UnchangedBeyond(f, base, req, l0);
      var last := LastIndex(f, base);
      if At(f, base, last).term == req.term {
        forall l | Possible(l, f, base, req) && OwnTerm(l, f, base, req.term) ensures AgreeUpTo(f', l, base, commit) {
          assert Holds(l, base, last) && At(l, base, last) == At(f, base, last);
          AgreeBelow(f, base, l, last, commit);
        }
      } else {
        assert forall i | 0 <= i < |f| :: f[i].term < req.term;
        var l := Rival(f, base, req, l0, commit);
      }
    }
  }

  lemma AgreeBelow(f: seq<Entry>, base: nat, l: seq<Entry>, i: nat, commit: nat)
    requires Matching(f, base, l, base) && Holds(f, base, i) && Holds(l, base, i) && At(f, base, i).term == At(l, base, i).term
    requires commit <= i
    ensures AgreeUpTo(f, l, base, commit)
  {
    hide Matching;
    forall j: nat | base <= j <= commit && Holds(f, base, j) && Holds(l, base, j) ensures At(f, base, j) == At(l, base, j) {
      MatchedAt(f, base, l, base, i, j);
    }
  }

  /** A log that reaches beyond the request is the log from before it. */
  lemma UnchangedBeyond(f: seq<Entry>, base: nat, req: Request, l0: seq<Entry>)
    requires Met(f, base, req, l0)
    requires |Merged(f, req.prevIndex + 1 - base, req.entries)| > req.prevIndex + |req.entries| + 1 - base
    ensures Merged(f, req.prevIndex + 1 - base, req.entries) == f
  {
    var p := req.prevIndex + 1 - base;
    assert Known(f[p..], req.entries) == |req.entries|;
  }

  lemma CommitAgrees(f: seq<Entry>, base: nat, req: Request, l: seq<Entry>)
    requires Met(f, base, req, l)
    ensures var f', m := Merged(f, req.prevIndex + 1 - base, req.entries), req.prevIndex + |req.entries|;
            Holds(f', base, m) &&
            var commit := Min(req.leaderCommit, LastIndex(f', base));
            commit <= m || At(f', base, m).term == req.term ==> AgreeUpTo(f', l, base, commit)
  {
    hide Known, Quotes, Merged, Matching;
    var m := req.prevIndex + |req.entries|;
    var f' := Merged(f, req.prevIndex + 1 - base, req.entries);
    MatchingKept(f, base, l, base, req);
    assert Holds(f', base, m);
    var commit := Min(req.leaderCommit, LastIndex(f', base));
    if commit > m && At(f', base, m).term == req.term {
      UnchangedBeyond(f, base, req, l);
      QuotedEnd(req, l, base);
      assert At(f, base, m) == At(l, base, m);
      assert At(l, base, commit).term == req.term == At(f, base, commit).term;
      AgreeBelow(f, base, l, commit, commit);
    }
  }

  lemma QuotedEnd(req: Request, l: seq<Entry>, base: nat)
    requires Quotes(req, l, base)
    ensures Holds(l, base, req.prevIndex + |req.entries|)
  {
    if req.entries != [] {
      assert Holds(l, base, req.prevIndex + |req.entries|);
    }
  }

  /** The first `k` entries of a log, then entries of one term. */
  function Refilled(f: seq<Entry>, base: nat, k: nat, term: nat, len: nat): seq<Entry>
    requires k <= |f| && k <= len
  {
    f[..k] + seq(len - k, (i: nat) => Entry(base + k + i, term, 0, []))
  }

  /** A leader log that fits the same request and differs below the commit index: it
      follows the follower's log until the first place where it can leave it. When the
      follower has no entry of the leader's term, every such entry is in it. */
  lemma Rival(f: seq<Entry>, base: nat, req: Request, l0: seq<Entry>, commit: nat) returns (l: seq<Entry>)
    requires Met(f, base, req, l0) && Merged(f, req.prevIndex + 1 - base, req.entries) == f
    requires req.prevIndex + |req.entries| < commit == Min(req.leaderCommit, LastIndex(f, base))
    requires At(f, base, req.prevIndex + |req.entries|).term != req.term
    ensures Possible(l, f, base, req) && !AgreeUpTo(f, l, base, commit)
    ensures (forall i | 0 <= i < |f| :: f[i].term < req.term) ==> OwnTerm(l, f, base, req.term)
  {
    var m, len := req.prevIndex + |req.entries|, req.leaderCommit + 1 - base;
    var k, term := commit - base, req.term;
    if f[k].term == req.term {
      k := m + 1 - base;
      while f[k].term != req.term
        invariant m + 1 - base <= k <= commit - base && f[k - 1].term != req.term
        decreases |f| - k
      {
        k := k + 1;
      }
      term := f[k - 1].term;
    }
    assert forall i | k <= i < |f| && i < len :: f[i].term != term;
    l := Refilled(f, base, k, term, len);
    RefilledOrdered(f, base, k, term, len, req.term);
    RefilledMatches(f, base, k, term, len);
    RefilledQuotes(f, base, req, l0, k, term, len);
    assert l[k].term == term && f[k].term != term;
    assert Holds(f, base, base + k) && Holds(l, base, base + k) && At(f, base, base + k) != At(l, base, base + k);
  }

  lemma RefilledOrdered(f: seq<Entry>, base: nat, k: nat, term: nat, len: nat, bound: nat)
    requires Ordered(f, base, bound) && 0 < k <= |f| && k <= len && f[k - 1].term <= term <= bound
    ensures Ordered(Refilled(f, base, k, term, len), base, bound)
  {
    var l := Refilled(f, base, k, term, len);
    assert forall i | 0 <= i < k :: l[i] == f[i];
    assert forall i | k <= i < len :: l[i] == Entry(base + i, term, 0, []);
  }

  lemma RefilledMatches(f: seq<Entry>, base: nat, k: nat, term: nat, len: nat)
    requires k <= |f| && k <= len && forall i | k <= i < |f| && i < len :: f[i].term != term
    ensures Matching(f, base, Refilled(f, base, k, term, len), base)
  {
    var l := Refilled(f, base, k, term, len);
    assert forall i | 0 <= i < k :: l[i] == f[i];
    assert forall i | k <= i < len :: l[i].term == term;
  }

  lemma RefilledQuotes(f: seq<Entry>, base: nat, req: Request, l0: seq<Entry>, k: nat, term: nat, len: nat)
    requires Met(f, base, req, l0) && Merged(f, req.prevIndex + 1 - base, req.entries) == f
    requires req.prevIndex + |req.entries| + 1 - base <= k <= |f| && k <= len
    ensures Quotes(req, Refilled(f, base, k, term, len), base)
  {
    hide Known, Merged, Matching, Ordered;
    var l := Refilled(f, base, k, term, len);
    MatchingKept(f, base, l0, base, req);
    assert forall i | 0 <= i < k :: l[i] == f[i];
    forall i: nat | req.prevIndex < i <= req.prevIndex + |req.entries|
      ensures Holds(l, base, i) && req.entries[i - req.prevIndex - 1] == At(l, base, i)
    {
      assert Holds(l0, base, i) && req.entries[i - req.prevIndex - 1] == At(l0, base, i);
    }
  }

  /** Such a commit happens: a heartbeat that proves nothing beyond index 1 commits a
      stale entry at index 2. */
  lemma StaleEntryCommitted()
    ensures var f := [Entry(0, 0, 0, []), Entry(1, 1, 0, []), Entry(2, 1, 0, [])];
            var l := [Entry(0, 0, 0, []), Entry(1, 1, 0, []), Entry(2, 2, 0, [])];
            var req := Request(2, 9, 1, 1, [], 2);
            && Met(f, 0, req, l) && OwnTerm(l, f, 0, 2) && Merged(f, 2, []) == f
            && Min(req.leaderCommit, LastIndex(f, 0)) == 2 && At(f, 0, 2) != At(l, 0, 2)
  {
  }

  // ---------------------------------------------------------------- commit of a leader

  datatype Peer = Peer(id: nat, voter: bool)

  /** The other voters that are known to hold index `n`, by their place in the configuration. */
  ghost function Holders(peers: seq<Peer>, matched: seq<nat>, self: nat, n: nat): set<nat>
    requires |peers| == |matched|
  {
    set i: nat | i < |peers| && peers[i].id != self && peers[i].voter && matched[i] >= n
  }

  /** The local node and the voters that hold index `n`. */
  ghost function Replicas(peers: seq<Peer>, matched: seq<nat>, self: nat, n: nat): nat
    requires |peers| == |matched|
  {
    1 + |Holders(peers, matched, self, n)|
  }

  ghost function VotingEntries(peers: seq<Peer>): set<nat> {
    set i: nat | i < |peers| && peers[i].voter
  }

  ghost function VoterIds(peers: seq<Peer>): set<nat> {
    set i: nat | i < |peers| && peers[i].voter :: peers[i].id
  }

  ghost predicate SelfVotes(peers: seq<Peer>, self: nat) {
    self in VoterIds(peers)
  }

  /** What the code takes a majority of: the voting entries, and the local node when no
      voting entry names it. */
  ghost function Voters(peers: seq<Peer>, self: nat): nat {
    |VotingEntries(peers)| + if SelfVotes(peers, self) then 0 else 1
  }

  ghost function Majority(peers: seq<Peer>, self: nat): nat {
    Voters(peers, self) / 2 + 1
  }

  lemma Subset<T>(a: set<T>, b: set<T>)
    requires a <= b
    ensures |a| <= |b|
  {
    assert b == a + (b - a);
  }

  /** An index further up is held by no more voters. */
  lemma ReplicasFall(peers: seq<Peer>, matched: seq<nat>, self: nat, n: nat, m: nat)
    requires |peers| == |matched| && n <= m
    ensures Replicas(peers, matched, self, m) <= Replicas(peers, matched, self, n)
  {
    Subset(Holders(peers, matched, self, m), Holders(peers, matched, self, n));
  }

  method CountReplicas(peers: seq<Peer>, matched: seq<nat>, self: nat, n: nat) returns (count: nat)
    requires |peers| == |matched|
    ensures count == 1 + |set i: nat | i < |peers| && peers[i].id != self && peers[i].voter && matched[i] >= n|
    ensures count == Replicas(peers, matched, self, n)
  {
    count := 1;
    ghost var seen: set<nat> := {};
    for i := 0 to |peers|
      invariant seen == set j: nat | j < i && peers[j].id != self && peers[j].voter && matched[j] >= n
      invariant count == 1 + |seen|
    {
      if peers[i].id != self && peers[i].voter && matched[i] >= n {
        count := count + 1;
        seen := seen + {i};
      }
    }
    assert seen == Holders(peers, matched, self, n);
  }

  method CountVoters(peers: seq<Peer>, self: nat) returns (majority: nat)
    ensures majority == Majority(peers, self)
  {
    var voters, counted := 0, false;
    ghost var seen: set<nat> := {};
    for i := 0 to |peers|
      invariant seen == set j: nat | j < i && peers[j].voter
      invariant voters == |seen|
      invariant counted <==> exists j: nat | j < i :: peers[j].voter && peers[j].id == self
    {
      if peers[i].voter {
        voters := voters + 1;
        seen := seen + {i};
        if peers[i].id == self {
          counted := true;
        }
      }
    }
    assert seen == VotingEntries(peers);
    if counted {
      var j: nat :| j < |peers| && peers[j].voter && peers[j].id == self;
      assert j in seen;
    }
    if !counted {
      voters := voters + 1;
    }
    if voters == 0 {
      voters := voters + 1;
    }
    majority := voters / 2 + 1;
  }

  /** No node is listed as a voter twice. */
  ghost predicate ListedOnce(peers: seq<Peer>) {
    forall i, j | 0 <= i < j < |peers| && peers[i].voter && peers[j].voter :: peers[i].id != peers[j].id
  }

  /** The majority is one of the cluster, the nodes that vote together with the local one,
      exactly when no node is listed as a voter twice; an entry that repeats a node counts
      again. */
  lemma {:induction false} VotersAreNodes(peers: seq<Peer>, self: nat)
    ensures Voters(peers, self) >= |VoterIds(peers) + {self}|
    ensures Voters(peers, self) == |VoterIds(peers) + {self}| <==> ListedOnce(peers)
  {
    EntriesAndIds(peers);
    if SelfVotes(peers, self) {
      assert VoterIds(peers) + {self} == VoterIds(peers);
    }
  }

  lemma {:induction false} EntriesAndIds(peers: seq<Peer>)
    ensures |VotingEntries(peers)| >= |VoterIds(peers)|
    ensures |VotingEntries(peers)| == |VoterIds(peers)| <==> ListedOnce(peers)
  {
    if peers != [] {
      var k := |peers| - 1;
      EntriesAndIds(peers[..k]);
      EntriesNext(peers);
      IdsNext(peers);
      ListedNext(peers);
      hide VotingEntries, VoterIds, ListedOnce;
      if peers[k].voter && peers[k].id in VoterIds(peers[..k]) {
        assert VoterIds(peers) == VoterIds(peers[..k]);
      }
    }
  }

  lemma EntriesNext(peers: seq<Peer>)
    requires peers != []
    ensures |VotingEntries(peers)| == |VotingEntries(peers[..|peers| - 1])| + if peers[|peers| - 1].voter then 1 else 0
  {
    var k := |peers| - 1;
    assert VotingEntries(peers) == VotingEntries(peers[..k]) + if peers[k].voter then {k} else {};
  }

  lemma ListedNext(peers: seq<Peer>)
    requires peers != []
    ensures ListedOnce(peers) <==>
            ListedOnce(peers[..|peers| - 1]) &&
            (peers[|peers| - 1].voter ==> peers[|peers| - 1].id !in VoterIds(peers[..|peers| - 1]))
  {
    var k := |peers| - 1;
    var front := peers[..k];
    assert forall i | 0 <= i < k :: front[i] == peers[i];
    if peers[k].voter && peers[k].id in VoterIds(front) {
      var i: nat :| i < k && front[i].voter && front[i].id == peers[k].id;
      assert !ListedOnce(peers);
    } else if ListedOnce(front) {
      forall i, j | 0 <= i < j < |peers| && peers[i].voter && peers[j].voter ensures peers[i].id != peers[j].id {
        assert front[i].id in VoterIds(front);
      }
    }
  }

  lemma IdsNext(peers: seq<Peer>)
    requires peers != []
    ensures VoterIds(peers) == VoterIds(peers[..|peers| - 1]) +
                               if peers[|peers| - 1].voter then {peers[|peers| - 1].id} else {}
  {
    var k := |peers| - 1;
    var front := peers[..k];
    forall id | id in VoterIds(peers) ensures id in VoterIds(front) || (peers[k].voter && id == peers[k].id) {
      var i: nat :| i < |peers| && peers[i].voter && peers[i].id == id;
      assert i < k ==> front[i] == peers[i];
    }
    forall id | id in VoterIds(front) ensures id in VoterIds(peers) {
      var i: nat :| i < k && front[i].voter && front[i].id == id;
      assert peers[i] == front[i];
    }
  }

  /** An index a leader may commit: of its own term and on a majority. */
  ghost predicate Committable(log: seq<Entry>, base: nat, term: nat, peers: seq<Peer>, matched: seq<nat>, self: nat, n: nat)
    requires |peers| == |matched|
  {
    Holds(log, base, n) && At(log, base, n).term == term && Replicas(peers, matched, self, n) >= Majority(peers, self)
  }

  // ---------------------------------------------------------------- the node

  class Node {
    var term: nat
    var votedFor: nat
    var leader: nat
    var follower: bool
    var log: seq<Entry>
    var base: nat
    var commit: nat
    var applied: nat
    var snapIndex: nat
    var snapTerm: nat

    ghost predicate Valid()
      reads this
    {
      Indexed(log, base)
    }

    constructor ()
      ensures Valid() && base == 0 && commit == 0 && log == [Entry(0, 0, 0, [])]
      ensures term == 0 && votedFor == 0 && leader == 0 && follower && applied == 0 && snapIndex == 0 && snapTerm == 0
    {
      term, votedFor, leader, follower := 0, 0, 0, true;
      log, base, commit, applied, snapIndex, snapTerm := [Entry(0, 0, 0, [])], 0, 0, 0, 0, 0;
    }

    /** The entries of a request, one after the other: known ones are skipped, a
        conflicting one cuts the log, one that would leave a gap ends the loop. */
    method TakeEntries(entries: seq<Entry>, ghost p: nat) returns (ok: bool)
      requires Valid()
      modifies `log
      ensures Valid()
      ensures p <= |old(log)| && From(entries, base + p) ==> ok && log == Merged(old(log), p, entries)
      ensures ok <==> GapAt(old(log), base, entries) == |entries|
      ensures Some(log) == TakenAll(old(log), base, entries[..GapAt(old(log), base, entries)])
    {
      ghost var log0 := log;
      EmptyMerge(log0);
      for n := 0 to |entries|
        invariant Valid()
        invariant TakenAll(log0, base, entries[..n]) == Some(log)
        invariant p <= |log0| && From(entries, base + p) ==> log == Merged(log0, p, entries[..n])
      {
        hide Merged, From, Indexed, Taken;
        var next := Taken(log, base, entries[n]);
        TakenIndexed(log, base, entries[n]);
        if p <= |log0| && From(entries, base + p) {
          TakenMerges(log0, base, p, entries, n);
        }
        assert entries[..n + 1][..n] == entries[..n];
        if next.None? {
          GapFound(log0, base, entries, n);
          return false;
        }
        log := next.value;
      }
      assert entries[..|entries|] == entries;
      GapFound(log0, base, entries, |entries|);
      ok := true;
    }

    /** The backward scan to the first index of the term at `index`. */
    method FirstOfTerm(index: nat) returns (at: nat)
      requires Holds(log, base, index)
      ensures FirstOfRun(log, base, at, index, At(log, base, index).term)
    {
      at := index;
      while at > base && log[at - base - 1].term == log[index - base].term
        invariant base <= at <= index
        invariant forall i: nat | at <= i <= index :: At(log, base, i).term == At(log, base, index).term
      {
        at := at - 1;
      }
    }

    /** HandleAppendEntries. */
    method HandleAppendEntries(req: Request) returns (resp: Response)
      requires Valid()
      modifies this
      ensures Valid() && base == old(base) && snapIndex == old(snapIndex)
      ensures term == if req.term > old(term) then req.term else old(term)
      ensures req.term < old(term) ==> !resp.success && log == old(log) && votedFor == old(votedFor)
      ensures req.term >= old(term) ==> follower && leader == req.leader && votedFor == 0
      ensures !resp.success ==> commit == old(commit)
      ensures resp.term == if resp.success then term else old(term)
      ensures resp.success ==> Matches(old(log), base, old(term), snapIndex, req)
      ensures req.entries == [] || (Consecutive(req) && base <= req.prevIndex) ==>
                (resp.success <==> Matches(old(log), base, old(term), snapIndex, req))
      ensures Consecutive(req) && !resp.success && base <= req.prevIndex ==> log == old(log)
      ensures Consecutive(req) && resp.success && base <= req.prevIndex ==>
                && req.prevIndex + 1 - base <= |old(log)|
                && log == Merged(old(log), req.prevIndex + 1 - base, req.entries)
      ensures resp.success ==>
                commit == if req.leaderCommit > old(commit) then Min(req.leaderCommit, LastIndex(log, base)) else old(commit)
      ensures req.term >= old(term) && req.prevIndex < snapIndex ==> !resp.success && resp.conflictIndex == snapIndex + 1
      ensures req.term >= old(term) && req.prevIndex >= snapIndex && req.prevIndex > 0 && !Holds(old(log), base, req.prevIndex) ==>
                !resp.success && resp.conflictIndex == LastIndex(old(log), base) + 1
      ensures req.term >= old(term) && req.prevIndex >= snapIndex && req.prevIndex > 0 && Holds(old(log), base, req.prevIndex)
              && At(old(log), base, req.prevIndex).term != req.prevTerm ==>
                && !resp.success && resp.conflictTerm == At(old(log), base, req.prevIndex).term
                && FirstOfRun(old(log), base, resp.conflictIndex, req.prevIndex, resp.conflictTerm)
      ensures Matches(old(log), base, old(term), snapIndex, req) ==>
                && (resp.success <==> GapAt(old(log), base, req.entries) == |req.entries|)
                && Some(log) == TakenAll(old(log), base, req.entries[..GapAt(old(log), base, req.entries)])
                && (!resp.success ==> resp.conflictIndex == base + |log|)
      ensures !Matches(old(log), base, old(term), snapIndex, req) ==> log == old(log)
      ensures resp.conflictTerm > 0 ==>
                && !resp.success && Holds(old(log), base, req.prevIndex)
                && At(old(log), base, req.prevIndex).term == resp.conflictTerm != req.prevTerm
    {
      hide Merged, From, FirstOfRun, TakenAll, Taken;
      NothingTaken(log, base);
      EmptyMerge(log);
      resp := Response(term, false, 0, 0);
      if req.term < term {
        return;
      }
      term, votedFor, follower, leader := req.term, 0, true, req.leader;
      if req.prevIndex < snapIndex {
        return resp.(conflictIndex := snapIndex + 1);
      }
      if req.prevIndex > 0 {
        if !Holds(log, base, req.prevIndex) {
          return resp.(conflictIndex := LastIndex(log, base) + 1);
        }
        var existing := At(log, base, req.prevIndex);
        if existing.term != req.prevTerm {
          var at := FirstOfTerm(req.prevIndex);
          return resp.(conflictIndex := at, conflictTerm := existing.term);
        }
      }
      if req.entries != [] {
        var ok := TakeEntries(req.entries, if base <= req.prevIndex then req.prevIndex + 1 - base else 0);
        if !ok {
          return resp.(conflictIndex := base + |log|);
        }
      }
      if req.leaderCommit > commit {
        commit := Min(req.leaderCommit, LastIndex(log, base));
      }
      resp := Response(term, true, 0, 0);
    }

    /** AdvanceCommitIndex: the largest index of the current term that a majority has. */
    method AdvanceCommitIndex(peers: seq<Peer>, matched: seq<nat>, self: nat)
      requires Valid() && |peers| == |matched|
      modifies `commit
      ensures commit >= old(commit) && (follower ==> commit == old(commit))
      ensures commit > old(commit) ==> Committable(log, base, term, peers, matched, self, commit)
      ensures !follower ==> forall n: nat | commit < n :: !Committable(log, base, term, peers, matched, self, n)
    {
      if follower {
        return;
      }
      var last, n := LastIndex(log, base), commit + 1;
      while n <= last
        invariant old(commit) <= commit < n
        invariant commit > old(commit) ==> Committable(log, base, term, peers, matched, self, commit)
        invariant forall i: nat | commit < i < n :: !Committable(log, base, term, peers, matched, self, i)
      {
        if Holds(log, base, n) && At(log, base, n).term == term {
          var count := CountReplicas(peers, matched, self, n);
          var majority := CountVoters(peers, self);
          if count < majority {
            forall i: nat | n <= i ensures !Committable(log, base, term, peers, matched, self, i) {
              ReplicasFall(peers, matched, self, n, i);
            }
            return;
          }
          commit := n;
        }
        n := n + 1;
      }
    }

    /** CompactLog keeps the entry at the snapshot and nothing else, so it loses no
        entry behind the snapshot exactly when there is none. */
    method CompactLog(index: nat)
      requires Valid()
      modifies `log, `base
      ensures Valid()
      ensures if index == 0 || !Holds(old(log), old(base), index) then log == old(log) && base == old(base)
              else base == index && log == [At(old(log), old(base), index)]
      ensures (forall i: nat | Holds(old(log), old(base), i) && index <= i :: Holds(log, base, i))
              <==> index == 0 || !Holds(old(log), old(base), index) || index == LastIndex(old(log), old(base))
    {
      if index == 0 || !Holds(log, base, index) {
        return;
      }
      assert index < LastIndex(log, base) ==> Holds(log, base, index + 1);
      log := [At(log, base, index)];
      base := index;
      assert !Holds(log, base, index + 1);
    }

    /** CommitInstalledSnapshot: the log becomes one base entry at the cut. */
    method CommitInstalledSnapshot(index: nat, cutTerm: nat)
      modifies this
      ensures Valid() && base == index && log == [Entry(index, cutTerm, NOOP, [])]
      ensures commit == index && applied == index && snapIndex == index && snapTerm == cutTerm
      ensures term == old(term) && votedFor == old(votedFor)
    {
      log, base := [Entry(index, cutTerm, NOOP, [])], index;
      commit, applied, snapIndex, snapTerm := index, index, index, cutTerm;
    }
  }

  /** One entry of a request: skipped, replacing a conflicting tail, appended, or
      refused because it would leave a gap. */
  function Taken(log: seq<Entry>, base: nat, e: Entry): Option<seq<Entry>> {
    if Holds(log, base, e.index) && At(log, base, e.index).term == e.term then Some(log)
    else
      var cut := if Holds(log, base, e.index) then log[..e.index - base] else log;
      if e.index != base + |cut| then None else Some(cut + [e])
  }

  /** The entries one after the other; None once one of them is refused. */
  function TakenAll(log: seq<Entry>, base: nat, es: seq<Entry>): Option<seq<Entry>> {
    if es == [] then Some(log)
    else
      var n := |es| - 1;
      var r := TakenAll(log, base, es[..n]);
      if r.None? then None else Taken(r.value, base, es[n])
  }

  /** How many entries are taken before one would leave a gap. */
  function GapAt(log: seq<Entry>, base: nat, es: seq<Entry>): (n: nat)
    ensures n <= |es| && TakenAll(log, base, es[..n]).Some?
  {
    if es == [] then 0
    else
      var k := |es| - 1;
      var n := GapAt(log, base, es[..k]);
      assert es[..k][..n] == es[..n] && es[..|es|] == es;
      if n < k || TakenAll(log, base, es).None? then n else k + 1
  }

  lemma {:induction false} GapFound(log: seq<Entry>, base: nat, es: seq<Entry>, n: nat)
    requires n <= |es| && TakenAll(log, base, es[..n]).Some? && (n < |es| ==> TakenAll(log, base, es[..n + 1]).None?)
    ensures GapAt(log, base, es) == n
  {
    hide Taken;
    if es != [] {
      var k := |es| - 1;
      assert es[..|es|] == es;
      if n < k {
        assert es[..k][..n] == es[..n] && es[..k][..n + 1] == es[..n + 1];
        GapFound(log, base, es[..k], n);
      } else {
        assert es[..k][..k] == es[..k];
        assert n == k + 1 ==> TakenAll(log, base, es[..k]).Some?;
        GapFound(log, base, es[..k], k);
      }
    }
  }

  lemma {:induction false} NothingTaken(log: seq<Entry>, base: nat)
    ensures TakenAll(log, base, []) == Some(log)
  {
  }

  /** An entry is refused exactly when it is not in the log nor the next one behind it. */
  lemma RefusedIsGap(log: seq<Entry>, base: nat, e: Entry)
    requires Indexed(log, base)
    ensures Taken(log, base, e).None? <==> e.index < base || e.index > LastIndex(log, base) + 1
  {
  }

  lemma TakenIndexed(log: seq<Entry>, base: nat, e: Entry)
    requires Indexed(log, base)
    ensures Taken(log, base, e).Some? ==> Indexed(Taken(log, base, e).value, base)
  {
  }

  lemma TakenMerges(log: seq<Entry>, base: nat, p: nat, es: seq<Entry>, n: nat)
    requires p <= |log| && n < |es| && From(es, base + p)
    ensures Taken(Merged(log, p, es[..n]), base, es[n]) == Some(Merged(log, p, es[..n + 1]))
  {
    hide Merged;
    MergeNext(log, p, es, n);
    assert es[n].index == base + p + n;
    var cur := Merged(log, p, es[..n]);
    assert cur[..|cur|] == cur;
  }

  /** What a follower asks of a request: its term is not old, it does not reach behind
      the snapshot, and the log holds the leader's term at the entry before the new ones. */
  ghost predicate Matches(log: seq<Entry>, base: nat, term: nat, snapIndex: nat, req: Request) {
    && term <= req.term && snapIndex <= req.prevIndex
    && (req.prevIndex > 0 ==> Holds(log, base, req.prevIndex) && At(log, base, req.prevIndex).term == req.prevTerm)
  }

  /** The earliest index of the run of `t` that ends at `prev`, within the log. */
  ghost predicate FirstOfRun(log: seq<Entry>, base: nat, first: nat, prev: nat, t: nat) {
    && Holds(log, base, prev) && base <= first <= prev
    && (forall i: nat | first <= i <= prev :: At(log, base, i).term == t)
    && (first > base ==> At(log, base, first - 1).term != t)
  }

  lemma EmptyMerge(log: seq<Entry>)
    ensures forall p: nat | p <= |log| :: Merged(log, p, []) == log
  {
  }

  lemma MergeNext(log: seq<Entry>, p: nat, es: seq<Entry>, n: nat)
    requires p <= |log| && n < |es|
    ensures var cur := Merged(log, p, es[..n]);
            && p + n <= |cur|
            && Merged(log, p, es[..n + 1])
               == if p + n < |cur| && cur[p + n].term == es[n].term then cur else cur[..p + n] + [es[n]]
  {
    hide Known;
    var tail, a, b := log[p..], es[..n], es[..n + 1];
    KnownIs(tail, a);
    assert b == a + [es[n]];
    if Known(tail, a) < n {
      MergeGrows(log, p, es, n);
    } else {
      assert p + n < |log| ==> tail[n] == log[p + n];
      assert b[n..] == [es[n]];
      KnownUnique(tail, b, if p + n < |log| && log[p + n].term == es[n].term then n + 1 else n);
    }
  }

  /** Once the merge has left the old log, further entries are appended. */
  lemma MergeGrows(log: seq<Entry>, p: nat, es: seq<Entry>, n: nat)
    requires p <= |log| && n < |es| && Known(log[p..], es[..n]) < n
    ensures |Merged(log, p, es[..n])| == p + n && Merged(log, p, es[..n + 1]) == Merged(log, p, es[..n]) + [es[n]]
    ensures Merged(log, p, es[..n])[..p + n] == Merged(log, p, es[..n])
  {
    hide Known;
    var tail, a, b := log[p..], es[..n], es[..n + 1];
    KnownIs(tail, a);
    var k := Known(tail, a);
    assert b == a + [es[n]];
    KnownUnique(tail, b, k);
    assert b[k..] == a[k..] + [es[n]];
    Rejoin(log[..p + k], a[k..], [es[n]]);
  }

  lemma Rejoin(a: seq<Entry>, b: seq<Entry>, c: seq<Entry>)
    ensures a + (b + c) == a + b + c && |a + b| == |a| + |b| && (a + b)[..|a| + |b|] == a + b
  {
  }

  // ---------------------------------------------------------------- the state file

  const NOOP: Byte := 0

  predicate EntryOK(e: Entry) {
    e.index < Pow(8) && e.term < Pow(8) && |e.data| < Pow(4) && |PutEntry(e)| < Pow(4)
  }

  function PutEntry(e: Entry): Bytes {
    Le(e.index, 8) + (Le(e.term, 8) + ([e.kind] + (Le(|e.data|, 4) + e.data)))
  }

  /** Deserialize: the slice was cut to the entry's length before. */
  function ReadEntry(b: Bytes): Option<Entry> {
    match ReadLe(b, 8)
    case Bad => None
    case Good(index, b1) =>
      match ReadLe(b1, 8)
      case Bad => None
      case Good(term, b2) =>
        if b2 == [] then None
        else
          match ReadLe(b2[1..], 4)
          case Bad => None
          case Good(n, b3) => if |b3| < n then None else Some(Entry(index, term, b2[0], b3[..n]))
  }

  function PutEntries(log: seq<Entry>): Bytes {
    if log == [] then [] else PutBytes(PutEntry(log[0])) + PutEntries(log[1..])
  }

  function ReadEntries(b: Bytes, n: nat): Option<seq<Entry>>
    decreases n
  {
    if n == 0 then Some([])
    else
      match ReadBytes(b)
      case Bad => None
      case Good(raw, rest) =>
        var e := ReadEntry(raw);
        var es := ReadEntries(rest, n - 1);
        if e.None? || es.None? then None else Some([e.value] + es.value)
  }

  datatype Saved = Saved(term: nat, votedFor: nat, log: seq<Entry>, base: nat)

  function PutState(term: nat, votedFor: nat, snapIndex: nat, snapTerm: nat, log: seq<Entry>): Bytes {
    Le(term, 8) + (Le(votedFor, 8) + (Le(snapIndex, 8) + (Le(snapTerm, 8) + (Le(|log|, 4) + PutEntries(log)))))
  }

  /** LoadPersistentState: the base is derived from the last entry, and a log whose
      first entry does not fit it is given up for a fresh one. */
  function ReadState(b: Bytes): Option<Saved> {
    match ReadLe(b, 8)
    case Bad => None
    case Good(term, b1) =>
      match ReadLe(b1, 8)
      case Bad => None
      case Good(voted, b2) =>
        match ReadLe(b2, 8)
        case Bad => None
        case Good(_, b3) =>
          match ReadLe(b3, 8)
          case Bad => None
          case Good(_, b4) =>
            match ReadLe(b4, 4)
            case Bad => None
            case Good(n, b5) =>
              match ReadEntries(b5, n)
              case None => None
              case Some(log) => Some(Rebased(term, voted, log))
  }

  function Rebased(term: nat, voted: nat, log: seq<Entry>): Saved {
    var reset := Saved(term, voted, [Entry(0, 0, NOOP, [])], 0);
    if log == [] then reset
    else
      var base := log[|log| - 1].index - (|log| - 1);
      if base < 0 || log[0].index != base then reset else Saved(term, voted, log, base)
  }

  /** Whatever the file held, the node starts with a base entry at its base: the log as it
      was if it is one piece, a fresh one otherwise. */
  lemma RebasedIs(term: nat, voted: nat, log: seq<Entry>)
    ensures var s := Rebased(term, voted, log);
            && s.term == term && s.votedFor == voted && s.log != [] && s.log[0].index == s.base
            && (s.log == log || (s.log == [Entry(0, 0, 0, [])] && s.base == 0))
    ensures forall base: nat | Indexed(log, base) :: Rebased(term, voted, log) == Saved(term, voted, log, base)
  {
  }

  lemma EntryBack(e: Entry)
    requires EntryOK(e)
    ensures ReadEntry(PutEntry(e)) == Some(e)
  {
    hide ReadLe, Le;
    var d := Le(|e.data|, 4) + e.data;
    LeBack(e.index, 8, Le(e.term, 8) + ([e.kind] + d));
    LeBack(e.term, 8, [e.kind] + d);
    assert ([e.kind] + d)[1..] == d;
    LeBack(|e.data|, 4, e.data);
    assert e.data[..|e.data|] == e.data;
  }

  lemma {:induction false} EntriesBack(log: seq<Entry>)
    requires forall i | 0 <= i < |log| :: EntryOK(log[i])
    ensures ReadEntries(PutEntries(log), |log|) == Some(log)
  {
    hide ReadEntry, PutEntry, ReadBytes, PutBytes;
    if log != [] {
      EntriesBack(log[1..]);
      EntryBack(log[0]);
      BytesBack(PutEntry(log[0]), PutEntries(log[1..]));
      assert [log[0]] + log[1..] == log;
    }
  }

  /** Term, vote and log survive a restart, whatever the log was compacted to. */
  lemma StateBack(term: nat, votedFor: nat, snapIndex: nat, snapTerm: nat, log: seq<Entry>, base: nat)
    requires term < Pow(8) && votedFor < Pow(8) && snapIndex < Pow(8) && snapTerm < Pow(8)
    requires Indexed(log, base) && |log| < Pow(4) && forall i | 0 <= i < |log| :: EntryOK(log[i])
    ensures ReadState(PutState(term, votedFor, snapIndex, snapTerm, log)) == Some(Saved(term, votedFor, log, base))
  {
    hide ReadLe, Le, ReadEntries, PutEntries, EntryOK;
    var p5 := PutEntries(log);
    var p4 := Le(|log|, 4) + p5;
    var p3 := Le(snapTerm, 8) + p4;
    var p2 := Le(snapIndex, 8) + p3;
    LeBack(term, 8, Le(votedFor, 8) + p2);
    LeBack(votedFor, 8, p2);
    LeBack(snapIndex, 8, p3);
    LeBack(snapTerm, 8, p4);
    LeBack(|log|, 4, p5);
    EntriesBack(log);
  }
}
