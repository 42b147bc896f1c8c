/** DBImpl::WriteLock: a bounded spin on a flag, then a queue mutex and a condition
    variable. Any number of threads, interleaved between atomic actions. */
module WriteLock {
  datatype Pc =
    | Outside
    | Spinning         // in the bounded spin
    | Queueing         // spin exhausted, wants the queue mutex
    | Testing          // holds the queue mutex, about to test the flag
    | Parked           // in the condition wait, mutex released
    | Woken            // notified, wants the queue mutex back
    | Holding          // owns the lock
    | Cleared          // flag cleared, wants the queue mutex for the notification
    | Notifying        // holds the queue mutex, about to notify

  datatype State = State(flag: bool, queue: int, pcs: seq<Pc>)

  datatype Step =
    | Enter(t: nat) | Spin(t: nat) | GiveUp(t: nat) | TakeQueue(t: nat) | Test(t: nat)
    | Release(t: nat) | TakeToNotify(t: nat) | Notify(t: nat, woken: nat) | Spurious(t: nat)

  predicate SomeParked(s: State) {
    exists p | 0 <= p < |s.pcs| :: s.pcs[p] == Parked
  }

  predicate Enabled(s: State, a: Step) {
    a.t < |s.pcs| &&
    match a
    case Enter(t) => s.pcs[t] == Outside
    case Spin(t) => s.pcs[t] == Spinning
    case GiveUp(t) => s.pcs[t] == Spinning
    case TakeQueue(t) => (s.pcs[t] == Queueing || s.pcs[t] == Woken) && s.queue < 0
    case Test(t) => s.pcs[t] == Testing
    case Release(t) => s.pcs[t] == Holding
    case TakeToNotify(t) => s.pcs[t] == Cleared && s.queue < 0
    case Notify(t, w) => s.pcs[t] == Notifying && (SomeParked(s) ==> w < |s.pcs| && s.pcs[w] == Parked)
    case Spurious(t) => s.pcs[t] == Parked
  }

  function Apply(s: State, a: Step): State
    requires Enabled(s, a)
  {
    match a
    case Enter(t) => s.(pcs := s.pcs[t := Spinning])
    case Spin(t) => if s.flag then s else s.(flag := true, pcs := s.pcs[t := Holding])
    case GiveUp(t) => s.(pcs := s.pcs[t := Queueing])
    case TakeQueue(t) => s.(queue := t, pcs := s.pcs[t := Testing])
    case Test(t) =>
      if s.flag then s.(queue := -1, pcs := s.pcs[t := Parked])
      else State(true, -1, s.pcs[t := Holding])
    case Release(t) => s.(flag := false, pcs := s.pcs[t := Cleared])
    case TakeToNotify(t) => s.(queue := t, pcs := s.pcs[t := Notifying])
    case Notify(t, w) =>
      var pcs := s.pcs[t := Outside];
      s.(queue := -1, pcs := if SomeParked(s) then pcs[w := Woken] else pcs)
    case Spurious(t) => s.(pcs := s.pcs[t := Woken])
  }

  ghost predicate Reachable(s: State, steps: seq<Step>, n: nat)
    decreases |steps|
  {
    if steps == [] then s == State(false, -1, seq(n, _ => Outside))
    else
      var k := |steps| - 1;
      exists s0 :: Reachable(s0, steps[..k], n) && Enabled(s0, steps[k]) && s == Apply(s0, steps[k])
  }

  /** Threads that will test the flag or notify somebody who does. */
  predicate Minding(pc: Pc) {
    pc == Testing || pc == Woken || pc == Cleared || pc == Notifying
  }

  predicate InQueue(pc: Pc) {
    pc == Testing || pc == Notifying
  }

  ghost predicate Exclusive(s: State) {
    && (forall t | 0 <= t < |s.pcs| && s.pcs[t] == Holding :: s.flag)
    && (forall t, u | 0 <= t < u < |s.pcs| :: !(s.pcs[t] == Holding && s.pcs[u] == Holding))
    && (s.flag ==> exists t | 0 <= t < |s.pcs| :: s.pcs[t] == Holding)
  }

  ghost predicate QueueOK(s: State) {
    -1 <= s.queue < |s.pcs| && forall t | 0 <= t < |s.pcs| :: InQueue(s.pcs[t]) <==> s.queue == t
  }

  ghost predicate NobodyForgotten(s: State) {
    !s.flag && SomeParked(s) ==> exists t | 0 <= t < |s.pcs| :: Minding(s.pcs[t])
  }

  ghost predicate Inv(s: State) {
    Exclusive(s) && QueueOK(s) && NobodyForgotten(s)
  }

  lemma ExclusiveKept(s: State, a: Step)
    requires Exclusive(s) && Enabled(s, a)
    ensures Exclusive(Apply(s, a))
  {
    hide SomeParked;
    var s' := Apply(s, a);
    assert a.t < |s.pcs|;
    if s'.flag {
      if s.flag {
        var h :| 0 <= h < |s.pcs| && s.pcs[h] == Holding;
        assert s'.pcs[h] == Holding;
      } else {
        assert s'.pcs[a.t] == Holding;
      }
    }
  }

  lemma ForgottenKept(s: State, a: Step)
    requires NobodyForgotten(s) && Enabled(s, a) && !Apply(s, a).flag
    ensures NobodyForgotten(Apply(s, a))
  {
    var s' := Apply(s, a);
    if a.Notify? && SomeParked(s) {
      assert Minding(s'.pcs[a.woken]);
    } else if a.Release? || a.TakeQueue? || a.TakeToNotify? || a.Spurious? {
      assert Minding(s'.pcs[a.t]);
    } else if SomeParked(s') {
      var p :| 0 <= p < |s'.pcs| && s'.pcs[p] == Parked;
      assert s.pcs[p] == Parked;
      var m :| 0 <= m < |s.pcs| && Minding(s.pcs[m]);
      assert Minding(s'.pcs[m]);
    }
  }

  lemma StepKeepsInv(s: State, a: Step)
    requires Inv(s) && Enabled(s, a)
    ensures Inv(Apply(s, a))
  {
    ExclusiveKept(s, a);
    assert QueueOK(Apply(s, a)) by {
      hide SomeParked, Exclusive, NobodyForgotten;
    }
    if !Apply(s, a).flag {
      ForgottenKept(s, a);
    }
  }

  lemma {:induction false} Invariant(s: State, steps: seq<Step>, n: nat)
    requires Reachable(s, steps, n)
    ensures Inv(s) && |s.pcs| == n
    decreases |steps|
  {
    if steps != [] {
      var k := |steps| - 1;
      var s0 :| Reachable(s0, steps[..k], n) && Enabled(s0, steps[k]) && s == Apply(s0, steps[k]);
      Invariant(s0, steps[..k], n);
      StepKeepsInv(s0, steps[k]);
    }
  }

  /** In every run: one owner at a time, and while the lock is free a parked thread is
      never forgotten. */
  lemma {:induction false} Safety(s: State, steps: seq<Step>, n: nat)
    requires Reachable(s, steps, n)
    ensures forall t, u | 0 <= t < u < n :: |s.pcs| == n && !(s.pcs[t] == Holding && s.pcs[u] == Holding)
    ensures |s.pcs| == n && (SomeParked(s) ==> exists t | 0 <= t < n :: s.pcs[t] == Holding || Minding(s.pcs[t]))
  {
    Invariant(s, steps, n);
  }

  /** No reachable state is stuck: while any thread is inside, one can move without
      waiting for a spurious wakeup. */
  lemma NeverStuck(s: State, steps: seq<Step>, n: nat, t: nat) returns (a: Step)
    requires Reachable(s, steps, n) && t < |s.pcs| && s.pcs[t] != Outside
    ensures Enabled(s, a) && !a.Spurious? && !a.Enter?
  {
    Invariant(s, steps, n);
    if s.flag {
      var h :| 0 <= h < |s.pcs| && s.pcs[h] == Holding;
      return Release(h);
    }
    if s.queue >= 0 {
      a := ByQueueHolder(s, s.queue);
      return;
    }
    var m := t;
    if s.pcs[t] == Parked {
      m :| 0 <= m < |s.pcs| && Minding(s.pcs[m]);
    }
    if s.pcs[m] == Spinning {
      return Spin(m);
    }
    if s.pcs[m] == Cleared {
      return TakeToNotify(m);
    }
    return TakeQueue(m);
  }

  lemma ByQueueHolder(s: State, q: nat) returns (a: Step)
    requires q < |s.pcs| && InQueue(s.pcs[q])
    ensures Enabled(s, a) && !a.Spurious? && !a.Enter?
  {
    if s.pcs[q] == Testing {
      return Test(q);
    }
    if SomeParked(s) {
      var p :| 0 <= p < |s.pcs| && s.pcs[p] == Parked;
      return Notify(q, p);
    }
    return Notify(q, 0);
  }
}
