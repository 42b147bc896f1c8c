/** The replication backlog of a master: a ring buffer over an unbounded stream of
    command bytes, and the ledger of what was queued to each slave. */
module Backlog {
  import opened Bytes

  const U64 := 0x1_0000_0000_0000_0000

  /** One attached slave: its pending offset, and for the record where its last PSYNC
      put it and what was queued to it since. */
  datatype Slave = Slave(pending: nat, resume: nat, queued: Bytes)

  datatype PsyncReply = FullResync(offset: nat) | Continue

  /** Conversion of a signed 64-bit offset to unsigned. */
  function Unsigned(offset: int): (r: int)
    requires -0x8000_0000_0000_0000 <= offset < 0x8000_0000_0000_0000
    ensures 0 <= r < U64
  {
    if offset < 0 then offset + U64 else offset
  }

  class ReplMaster {
    const ring: array<Byte>
    const replId: Bytes
    var offset: nat          // repl_offset_
    var first: nat           // backlog_first_offset_
    var slaves: map<nat, Slave>

    ghost var stream: Bytes  // everything ever fed

    /** The ring holds the stream from the first offset on. */
    ghost predicate Held()
      reads `first, `offset, `stream, ring
      requires ring.Length > 0 && |stream| == offset
    {
      forall o: nat | first <= o < offset :: ring[o % ring.Length] == stream[o]
    }

    ghost predicate Valid()
      reads this, ring
    {
      && ring.Length > 0 && |stream| == offset
      && first == (if offset > ring.Length then offset - ring.Length else 0)
      && Held()
      && forall fd | fd in slaves :: SlaveOK(stream, slaves[fd])
    }

    constructor (size: nat, id: Bytes)
      requires size > 0
      ensures Valid() && fresh(ring) && stream == [] && slaves == map[] && ring.Length == size && replId == id
    {
      ring := new Byte[size](_ => 0);
      replId, offset, first, slaves, stream := id, 0, 0, map[], [];
    }

    /** Feed: one byte after the other, then the first offset that is still held. */
    method Feed(cmd: Bytes) returns (at: nat)
      requires Valid()
      modifies this, ring
      ensures Valid() && stream == old(stream) + cmd && at == old(offset) && slaves == old(slaves)
    {
      at := offset;
      ghost var n, before := ring.Length, stream;
      for i := 0 to |cmd|
        invariant offset == at + i && stream == before + cmd[..i] && first == old(first) && slaves == old(slaves)
        invariant Reaches(ring[..], stream, first)
      {
        ghost var held := ring[..];
        WriteOne(held, stream, first, cmd[i]);
        ring[offset % ring.Length] := cmd[i];
        assert ring[..] == held[offset % n := cmd[i]];
        stream := stream + [cmd[i]];
        offset := offset + 1;
      }
      assert cmd[..|cmd|] == cmd;
      if offset - first > ring.Length {
        first := offset - ring.Length;
      }
      forall fd | fd in slaves ensures SlaveOK(stream, slaves[fd]) {
        assert stream[..|before|] == before;
      }
    }

    predicate CanServeFrom(o: nat)
      reads this
    {
      first <= o <= offset
    }

    /** An offset can be served when it lies at most the size of the ring behind the end of
        the stream. */
    lemma ServedOffsets(o: nat)
      requires Valid()
      ensures CanServeFrom(o) <==> o <= |stream| <= o + ring.Length
    {
      hide Held;
    }

    /** GetBacklogFrom: for an offset it can serve, exactly the stream from there. */
    method GetBacklogFrom(o: nat) returns (r: Bytes)
      requires Valid()
      ensures r == if CanServeFrom(o) then stream[o..] else []
      ensures r == if o <= |stream| <= o + ring.Length then stream[o..] else []
    {
      if !CanServeFrom(o) {
        return [];
      }
      r := [];
      for i := 0 to offset - o
        invariant r == stream[o..o + i]
      {
        r := r + [ring[(o + i) % ring.Length]];
      }
    }

    /** A PSYNC registers the connection and puts it at its offset when the backlog
        still reaches it, and at the end of the stream otherwise. */
    method Psync(fd: nat, id: Bytes, slaveOffset: int) returns (reply: PsyncReply)
      requires Valid() && -0x8000_0000_0000_0000 <= slaveOffset < 0x8000_0000_0000_0000
      modifies `slaves
      ensures Valid() && fd in slaves && slaves[fd].queued == [] && slaves[fd].pending == slaves[fd].resume
      ensures forall other | other in old(slaves) && other != fd :: other in slaves && slaves[other] == old(slaves)[other]
      ensures reply.Continue? <==>
                id != QUESTION && id == replId && Unsigned(slaveOffset) <= |stream| <= Unsigned(slaveOffset) + ring.Length
      ensures slaves[fd].resume == if reply.Continue? then Unsigned(slaveOffset) else offset
      ensures reply.FullResync? ==> reply.offset == offset
    {
      hide Held;
      if id == QUESTION || id != replId {
        slaves := slaves[fd := Slave(offset, offset, [])];
        return FullResync(offset);
      }
      var u := Unsigned(slaveOffset);
      if first <= u <= offset {
        slaves := slaves[fd := Slave(u, u, [])];
        return Continue;
      }
      slaves := slaves[fd := Slave(offset, offset, [])];
      reply := FullResync(offset);
    }

    /** The flush of one slave: queue what it has not been sent, or drop it when the
        ring no longer reaches back to it. */
    method FlushSlave(fd: nat, inTransfer: bool)
      requires Valid()
      modifies `slaves
      ensures Valid() && forall other | other in old(slaves) && other != fd :: other in slaves && slaves[other] == old(slaves)[other]
      ensures fd in old(slaves) && !inTransfer ==>
                if CanServeFrom(old(slaves)[fd].pending)
                then fd in slaves && slaves[fd].pending == offset && slaves[fd].resume == old(slaves)[fd].resume
                else fd !in slaves
      ensures inTransfer || fd !in old(slaves) ==> slaves == old(slaves)
    {
      hide Held;
      if inTransfer || fd !in slaves {
        return;
      }
      var s := slaves[fd];
      if s.pending < offset {
        if !CanServeFrom(s.pending) {
          slaves := slaves - {fd};
          return;
        }
        var data := GetBacklogFrom(s.pending);
        assert stream[s.resume..offset] == stream[s.resume..s.pending] + stream[s.pending..offset];
        assert stream[s.pending..] == stream[s.pending..offset];
        slaves := slaves[fd := Slave(offset, s.resume, s.queued + data)];
      }
    }
  }

  /** The last |ring| bytes of the stream, from `first` on, are in the ring. */
  ghost predicate Reaches(ring: Bytes, stream: Bytes, first: nat)
    requires ring != []
  {
    forall o: nat | first <= o < |stream| && |stream| - |ring| <= o :: ring[o % |ring|] == stream[o]
  }

  lemma WriteOne(ring: Bytes, stream: Bytes, first: nat, b: Byte)
    requires ring != [] && Reaches(ring, stream, first)
    ensures Reaches(ring[|stream| % |ring| := b], stream + [b], first)
  {
    var n, end := |ring|, |stream|;
    var ring', stream' := ring[end % n := b], stream + [b];
    forall o: nat | first <= o < |stream'| && |stream'| - |ring'| <= o ensures ring'[o % n] == stream'[o] {
      if o < end {
        Distinct(o, end, n);
      }
    }
  }

  const QUESTION: Bytes := [63]

  /** What a slave was queued since its last PSYNC is the stream from its resume offset
      to its pending offset: nothing missing, nothing twice. */
  ghost predicate SlaveOK(stream: Bytes, s: Slave) {
    s.resume <= s.pending <= |stream| && s.queued == stream[s.resume..s.pending]
  }

  lemma Distinct(a: nat, b: nat, n: nat)
    requires n > 0 && a < b && b - a < n
    ensures a % n != b % n
  {
    NoMultiple(n, b / n - a / n);
    assert b - a == n * (b / n) - n * (a / n) + (b % n - a % n);
    assert n * (b / n) - n * (a / n) == n * (b / n - a / n);
  }

  lemma NoMultiple(n: nat, k: int)
    requires n > 0
    ensures n * k <= 0 || n * k >= n
  {
    if k <= 0 {
      assert n * k <= 0;
    } else {
      assert n * k >= n;
    }
  }
}
