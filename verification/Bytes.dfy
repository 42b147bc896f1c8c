/** Byte strings and the order every key comparison of the engine uses: byte-wise
    unsigned comparison, a proper prefix sorting first (Slice::compare). */
module Bytes {

  type Byte = x: int | 0 <= x < 256
  type Bytes = seq<Byte>

  datatype Option<+T> = None | Some(value: T)

  /** `a` sorts before `b`, and the first place they differ is `n`. */
  predicate LessAt(a: Bytes, b: Bytes, n: nat) {
    n <= |a| && n < |b| && a[..n] == b[..n] && (n == |a| || a[n] < b[n])
  }

  predicate Less(a: Bytes, b: Bytes) {
    exists n: nat | n <= |a| :: LessAt(a, b, n)
  }

  predicate LessEq(a: Bytes, b: Bytes) {
    !Less(b, a)
  }

  /** Slice::compare: memcmp over the common length, then the shorter one first. */
  method Compare(a: Bytes, b: Bytes) returns (c: int)
    ensures c < 0 <==> Less(a, b)
    ensures c > 0 <==> Less(b, a)
    ensures c == 0 <==> a == b
  {
    var n := 0;
    while n < |a| && n < |b| && a[n] == b[n]
      invariant n <= |a| && n <= |b| && a[..n] == b[..n]
    {
      n := n + 1;
    }
    DiffersAt(a, b, n);
    DiffersAt(b, a, n);
    if n < |a| && n < |b| {
      var d: int := a[n];
      c := d - b[n];
    } else if n < |b| {
      c := -1;
    } else if n < |a| {
      c := 1;
    } else {
      assert a == a[..n] && b == b[..n];
      c := 0;
    }
  }

  /** Once the common prefix of length `n` is known, byte `n` decides. */
  lemma DiffersAt(a: Bytes, b: Bytes, n: nat)
    requires n <= |a| && n <= |b| && a[..n] == b[..n]
    requires n < |a| && n < |b| ==> a[n] != b[n]
    ensures Less(a, b) <==> n < |b| && (n == |a| || a[n] < b[n])
  {
    if n < |b| && (n == |a| || a[n] < b[n]) {
      assert LessAt(a, b, n);
    }
    if Less(a, b) {
      var m: nat :| m <= |a| && LessAt(a, b, m);
      assert forall i :: 0 <= i < m ==> a[i] == a[..m][i] == b[..m][i] == b[i];
      assert forall i :: 0 <= i < n ==> a[i] == a[..n][i] == b[..n][i] == b[i];
    }
  }

  lemma CommonPrefix(a: Bytes, b: Bytes) returns (n: nat)
    ensures n <= |a| && n <= |b| && a[..n] == b[..n]
    ensures n < |a| && n < |b| ==> a[n] != b[n]
  {
    n := 0;
    while n < |a| && n < |b| && a[n] == b[n]
      invariant n <= |a| && n <= |b| && a[..n] == b[..n]
    {
      n := n + 1;
    }
  }

  lemma LessIrreflexive(a: Bytes)
    ensures !Less(a, a)
  {
    DiffersAt(a, a, |a|);
  }

  lemma LessTransitive(a: Bytes, b: Bytes, c: Bytes)
    requires Less(a, b) && Less(b, c)
    ensures Less(a, c)
  {
    var m: nat :| m <= |a| && LessAt(a, b, m);
    var n: nat :| n <= |b| && LessAt(b, c, n);
    var k := if m < n then m else n;
    assert a[..k] == a[..m][..k] == b[..m][..k] == b[..k];
    assert b[..k] == b[..n][..k] == c[..n][..k] == c[..k];
    if m < n {
      assert b[m] == b[..n][m] == c[..n][m] == c[m];
    } else if n < m {
      assert a[n] == a[..m][n] == b[..m][n] == b[n];
    }
    assert LessAt(a, c, k);
  }

  lemma LessTotal(a: Bytes, b: Bytes)
    ensures a == b || Less(a, b) || Less(b, a)
  {
    var n := CommonPrefix(a, b);
    DiffersAt(a, b, n);
    DiffersAt(b, a, n);
    if n == |a| && n == |b| {
      assert a == a[..n] && b == b[..n];
    }
  }

  /** Less is a strict total order. */
  lemma TotalOrder()
    ensures forall a: Bytes :: !Less(a, a)
    ensures forall a: Bytes, b: Bytes, c: Bytes :: Less(a, b) && Less(b, c) ==> Less(a, c)
    ensures forall a: Bytes, b: Bytes :: a == b || Less(a, b) || Less(b, a)
  {
    forall a: Bytes ensures !Less(a, a) {
      LessIrreflexive(a);
    }
    forall a: Bytes, b: Bytes, c: Bytes | Less(a, b) && Less(b, c) ensures Less(a, c) {
      LessTransitive(a, b, c);
    }
    forall a: Bytes, b: Bytes ensures a == b || Less(a, b) || Less(b, a) {
      LessTotal(a, b);
    }
  }
}
