/** ZSetIndex: a member map and a list ordered by score and member that describe the
    same sorted set, and the range queries on it. Scores are an abstract total order. */
module ZSets {
  import opened Bytes

  datatype Node = Node(score: real, member: Bytes)

  predicate NodeLess(a: Node, b: Node) {
    a.score < b.score || (a.score == b.score && Less(a.member, b.member))
  }

  ghost predicate Ordered(list: seq<Node>) {
    forall i, j | 0 <= i < j < |list| :: NodeLess(list[i], list[j])
  }

  /** The list holds exactly the members of the map, at their scores. */
  ghost predicate Describes(list: seq<Node>, m: map<Bytes, real>) {
    forall n: Node :: n in list <==> n.member in m && m[n.member] == n.score
  }

  lemma NodeOrder()
    ensures forall a: Node :: !NodeLess(a, a)
    ensures forall a: Node, b: Node, c: Node | NodeLess(a, b) && NodeLess(b, c) :: NodeLess(a, c)
    ensures forall a: Node, b: Node :: NodeLess(a, b) || a == b || NodeLess(b, a)
  {
    hide Less;
    TotalOrder();
  }

  /** Such a list has ascending scores, and ascending members where scores are equal. */
  lemma OrderIs(list: seq<Node>)
    ensures Ordered(list) <==>
            forall i, j | 0 <= i < j < |list| ::
              list[i].score <= list[j].score && (list[i].score == list[j].score ==> Less(list[i].member, list[j].member))
  {
    hide Less;
  }

  /** There is one such list: a query on it answers as if the whole set was sorted. */
  lemma OneOrder(a: seq<Node>, b: seq<Node>)
    requires Ordered(a) && Ordered(b) && forall n :: n in a <==> n in b
    ensures a == b
  {
    hide NodeLess, Ordered;
    SizeOf(a);
    SizeOf(b);
    assert (set n | n in a) == (set n | n in b);
    forall i | 0 <= i < |a| ensures a[i] == b[i] {
      var x := a[i];
      assert x in b;
      var j :| 0 <= j < |b| && b[j] == x;
      CountBelow(a, i);
      CountBelow(b, j);
      assert (set n | n in a && NodeLess(n, x)) == (set n | n in b && NodeLess(n, x));
    }
  }

  // ---------------------------------------------------------------- the ordered list

  /** The first position not below `n` (SeekGE). */
  method SeekGE(list: seq<Node>, n: Node) returns (p: nat)
    requires Ordered(list)
    ensures p <= |list| && (forall i | 0 <= i < p :: NodeLess(list[i], n))
    ensures forall i | p <= i < |list| :: !NodeLess(list[i], n)
  {
    hide NodeLess;
    NodeOrder();
    p := 0;
    while p < |list| && NodeLess(list[p], n)
      invariant p <= |list| && forall i | 0 <= i < p :: NodeLess(list[i], n)
    {
      p := p + 1;
    }
  }

  lemma Found(list: seq<Node>, n: Node, p: nat, i: nat)
    requires Ordered(list) && i < |list| && list[i] == n && p <= |list|
    requires forall j | 0 <= j < p :: NodeLess(list[j], n)
    requires forall j | p <= j < |list| :: !NodeLess(list[j], n)
    ensures i == p
  {
    hide NodeLess;
    NodeOrder();
    assert !NodeLess(list[i], n);
    assert forall j | 0 <= j < i :: NodeLess(list[j], n);
    assert p <= i && !NodeLess(list[p], n);
  }

  method InsertNode(list: seq<Node>, n: Node) returns (r: seq<Node>)
    requires Ordered(list) && n !in list
    ensures Ordered(r) && forall x :: x in r <==> x in list || x == n
  {
    hide NodeLess;
    NodeOrder();
    var p := SeekGE(list, n);
    r := list[..p] + [n] + list[p..];
    assert list == list[..p] + list[p..];
  }

  method EraseNode(list: seq<Node>, n: Node) returns (r: seq<Node>)
    requires Ordered(list) && n in list
    ensures Ordered(r) && forall x :: x in r <==> x in list && x != n
  {
    hide NodeLess;
    NodeOrder();
    var p := SeekGE(list, n);
    ghost var i :| 0 <= i < |list| && list[i] == n;
    Found(list, n, p, i);
    r := list[..p] + list[p + 1..];
    assert list == list[..p] + [n] + list[p + 1..];
    forall j | 0 <= j < |list| && list[j] == n ensures j == p {
      Found(list, n, p, j);
    }
  }

  // ---------------------------------------------------------------- windows

  /** The index window of a range query after the rules for negative indices, or an
      empty one. */
  function Window(start: int, stop: int, n: nat): (r: (nat, nat))
    ensures r.0 <= r.1 <= n
  {
    var a := if start < 0 then n + start else start;
    var b := if stop < 0 then n + stop else stop;
    var a' := if a < 0 then 0 else a;
    var b' := if b >= n then n - 1 else b;
    if n == 0 || a' > b' || a' >= n then (0, 0) else (a', b' + 1)
  }

  /** Entry `i` of `n` lies between two indices. It is also entry `i - n`: a negative index
      counts from the end, so that -1 is the last entry. */
  predicate Between(i: int, start: int, stop: int, n: nat) {
    && (if start < 0 then start <= i - n else start <= i)
    && (if stop < 0 then i - n <= stop else i <= stop)
  }

  /** The window holds exactly the entries between the indices. */
  lemma WindowIs(start: int, stop: int, n: nat)
    ensures forall i | 0 <= i < n :: Window(start, stop, n).0 <= i < Window(start, stop, n).1 <==> Between(i, start, stop, n)
  {
  }

  /** The entries of `list` between the indices, in its order. */
  ghost predicate Picks(out: seq<Node>, list: seq<Node>, start: int, stop: int) {
    exists a, b | 0 <= a <= b <= |list| ::
      out == list[a..b] && forall i | 0 <= i < |list| :: a <= i < b <==> Between(i, start, stop, |list|)
  }

  lemma WindowPicks(list: seq<Node>, start: int, stop: int)
    ensures Picks(list[Window(start, stop, |list|).0..Window(start, stop, |list|).1], list, start, stop)
  {
    hide Window, Between;
    WindowIs(start, stop, |list|);
    var a, b := Window(start, stop, |list|).0, Window(start, stop, |list|).1;
    assert 0 <= a <= b <= |list|;
  }

  function Reversed(s: seq<Node>): (r: seq<Node>)
    ensures |r| == |s| && forall i | 0 <= i < |s| :: r[i] == s[|s| - 1 - i]
  {
    seq(|s|, i requires 0 <= i < |s| => s[|s| - 1 - i])
  }

  predicate Passes(n: Node, min: real, max: real, minExcl: bool, maxExcl: bool) {
    && (if minExcl then n.score > min else n.score >= min)
    && (if maxExcl then n.score < max else n.score <= max)
  }

  function Filter(list: seq<Node>, min: real, max: real, minExcl: bool, maxExcl: bool): seq<Node> {
    if list == [] then []
    else
      var k := |list| - 1;
      Filter(list[..k], min, max, minExcl, maxExcl)
      + if Passes(list[k], min, max, minExcl, maxExcl) then [list[k]] else []
  }

  /** LIMIT: skip `offset`, then take `limit`, or all when it is negative. */
  function Limited(s: seq<Node>, offset: int, limit: int): seq<Node> {
    var from := if offset < 0 then 0 else if offset > |s| then |s| else offset;
    var end := if limit < 0 || offset + limit > |s| then |s| else offset + limit;
    if end <= from then [] else s[from..end]
  }

  /** What is between the bounds, in list order. */
  lemma {:induction false} FilterIs(list: seq<Node>, min: real, max: real, minExcl: bool, maxExcl: bool)
    requires Ordered(list)
    ensures Ordered(Filter(list, min, max, minExcl, maxExcl))
    ensures forall n :: n in Filter(list, min, max, minExcl, maxExcl) <==>
              && n in list && (n.score > min || (n.score == min && !minExcl)) && (n.score < max || (n.score == max && !maxExcl))
  {
    hide NodeLess;
    if list != [] {
      var k := |list| - 1;
      FilterIs(list[..k], min, max, minExcl, maxExcl);
      assert list == list[..k] + [list[k]];
      var f := Filter(list[..k], min, max, minExcl, maxExcl);
      forall i | 0 <= i < |f| ensures NodeLess(f[i], list[k]) {
        assert f[i] in f && f[i] in list[..k];
      }
    }
  }

  predicate InLimit(i: int, offset: int, limit: int) {
    offset <= i && (limit >= 0 ==> i < offset + limit)
  }

  /** LIMIT keeps entry `i` of the answer exactly when `offset <= i`, and `i` is one of the
      first `limit` from there on unless that is negative; the order stays. */
  lemma LimitedIs(s: seq<Node>, offset: int, limit: int)
    ensures exists a, b | 0 <= a <= b <= |s| ::
              Limited(s, offset, limit) == s[a..b]
              && forall i | 0 <= i < |s| :: a <= i < b <==> InLimit(i, offset, limit)
  {
    var from := if offset < 0 then 0 else if offset > |s| then |s| else offset;
    var end := if limit < 0 || offset + limit > |s| then |s| else offset + limit;
    var b := if end < from then from else end;
    assert Limited(s, offset, limit) == s[from..b];
  }

  method EmitBackwards(window: seq<Node>) returns (out: seq<Node>)
    ensures out == Reversed(window)
  {
    out := [];
    for i := |window| downto 0
      invariant |out| == |window| - i && forall k | 0 <= k < |out| :: out[k] == window[|window| - 1 - k]
    {
      out := out + [window[i]];
    }
  }

  lemma PlainWindow(a: nat, b: nat, n: nat)
    requires a <= b < n
    ensures Window(a, b, n) == (a, b + 1)
  {
  }

  /** A window of the reversed list is the mirrored window, reversed. */
  lemma ReversedWindow(list: seq<Node>, a: nat, b: nat)
    requires a <= b <= |list|
    ensures Reversed(list[|list| - b..|list| - a]) == Reversed(list)[a..b]
  {
    var n := |list|;
    var w := list[n - b..n - a];
    forall i | 0 <= i < b - a ensures Reversed(w)[i] == Reversed(list)[a..b][i] {
      assert Reversed(w)[i] == w[b - a - 1 - i] == list[n - 1 - (a + i)];
      assert Reversed(list)[a..b][i] == Reversed(list)[a + i];
    }
    assert |Reversed(w)| == b - a && |Reversed(list)[a..b]| == b - a;
    assert Reversed(w) == Reversed(list)[a..b];
  }

  /** Negative indices count from the end; the window is cut to the set. */
  method Normalize(start: int, stop: int, n: nat) returns (ok: bool, a: int, b: int)
    ensures ok ==> 0 <= a <= b < n && Window(start, stop, n) == (a, b + 1)
    ensures !ok ==> Window(start, stop, n) == (0, 0)
  {
    if n == 0 {
      return false, 0, 0;
    }
    a := if start < 0 then n + start else start;
    b := if stop < 0 then n + stop else stop;
    if a < 0 {
      a := 0;
    }
    if b >= n {
      b := n - 1;
    }
    ok := !(a > b || a >= n);
  }

  /** The walk of RangeByIndexLocked, for a set of size `n`. */
  method TakeWindow(list: seq<Node>, n: nat, start: int, stop: int) returns (out: seq<Node>)
    requires n == |list|
    ensures out == list[Window(start, stop, n).0..Window(start, stop, n).1]
  {
    hide Window;
    var ok, a, b := Normalize(start, stop, n);
    if !ok {
      return [];
    }
    out := [];
    var i := a;
    while i <= b && i < |list|
      invariant a <= i <= b + 1 <= |list| && out == list[a..i]
    {
      out := out + [list[i]];
      i := i + 1;
    }
  }

  /** Reverse index i is forward index n - 1 - i: take the mirrored window, backwards. */
  method TakeReverseWindow(list: seq<Node>, n: nat, start: int, stop: int) returns (out: seq<Node>)
    requires n == |list|
    ensures out == Reversed(list)[Window(start, stop, n).0..Window(start, stop, n).1]
  {
    hide Reversed, Window;
    var ok, a, b := Normalize(start, stop, n);
    if !ok {
      return [];
    }
    var window := TakeWindow(list, n, n - 1 - b, n - 1 - a);
    PlainWindow(n - 1 - b, n - 1 - a, n);
    out := EmitBackwards(window);
    ReversedWindow(list, a, b + 1);
  }

  lemma NoKeys(m: map<Bytes, real>)
    requires Describes([], m)
    ensures |m| == 0
  {
    assert forall k :: k in m ==> Node(m[k], k) !in [];
    assert forall k :: k !in m;
    assert m.Keys == {};
  }

  lemma {:induction false} MapSize(list: seq<Node>, m: map<Bytes, real>)
    requires Ordered(list) && Describes(list, m)
    ensures |m| == |list|
  {
    hide NodeLess;
    NodeOrder();
    if list == [] {
      NoKeys(m);
    } else {
      var k := |list| - 1;
      var x, rest := list[k], list[..k];
      assert x in list;
      var m' := m - {x.member};
      forall n: Node ensures n in rest <==> n.member in m' && m'[n.member] == n.score {
        assert n in rest ==> n in list;
        assert n in list ==> n == x || n in rest;
        assert x !in rest;
      }
      MapSize(rest, m');
      assert m == m'[x.member := x.score];
    }
  }

  lemma {:induction false} FilterNext(list: seq<Node>, i: nat, min: real, max: real, minExcl: bool, maxExcl: bool)
    requires i < |list|
    ensures Filter(list[..i + 1], min, max, minExcl, maxExcl)
            == Filter(list[..i], min, max, minExcl, maxExcl)
               + if Passes(list[i], min, max, minExcl, maxExcl) then [list[i]] else []
  {
    assert list[..i + 1][..i] == list[..i];
  }

  lemma LimitedEmpty(offset: int, limit: int)
    ensures Limited([], offset, limit) == []
  {
  }

  class ZSetIndex {
    var reverse: map<Bytes, real>
    var list: seq<Node>
    var retired: nat

    ghost predicate Agrees()
      reads this
    {
      Ordered(list) && Describes(list, reverse)
    }

    /** Map and list agree, and past the first 64 the nodes unlinked since the last rebuild
        do not outnumber the live ones. */
    ghost predicate Valid()
      reads this
    {
      Agrees() && (retired <= 64 || retired <= |reverse|)
    }

    constructor ()
      ensures Valid() && reverse == map[] && retired == 0
    {
      reverse, list, retired := map[], [], 0;
    }

    /** MaybeCompactLocked: rebuild the list from its live entries. */
    method MaybeCompact()
      requires Agrees()
      modifies this
      ensures Valid() && reverse == old(reverse) && list == old(list)
      ensures retired == if old(retired) <= 64 || old(retired) <= |old(reverse)| then old(retired) else 0
    {
      if retired <= 64 || retired <= |reverse| {
        return;
      }
      hide NodeLess;
      NodeOrder();
      var live := list;
      list, reverse, retired := [], map[], 0;
      for i := 0 to |live|
        invariant list == live[..i] && Describes(list, reverse) && retired == 0
      {
        assert live[i] !in live[..i];
        MemberFresh(live, i, reverse);
        list := list + [live[i]];
        reverse := reverse[live[i].member := live[i].score];
      }
      assert live[..|live|] == live;
      SameMap(live, reverse, old(reverse));
    }

    /** Upsert: the set with the member at its new score. */
    method Upsert(score: real, member: Bytes)
      requires Valid()
      modifies this
      ensures Valid() && reverse == old(reverse)[member := score]
      ensures var moved := if member in old(reverse) && old(reverse)[member] != score then 1 else 0;
              retired == old(retired) + moved || (retired == 0 && old(retired) + moved > 64 && old(retired) + moved > |reverse|)
    {
      hide NodeLess, Ordered;
      if member in reverse {
        if reverse[member] == score {
          return;
        }
        list := EraseNode(list, Node(reverse[member], member));
        retired := retired + 1;
      }
      reverse := reverse[member := score];
      list := InsertNode(list, Node(score, member));
      MaybeCompact();
    }

    method Remove(member: Bytes) returns (found: bool)
      requires Valid()
      modifies this
      ensures Valid() && reverse == old(reverse) - {member} && found == (member in old(reverse))
      ensures var gone := if found then 1 else 0;
              retired == old(retired) + gone || (retired == 0 && old(retired) + gone > 64 && old(retired) + gone > |reverse|)
    {
      if member !in reverse {
        return false;
      }
      hide NodeLess, Ordered;
      list := EraseNode(list, Node(reverse[member], member));
      reverse := reverse - {member};
      retired := retired + 1;
      MaybeCompact();
      found := true;
    }

    /** RebuildFrom: of several entries for a member the first one counts. */
    method RebuildFrom(entries: seq<Node>)
      modifies this
      ensures Valid() && reverse == FirstScores(entries) && retired == 0
    {
      hide NodeLess, Ordered;
      list, reverse, retired := [], map[], 0;
      OrderedEmpty();
      for i := 0 to |entries|
        invariant Valid() && reverse == FirstScores(entries[..i]) && retired == 0
      {
        assert entries[..i + 1][..i] == entries[..i];
        if entries[i].member !in reverse {
          list := InsertNode(list, entries[i]);
          reverse := reverse[entries[i].member := entries[i].score];
        }
      }
      assert entries[..|entries|] == entries;
    }

    /** Rank: the number of entries below the member's. */
    method Rank(member: Bytes) returns (r: int)
      requires Valid()
      ensures member !in reverse ==> r == -1
      ensures member in reverse ==>
                0 <= r < |list| && list[r] == Node(reverse[member], member)
                && r == |set n | n in list && NodeLess(n, Node(reverse[member], member))|
    {
      if member !in reverse {
        return -1;
      }
      var n := Node(reverse[member], member);
      r := SeekGE(list, n);
      ghost var i :| 0 <= i < |list| && list[i] == n;
      Found(list, n, r, i);
      CountBelow(list, r);
    }

    method RangeByIndex(start: int, stop: int) returns (out: seq<Node>)
      requires Valid()
      ensures Picks(out, list, start, stop)
    {
      hide Describes, Ordered, Window, Picks;
      MapSize(list, reverse);
      out := TakeWindow(list, |reverse|, start, stop);
      WindowPicks(list, start, stop);
    }

    /** RevRangeByIndex: the same window of the reversed set. */
    method RevRangeByIndex(start: int, stop: int) returns (out: seq<Node>)
      requires Valid()
      ensures Picks(out, Reversed(list), start, stop)
    {
      hide Describes, Ordered, Window, Reversed, Picks;
      MapSize(list, reverse);
      out := TakeReverseWindow(list, |reverse|, start, stop);
      WindowPicks(Reversed(list), start, stop);
    }

    /** RangeByScoreLocked: what passes the bounds, cut by LIMIT. */
    method RangeByScore(min: real, max: real, minExcl: bool, maxExcl: bool, offset: int, limit: int)
      returns (out: seq<Node>, count: nat)
      requires Valid()
      ensures out == Limited(Filter(list, min, max, minExcl, maxExcl), offset, limit)
      ensures limit < 0 ==> count == |Filter(list, min, max, minExcl, maxExcl)|
      // Without LIMIT: the entries between the bounds, in order.
      ensures offset <= 0 && limit < 0 ==>
                Ordered(out) && forall n :: n in out <==>
                  && n in list && (n.score > min || (n.score == min && !minExcl)) && (n.score < max || (n.score == max && !maxExcl))
    {
      FilterIs(list, min, max, minExcl, maxExcl);
      hide Filter, Ordered, Describes;
      out, count := ScanScores(min, max, minExcl, maxExcl, offset, limit);
    }

    /** From the first entry at the lower bound until the upper bound or LIMIT is passed. */
    method ScanScores(min: real, max: real, minExcl: bool, maxExcl: bool, offset: int, limit: int)
      returns (out: seq<Node>, count: nat)
      requires Valid()
      ensures out == Limited(Filter(list, min, max, minExcl, maxExcl), offset, limit)
      ensures limit < 0 ==> count == |Filter(list, min, max, minExcl, maxExcl)|
    {
      hide Ordered, NodeLess, Filter, Limited, Passes, Describes;
      var p := SeekGE(list, Node(min, []));
      BelowMin(list, p, min, max, minExcl, maxExcl);
      LimitedEmpty(offset, limit);
      out, count := [], 0;
      var i := p;
      while i < |list|
        invariant p <= i <= |list|
        invariant count == |Filter(list[..i], min, max, minExcl, maxExcl)|
        invariant out == Limited(Filter(list[..i], min, max, minExcl, maxExcl), offset, limit)
      {
        var k := list[i];
        FilterNext(list, i, min, max, minExcl, maxExcl);
        ghost var f := Filter(list[..i], min, max, minExcl, maxExcl);
        assert f + [] == f;
        if k.score > max {
          AboveMax(list, i, min, max, minExcl, maxExcl);
          return;
        }
        if Passes(k, min, max, minExcl, maxExcl) {
          LimitedNext(f, k, offset, limit);
          if count >= offset && (limit < 0 || count - offset < limit) {
            out := out + [k];
          }
          count := count + 1;
          if limit >= 0 && count - offset >= limit {
            FilterPrefix(list, i + 1, min, max, minExcl, maxExcl);
            LimitedDone(f + [k], Filter(list, min, max, minExcl, maxExcl), offset, limit);
            return;
          }
        }
        i := i + 1;
      }
      assert list[..|list|] == list;
    }
  }

  ghost function FirstScores(entries: seq<Node>): map<Bytes, real> {
    if entries == [] then map[]
    else
      var k := |entries| - 1;
      var m := FirstScores(entries[..k]);
      if entries[k].member in m then m else m[entries[k].member := entries[k].score]
  }

  /** Each member has the score of its first entry. */
  lemma {:induction false} FirstScoresAre(entries: seq<Node>, i: nat)
    requires i < |entries| && forall j | 0 <= j < i :: entries[j].member != entries[i].member
    ensures entries[i].member in FirstScores(entries) && FirstScores(entries)[entries[i].member] == entries[i].score
    ensures forall m | m in FirstScores(entries) :: exists j | 0 <= j < |entries| :: entries[j].member == m
  {
    var k := |entries| - 1;
    var front := entries[..k];
    assert forall j | 0 <= j < k :: front[j] == entries[j];
    MembersListed(front);
    if i < k {
      FirstScoresAre(front, i);
    }
    MembersListed(entries);
  }

  lemma {:induction false} MembersListed(entries: seq<Node>)
    ensures forall m | m in FirstScores(entries) :: exists j | 0 <= j < |entries| :: entries[j].member == m
  {
    if entries != [] {
      var k := |entries| - 1;
      MembersListed(entries[..k]);
      forall m | m in FirstScores(entries) ensures exists j | 0 <= j < |entries| :: entries[j].member == m {
        if m in FirstScores(entries[..k]) {
          var j :| 0 <= j < k && entries[..k][j].member == m;
          assert entries[j].member == m;
        } else {
          assert entries[k].member == m;
        }
      }
    }
  }

  lemma OrderedEmpty()
    ensures Ordered([])
  {
  }

  /** No earlier entry of a described list has the member of a later one. */
  lemma MemberFresh(live: seq<Node>, i: nat, m: map<Bytes, real>)
    requires Ordered(live) && i < |live| && Describes(live[..i], m)
    ensures live[i] !in live[..i]
  {
    NodeOrder();
  }

  lemma SameMap(list: seq<Node>, a: map<Bytes, real>, b: map<Bytes, real>)
    requires Describes(list, a) && Describes(list, b)
    ensures a == b
  {
    forall k | k in a ensures k in b && b[k] == a[k] {
      assert Node(a[k], k) in list;
    }
    forall k | k in b ensures k in a {
      assert Node(b[k], k) in list;
    }
  }

  lemma {:induction false} CountBelow(list: seq<Node>, r: nat)
    requires Ordered(list) && r < |list|
    ensures |set n | n in list && NodeLess(n, list[r])| == r
  {
    hide NodeLess;
    NodeOrder();
    var below := set n | n in list && NodeLess(n, list[r]);
    assert forall i | 0 <= i < |list| :: NodeLess(list[i], list[r]) <==> i < r;
    var first := set n | n in list[..r];
    assert below == first by {
      forall n ensures n in below <==> n in first {
        if n in below {
          var i :| 0 <= i < |list| && list[i] == n;
          assert n == list[..r][i];
        }
        if n in first {
          var i :| 0 <= i < r && list[..r][i] == n;
        }
      }
    }
    assert Ordered(list[..r]);
    SizeOf(list[..r]);
  }

  lemma {:induction false} SizeOf(list: seq<Node>)
    requires Ordered(list)
    ensures |set n | n in list| == |list|
  {
    hide NodeLess;
    NodeOrder();
    if list != [] {
      var k := |list| - 1;
      SizeOf(list[..k]);
      assert list[k] !in list[..k];
      assert (set n | n in list) == (set n | n in list[..k]) + {list[k]};
    }
  }

  lemma {:induction false} BelowMin(list: seq<Node>, p: nat, min: real, max: real, minExcl: bool, maxExcl: bool)
    requires p <= |list| && forall i | 0 <= i < p :: NodeLess(list[i], Node(min, []))
    ensures Filter(list[..p], min, max, minExcl, maxExcl) == []
  {
    if p > 0 {
      BelowMin(list, p - 1, min, max, minExcl, maxExcl);
      assert list[..p][..p - 1] == list[..p - 1];
      assert NodeLess(list[p - 1], Node(min, []));
      assert !Less(list[p - 1].member, []);
    }
  }

  lemma {:induction false} AboveMax(list: seq<Node>, i: nat, min: real, max: real, minExcl: bool, maxExcl: bool)
    requires Ordered(list) && i < |list| && list[i].score > max
    ensures Filter(list, min, max, minExcl, maxExcl) == Filter(list[..i], min, max, minExcl, maxExcl)
  {
    var k := |list| - 1;
    assert i < k ==> NodeLess(list[i], list[k]);
    if i < k {
      AboveMax(list[..k], i, min, max, minExcl, maxExcl);
      assert list[..k][..i] == list[..i];
    }
  }

  lemma {:induction false} FilterPrefix(list: seq<Node>, i: nat, min: real, max: real, minExcl: bool, maxExcl: bool)
    requires i <= |list|
    ensures Filter(list[..i], min, max, minExcl, maxExcl) <= Filter(list, min, max, minExcl, maxExcl)
  {
    if i < |list| {
      var k := |list| - 1;
      FilterPrefix(list[..k], i, min, max, minExcl, maxExcl);
      assert list[..k][..i] == list[..i];
    } else {
      assert list[..i] == list;
    }
  }

  lemma LimitedNext(s: seq<Node>, n: Node, offset: int, limit: int)
    ensures Limited(s + [n], offset, limit)
            == Limited(s, offset, limit) + if |s| >= offset && (limit < 0 || |s| - offset < limit) then [n] else []
  {
    var t := s + [n];
    var from := if offset < 0 then 0 else offset;
    if |s| < offset {
      assert Limited(t, offset, limit) == [] && Limited(s, offset, limit) == [];
    } else if limit < 0 || |s| - offset < limit {
      assert Limited(t, offset, limit) == t[from..|t|];
      assert t[from..|t|] == s[from..|s|] + [n];
      assert Limited(s, offset, limit) == s[from..|s|];
    } else {
      var end := offset + limit;
      assert end <= |s|;
      if end > from {
        assert Limited(t, offset, limit) == t[from..end] == s[from..end] == Limited(s, offset, limit);
      } else {
        assert Limited(t, offset, limit) == [] && Limited(s, offset, limit) == [];
      }
    }
  }

  lemma LimitedDone(s: seq<Node>, t: seq<Node>, offset: int, limit: int)
    requires s <= t && limit >= 0 && |s| - offset >= limit
    ensures Limited(t, offset, limit) == Limited(s, offset, limit)
  {
  }
}
