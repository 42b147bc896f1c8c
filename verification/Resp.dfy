/** The RESP protocol: commands as the client builds them, the server's parser over a
    growing receive buffer, and the client's measure of a nested reply. */
module Resp {
  import opened Bytes
  import opened Codec

  const CR: Byte := 13
  const LF: Byte := 10
  const CRLF: Bytes := [13, 10]
  const STAR: Byte := 42
  const DOLLAR: Byte := 36
  const INT_MAX := 0x7FFF_FFFF
  const LONG_MAX := 0x7FFF_FFFF_FFFF_FFFF

  // ---------------------------------------------------------------- decimal numbers

  predicate Digit(b: Byte) {
    48 <= b <= 57
  }

  /** std::to_string of a size. */
  function Dec(n: nat): (r: Bytes)
    ensures r != [] && forall i | 0 <= i < |r| :: Digit(r[i])
  {
    if n < 10 then [48 + n] else Dec(n / 10) + [48 + n % 10]
  }

  /** Digits from the front, as strtol takes them. */
  function Digits(b: Bytes, acc: nat): nat
    decreases |b|
  {
    if b == [] || !Digit(b[0]) then acc else Digits(b[1..], acc * 10 + (b[0] - 48))
  }

  predicate Space(b: Byte) {
    b == 32 || 9 <= b <= 13
  }

  /** std::stoi and std::stol: leading blanks, a sign, digits, the rest ignored. */
  function ParseInt(b: Bytes, max: nat): Option<int>
    decreases |b|
  {
    if b == [] then None
    else if Space(b[0]) then ParseInt(b[1..], max)
    else
      var neg, body := b[0] == 45, if b[0] == 45 || b[0] == 43 then b[1..] else b;
      if body == [] || !Digit(body[0]) then None
      else
        var v: int := Digits(body, 0);
        if neg then (if v > max + 1 then None else Some(-v)) else if v > max then None else Some(v)
  }

  lemma {:induction false} DigitsConcat(a: Bytes, b: Bytes, acc: nat)
    requires forall i | 0 <= i < |a| :: Digit(a[i])
    ensures Digits(a + b, acc) == Digits(b, Digits(a, acc))
    decreases |a|
  {
    if a == [] {
      assert a + b == b;
    } else {
      assert (a + b)[1..] == a[1..] + b;
      DigitsConcat(a[1..], b, acc * 10 + (a[0] - 48));
    }
  }

  lemma {:induction false} DecBack(n: nat)
    ensures Digits(Dec(n), 0) == n
  {
    if n >= 10 {
      DecBack(n / 10);
      DigitsConcat(Dec(n / 10), [48 + n % 10], 0);
      assert [48 + n % 10][1..] == [];
    } else {
      assert Dec(n)[1..] == [];
    }
  }

  lemma {:induction false} ParseDec(n: nat, max: nat)
    requires n <= max
    ensures ParseInt(Dec(n), max) == Some(n)
  {
    DecBack(n);
    assert Digit(Dec(n)[0]);
  }

  // ---------------------------------------------------------------- lines

  /** The first "\r\n". */
  function FindCrLf(b: Bytes): (r: Option<nat>)
    ensures r.Some? ==> r.value + 2 <= |b|
  {
    if |b| < 2 then None
    else if b[0] == CR && b[1] == LF then Some(0)
    else
      match FindCrLf(b[1..])
      case None => None
      case Some(i) => Some(i + 1)
  }

  predicate NoCrLf(b: Bytes) {
    forall i | 0 <= i < |b| :: b[i] != CR
  }

  lemma {:induction false} FindBack(a: Bytes, rest: Bytes)
    requires NoCrLf(a)
    ensures FindCrLf(a + (CRLF + rest)) == Some(|a|)
  {
    if a == [] {
      assert a + (CRLF + rest) == CRLF + rest;
    } else {
      FindBack(a[1..], rest);
      assert (a + (CRLF + rest))[1..] == a[1..] + (CRLF + rest);
      assert (a + (CRLF + rest))[0] == a[0];
    }
  }

  lemma {:induction false} FindCut(a: Bytes, k: nat)
    requires NoCrLf(a) && k < |a| + 2
    ensures FindCrLf((a + CRLF)[..k]) == None
  {
    var b := (a + CRLF)[..k];
    if k >= 2 && a != [] {
      FindCut(a[1..], k - 1);
      assert b[1..] == (a[1..] + CRLF)[..k - 1];
      assert b[0] == a[0];
    }
  }

  /** A type byte, a number, "\r\n". */
  function Line(t: Byte, n: nat): Bytes {
    [t] + Dec(n) + CRLF
  }

  /** The number of a header line and what follows it. */
  function ReadLine(b: Bytes, t: Byte, max: nat): Parsed<int> {
    if b == [] || b[0] != t then Bad
    else
      match FindCrLf(b)
      case None => Bad
      case Some(cr) =>
        match ParseInt(if cr > 0 then b[1..cr] else [], max)
        case None => Bad
        case Some(n) => Good(n, b[cr + 2..])
  }

  lemma {:induction false} DecNoCr(n: nat, t: Byte)
    requires t != CR
    ensures NoCrLf([t] + Dec(n))
  {
  }

  lemma LineBack(t: Byte, n: nat, max: nat, rest: Bytes)
    requires t != CR && n <= max
    ensures ReadLine(Line(t, n) + rest, t, max) == Good(n, rest)
  {
    hide Dec, FindCrLf, ParseInt;
    DecNoCr(n, t);
    var a, b := [t] + Dec(n), Line(t, n) + rest;
    Joined(a, CRLF, rest);
    FindBack(a, rest);
    assert b[1..|a|] == Dec(n);
    ParseDec(n, max);
    assert b[|a| + 2..] == rest;
  }

  lemma LineCut(t: Byte, n: nat, max: nat, k: nat)
    requires t != CR && k < |Line(t, n)|
    ensures ReadLine(Line(t, n)[..k], t, max) == Bad
  {
    hide Dec, FindCrLf, ParseInt;
    DecNoCr(n, t);
    FindCut([t] + Dec(n), k);
  }

  // ---------------------------------------------------------------- commands

  function PutArg(a: Bytes): Bytes {
    Line(DOLLAR, |a|) + (a + CRLF)
  }

  function PutArgs(args: seq<Bytes>): Bytes {
    if args == [] then [] else PutArg(args[0]) + PutArgs(args[1..])
  }

  /** build_resp. */
  function PutCommand(args: seq<Bytes>): Bytes {
    Line(STAR, |args|) + PutArgs(args)
  }

  /** A short argument, byte by byte. */
  lemma ShortArg(a: Bytes)
    requires |a| < 10
    ensures PutArg(a) == [36, 48 + |a|, 13, 10] + a + [13, 10]
  {
    assert Line(DOLLAR, |a|) == [36, 48 + |a|, 13, 10];
  }

  /** SET with a short key and a short value, byte by byte. */
  lemma SetCommand(k: Bytes, v: Bytes)
    requires |k| < 10 && |v| < 10
    ensures PutCommand([[83, 69, 84], k, v]) ==
            [42, 51, 13, 10] + ([36, 51, 13, 10, 83, 69, 84, 13, 10]
                                + (([36, 48 + |k|, 13, 10] + k + [13, 10]) + ([36, 48 + |v|, 13, 10] + v + [13, 10])))
  {
    hide PutArg;
    var name: Bytes := [83, 69, 84];
    var args := [name, k, v];
    ShortArg(name);
    ShortArg(k);
    ShortArg(v);
    assert [36, 51, 13, 10] + name + [13, 10] == [36, 51, 13, 10, 83, 69, 84, 13, 10];
    assert args[1..] == [k, v] && [k, v][1..] == [v] && [v][1..] == [];
    assert PutArgs([v]) == PutArg(v);
    assert PutArgs([k, v]) == PutArg(k) + PutArg(v);
    assert PutArgs(args) == PutArg(name) + (PutArg(k) + PutArg(v));
    assert Line(STAR, 3) == [42, 51, 13, 10];
  }

  function PutCommands(cs: seq<seq<Bytes>>): Bytes {
    if cs == [] then [] else PutCommand(cs[0]) + PutCommands(cs[1..])
  }

  ghost predicate CommandOK(c: seq<Bytes>) {
    |c| <= INT_MAX && forall i | 0 <= i < |c| :: |c[i]| <= INT_MAX
  }

  /** parse_resp_bulk: a negative length is an empty argument; the two bytes behind
      the data are skipped unseen. */
  function ReadBulk(b: Bytes): Parsed<Bytes> {
    match ReadLine(b, DOLLAR, INT_MAX)
    case Bad => Bad
    case Good(n, rest) =>
      if n < 0 then Good([], rest) else if |rest| < n + 2 then Bad else Good(rest[..n], rest[n + 2..])
  }

  function ReadBulks(b: Bytes, n: nat): Parsed<seq<Bytes>>
    decreases n
  {
    if n == 0 then Good([], b)
    else
      match ReadBulk(b)
      case Bad => Bad
      case Good(a, b1) =>
        match ReadBulks(b1, n - 1)
        case Bad => Bad
        case Good(as', b2) => Good([a] + as', b2)
  }

  /** One whole command at the front of the buffer. */
  function ReadCommand(b: Bytes): Parsed<seq<Bytes>> {
    match ReadLine(b, STAR, INT_MAX)
    case Bad => Bad
    case Good(n, rest) => if n < 0 then Bad else ReadBulks(rest, n)
  }

  lemma ArgBack(a: Bytes, rest: Bytes)
    requires |a| <= INT_MAX
    ensures ReadBulk(PutArg(a) + rest) == Good(a, rest)
  {
    hide ReadLine, Line;
    Joined(Line(DOLLAR, |a|), a + CRLF, rest);
    LineBack(DOLLAR, |a|, INT_MAX, a + CRLF + rest);
    assert (a + CRLF + rest)[..|a|] == a && (a + CRLF + rest)[|a| + 2..] == rest;
  }

  lemma ArgCut(a: Bytes, k: nat)
    requires |a| <= INT_MAX && k < |PutArg(a)|
    ensures ReadBulk(PutArg(a)[..k]) == Bad
  {
    hide ReadLine, Line;
    var l := Line(DOLLAR, |a|);
    CutConcat(l, a + CRLF, k);
    if k < |l| {
      LineCut(DOLLAR, |a|, INT_MAX, k);
    } else {
      assert PutArg(a)[..k] == l + (a + CRLF)[..k - |l|];
      LineBack(DOLLAR, |a|, INT_MAX, (a + CRLF)[..k - |l|]);
    }
  }

  lemma {:induction false} ArgsBack(args: seq<Bytes>, rest: Bytes)
    requires forall i | 0 <= i < |args| :: |args[i]| <= INT_MAX
    ensures ReadBulks(PutArgs(args) + rest, |args|) == Good(args, rest)
  {
    hide ReadBulk, PutArg;
    if args == [] {
      assert PutArgs(args) + rest == rest;
    } else {
      ArgsBack(args[1..], rest);
      Joined(PutArg(args[0]), PutArgs(args[1..]), rest);
      ArgBack(args[0], PutArgs(args[1..]) + rest);
      assert [args[0]] + args[1..] == args;
    }
  }

  lemma {:induction false} ArgsCut(args: seq<Bytes>, k: nat)
    requires (forall i | 0 <= i < |args| :: |args[i]| <= INT_MAX) && k < |PutArgs(args)|
    ensures ReadBulks(PutArgs(args)[..k], |args|) == Bad
  {
    hide ReadBulk, PutArg;
    var p, q := PutArg(args[0]), PutArgs(args[1..]);
    CutConcat(p, q, k);
    if k < |p| {
      ArgCut(args[0], k);
    } else {
      assert PutArgs(args)[..k] == p + q[..k - |p|];
      ArgBack(args[0], q[..k - |p|]);
      ArgsCut(args[1..], k - |p|);
    }
  }

  lemma CommandBack(c: seq<Bytes>, rest: Bytes)
    requires CommandOK(c)
    ensures ReadCommand(PutCommand(c) + rest) == Good(c, rest)
  {
    hide ReadLine, Line, ReadBulks, PutArgs;
    Joined(Line(STAR, |c|), PutArgs(c), rest);
    LineBack(STAR, |c|, INT_MAX, PutArgs(c) + rest);
    ArgsBack(c, rest);
  }

  /** An unfinished command is left alone. */
  lemma CommandCut(c: seq<Bytes>, k: nat)
    requires CommandOK(c) && k < |PutCommand(c)|
    ensures ReadCommand(PutCommand(c)[..k]) == Bad
  {
    hide ReadLine, Line, ReadBulks, PutArgs;
    var l, q := Line(STAR, |c|), PutArgs(c);
    CutConcat(l, q, k);
    if k < |l| {
      LineCut(STAR, |c|, INT_MAX, k);
    } else {
      assert PutCommand(c)[..k] == l + q[..k - |l|];
      LineBack(STAR, |c|, INT_MAX, q[..k - |l|]);
      ArgsCut(c, k - |l|);
    }
  }

  // ---------------------------------------------------------------- the connection

  /** What the server has dispatched after the first `n` bytes of the commands. */
  ghost predicate Served(cs: seq<seq<Bytes>>, n: nat, done: seq<seq<Bytes>>, buf: Bytes) {
    && n <= |PutCommands(cs)| && done <= cs
    && |PutCommands(done)| <= n && buf == PutCommands(cs)[|PutCommands(done)|..n]
    && (|done| < |cs| ==> |buf| < |PutCommand(cs[|done|])|)
  }

  class Connection {
    var buf: Bytes
    var dispatched: seq<seq<Bytes>>

    constructor ()
      ensures buf == [] && dispatched == []
    {
      buf, dispatched := [], [];
    }

    /** New bytes arrive and process_tcp runs: every whole command at the front is
        taken off and dispatched. */
    method Receive(data: Bytes, ghost cs: seq<seq<Bytes>>, ghost n: nat)
      requires forall i | 0 <= i < |cs| :: CommandOK(cs[i])
      requires Served(cs, n, dispatched, buf) && n + |data| <= |PutCommands(cs)|
      requires data == PutCommands(cs)[n..n + |data|]
      modifies this
      ensures Served(cs, n + |data|, dispatched, buf)
    {
      hide ReadCommand, PutCommand, PutCommands, CommandOK;
      buf := buf + data;
      ghost var m := n + |data|;
      Arrived(cs, n, dispatched, old(buf), data);
      var more := true;
      while more
        invariant Taken(cs, m, dispatched, buf)
        invariant !more ==> Served(cs, m, dispatched, buf)
        decreases |cs| - |dispatched|, more
      {
        TakeOne(cs, m, dispatched, buf);
        var next := ReadCommand(buf);
        if next.Good? {
          buf := next.rest;
          dispatched := dispatched + [next.val];
        } else {
          more := false;
        }
      }
    }
  }

  lemma {:induction false} Arrived(cs: seq<seq<Bytes>>, n: nat, done: seq<seq<Bytes>>, buf: Bytes, data: Bytes)
    requires Served(cs, n, done, buf) && n + |data| <= |PutCommands(cs)|
    requires data == PutCommands(cs)[n..n + |data|]
    ensures Taken(cs, n + |data|, done, buf + data)
  {
    hide PutCommands, PutCommand;
  }

  lemma {:induction false} CommandsSplit(cs: seq<seq<Bytes>>, i: nat)
    requires i <= |cs|
    ensures PutCommands(cs) == PutCommands(cs[..i]) + PutCommands(cs[i..])
  {
    hide PutCommand;
    if i == 0 {
      assert cs[..0] == [] && cs[0..] == cs;
    } else {
      CommandsSplit(cs[1..], i - 1);
      assert cs[1..][..i - 1] == cs[..i][1..] && cs[1..][i - 1..] == cs[i..];
    }
  }

  ghost predicate Taken(cs: seq<seq<Bytes>>, m: nat, done: seq<seq<Bytes>>, buf: Bytes) {
    done <= cs && |PutCommands(done)| <= m <= |PutCommands(cs)| && buf == PutCommands(cs)[|PutCommands(done)|..m]
  }

  /** One round of the loop: either the next command is whole and comes off, or the
      server waits with less than it. */
  lemma TakeOne(cs: seq<seq<Bytes>>, m: nat, done: seq<seq<Bytes>>, buf: Bytes)
    requires forall i | 0 <= i < |cs| :: CommandOK(cs[i])
    requires Taken(cs, m, done, buf)
    ensures ReadCommand(buf).Bad? ==> Served(cs, m, done, buf)
    ensures ReadCommand(buf).Good? ==> Taken(cs, m, done + [ReadCommand(buf).val], ReadCommand(buf).rest)
  {
    hide ReadCommand, PutCommand, CommandOK;
    var i := |done|;
    assert done == cs[..i];
    CommandsSplit(cs, i);
    var tail := PutCommands(cs[i..]);
    var k := m - |PutCommands(done)|;
    assert buf == tail[..k];
    if i == |cs| {
      assert cs[i..] == [];
      NothingToRead();
    } else {
      var c := cs[i];
      assert cs[i..][0] == c && cs[i..][1..] == cs[i + 1..];
      var p, q := PutCommand(c), PutCommands(cs[i + 1..]);
      CutConcat(p, q, k);
      if k < |p| {
        CommandCut(c, k);
      } else {
        assert buf == p + q[..k - |p|];
        CommandBack(c, q[..k - |p|]);
        OneMore(cs, i);
        LastTaken(cs, i);
      }
    }
  }

  lemma {:induction false} OneMore(cs: seq<seq<Bytes>>, i: nat)
    requires i < |cs|
    ensures PutCommands(cs[..i + 1]) == PutCommands(cs[..i]) + PutCommand(cs[i])
    ensures PutCommands(cs) == PutCommands(cs[..i + 1]) + PutCommands(cs[i + 1..])
  {
    hide PutCommand, PutCommands;
    CommandsSplit(cs, i + 1);
    CommandsSnoc(cs[..i], cs[i]);
    LastTaken(cs, i);
  }

  lemma LastTaken(cs: seq<seq<Bytes>>, i: nat)
    requires i < |cs|
    ensures cs[..i + 1] == cs[..i] + [cs[i]]
  {
  }

  lemma {:induction false} CommandsSnoc(cs: seq<seq<Bytes>>, c: seq<Bytes>)
    ensures PutCommands(cs + [c]) == PutCommands(cs) + PutCommand(c)
  {
    hide PutCommand;
    var all := cs + [c];
    if cs == [] {
      assert |all[1..]| == 0;
    } else {
      CommandsSnoc(cs[1..], c);
      assert all[1..] == cs[1..] + [c];
      Joined(PutCommand(cs[0]), PutCommands(cs[1..]), PutCommand(c));
    }
  }

  lemma NothingToRead()
    ensures ReadCommand([]) == Bad
  {
  }

  /** However the bytes of the commands are split into arrivals, the server dispatches
      exactly those commands, in order. */
  method Stream(cs: seq<seq<Bytes>>, chunks: seq<Bytes>) returns (conn: Connection)
    requires forall i | 0 <= i < |cs| :: CommandOK(cs[i])
    requires Flat(chunks) == PutCommands(cs)
    ensures conn.dispatched == cs && conn.buf == []
  {
    hide PutCommands, CommandOK, Served, Flat;
    conn := new Connection();
    ServedNothing(cs);
    FlatPrefix(chunks, 0);
    for i := 0 to |chunks|
      invariant |Flat(chunks[..i])| <= |PutCommands(cs)|
      invariant fresh(conn) && Served(cs, |Flat(chunks[..i])|, conn.dispatched, conn.buf)
    {
      FlatPrefix(chunks, i + 1);
      FlatNext(chunks, i);
      conn.Receive(chunks[i], cs, |Flat(chunks[..i])|);
    }
    assert chunks[..|chunks|] == chunks;
    ServedAll(cs, conn.dispatched, conn.buf);
  }

  function Flat(chunks: seq<Bytes>): Bytes {
    if chunks == [] then [] else Flat(chunks[..|chunks| - 1]) + chunks[|chunks| - 1]
  }

  lemma {:induction false} FlatPrefix(chunks: seq<Bytes>, i: nat)
    requires i <= |chunks|
    ensures Flat(chunks[..i]) <= Flat(chunks)
    ensures Flat(chunks[..0]) == []
  {
    if i < |chunks| {
      FlatPrefix(chunks[..|chunks| - 1], i);
      assert chunks[..|chunks| - 1][..i] == chunks[..i];
    } else {
      assert chunks[..i] == chunks;
    }
  }

  lemma {:induction false} FlatNext(chunks: seq<Bytes>, i: nat)
    requires i < |chunks|
    ensures Flat(chunks[..i + 1]) == Flat(chunks[..i]) + chunks[i]
    ensures |Flat(chunks[..i])| + |chunks[i]| <= |Flat(chunks)|
    ensures chunks[i] == Flat(chunks)[|Flat(chunks[..i])|..|Flat(chunks[..i])| + |chunks[i]|]
  {
    assert chunks[..i + 1][..i] == chunks[..i];
    FlatPrefix(chunks, i + 1);
    var a := Flat(chunks[..i]);
    assert Flat(chunks)[..|a| + |chunks[i]|] == a + chunks[i];
  }

  lemma ServedNothing(cs: seq<seq<Bytes>>)
    ensures Served(cs, 0, [], [])
  {
    if cs != [] {
      LineNonEmpty(cs[0]);
    }
  }

  lemma LineNonEmpty(c: seq<Bytes>)
    ensures PutCommand(c) != []
  {
  }

  lemma TailLength(cs: seq<seq<Bytes>>, i: nat)
    requires i < |cs|
    ensures |PutCommands(cs[i..])| >= |PutCommand(cs[i])|
  {
    hide PutCommand;
    assert cs[i..][0] == cs[i];
  }

  lemma {:induction false} ServedAll(cs: seq<seq<Bytes>>, done: seq<seq<Bytes>>, buf: Bytes)
    requires Served(cs, |PutCommands(cs)|, done, buf)
    ensures done == cs && buf == []
  {
    hide PutCommand;
    var i: nat := |done|;
    CommandsSplit(cs, i);
    assert done == cs[..i];
    assert buf == PutCommands(cs[i..]);
    if i < |cs| {
      TailLength(cs, i);
      assert false;
    }
    assert cs[..|cs|] == cs && cs[|cs|..] == [];
  }

  // ---------------------------------------------------------------- replies

  datatype Reply = Simple(kind: Byte, text: Bytes) | Bulk(data: Bytes) | NullBulk | Array(items: seq<Reply>) | NullArray

  const MINUS_ONE: Bytes := [45, 49]

  function PutReply(r: Reply): Bytes {
    match r
    case Simple(t, text) => [t] + text + CRLF
    case Bulk(d) => PutArg(d)
    case NullBulk => [DOLLAR] + MINUS_ONE + CRLF
    case Array(items) => Line(STAR, |items|) + PutReplies(items)
    case NullArray => [STAR] + MINUS_ONE + CRLF
  }

  function PutReplies(rs: seq<Reply>): Bytes {
    if rs == [] then [] else PutReply(rs[0]) + PutReplies(rs[1..])
  }

  predicate ReplyOK(r: Reply) {
    match r
    case Simple(t, text) => (t == 43 || t == 45 || t == 58) && NoCrLf(text)
    case Bulk(d) => |d| <= LONG_MAX
    case Array(items) => |items| <= LONG_MAX && forall i | 0 <= i < |items| :: ReplyOK(items[i])
    case _ => true
  }

  /** Every reply is nested at most `n` deep. */
  predicate Within(r: Reply, n: nat) {
    r.Array? && r.items != [] ==> n > 0 && forall i | 0 <= i < |r.items| :: Within(r.items[i], n - 1)
  }

  const MAX_DEPTH := 16

  /** resp_frame_length at the front of `b`. */
  function FrameLength(b: Bytes, depth: nat): (n: nat)
    ensures n <= |b|
    decreases if depth > MAX_DEPTH then 0 else MAX_DEPTH + 1 - depth, 0
  {
    if depth > MAX_DEPTH || b == [] then 0
    else if b[0] == 43 || b[0] == 45 || b[0] == 58 then
      match FindCrLf(b)
      case None => 0
      case Some(cr) => cr + 2
    else if b[0] == DOLLAR then
      match ReadLine(b, DOLLAR, LONG_MAX)
      case Bad => 0
      case Good(len, rest) =>
        if len < 0 then Consumed(b, rest)
        else if |rest| >= len + 2 then Consumed(b, rest) + len + 2 else 0
    else if b[0] == STAR then
      match ReadLine(b, STAR, LONG_MAX)
      case Bad => 0
      case Good(count, rest) =>
        if count < 0 then Consumed(b, rest)
        else
          match ItemsLength(rest, count, depth + 1)
          case None => 0
          case Some(n) => Consumed(b, rest) + n
    else 0
  }

  function Consumed(b: Bytes, rest: Bytes): (n: nat)
    ensures |rest| <= |b| ==> n == |b| - |rest|
    ensures n + |rest| <= |b| || n == 0
  {
    if |rest| <= |b| then |b| - |rest| else 0
  }

  /** The lengths of `n` frames in a row, or none while one is incomplete. */
  function ItemsLength(b: Bytes, n: nat, depth: nat): (r: Option<nat>)
    ensures r.Some? ==> r.value <= |b|
    decreases if depth > MAX_DEPTH then 0 else MAX_DEPTH + 1 - depth, n + 1
  {
    if n == 0 then Some(0)
    else
      var k := FrameLength(b, depth);
      if k == 0 then None
      else
        match ItemsLength(b[k..], n - 1, depth)
        case None => None
        case Some(m) => Some(k + m)
  }

  lemma NullLine(t: Byte, rest: Bytes)
    requires t != CR
    ensures ReadLine([t] + MINUS_ONE + CRLF + rest, t, LONG_MAX) == Good(-1, rest)
  {
    var a := [t] + MINUS_ONE;
    Joined(a, CRLF, rest);
    FindBack(a, rest);
    var b := a + CRLF + rest;
    assert b[1..|a|] == MINUS_ONE && b[|a| + 2..] == rest;
    assert MINUS_ONE[1..] == [49];
    assert [49][1..] == [];
    assert Digits([49], 0) == 1;
  }

  lemma NullCut(t: Byte, k: nat)
    requires t != CR && k < |[t] + MINUS_ONE + CRLF|
    ensures ReadLine(([t] + MINUS_ONE + CRLF)[..k], t, LONG_MAX) == Bad
  {
    hide FindCrLf, ParseInt;
    FindCut([t] + MINUS_ONE, k);
  }

  lemma {:induction false} ReplyShape(r: Reply)
    ensures PutReply(r) != []
    ensures r.Bulk? || r.NullBulk? ==> PutReply(r)[0] == DOLLAR
    ensures r.Array? || r.NullArray? ==> PutReply(r)[0] == STAR
    ensures r.Simple? ==> PutReply(r)[0] == r.kind
  {
    hide Dec, PutReplies;
  }

  ghost predicate AllWithin(rs: seq<Reply>, depth: nat) {
    rs != [] ==> depth <= MAX_DEPTH && forall i | 0 <= i < |rs| :: Within(rs[i], MAX_DEPTH - depth)
  }

  lemma ArrayWithin(r: Reply, depth: nat)
    requires depth <= MAX_DEPTH && r.Array?
    ensures Within(r, MAX_DEPTH - depth) <==> AllWithin(r.items, depth + 1)
  {
    var n: nat := MAX_DEPTH - depth;
    assert n > 0 ==> n - 1 == MAX_DEPTH - (depth + 1);
  }

  /** A whole reply is measured exactly when it is nested at most sixteen deep. */
  lemma {:induction false} FrameBack(r: Reply, rest: Bytes, depth: nat)
    requires ReplyOK(r) && depth <= MAX_DEPTH
    ensures FrameLength(PutReply(r) + rest, depth) == if Within(r, MAX_DEPTH - depth) then |PutReply(r)| else 0
    decreases r
  {
    hide ReadLine, Line, PutReplies, Within, ItemsLength, FindCrLf, PutArg;
    var b := PutReply(r) + rest;
    ReplyShape(r);
    assert b[0] == PutReply(r)[0];
    match r {
      case Simple(t, text) =>
        SimpleWithin(r, depth);
        Joined([t] + text, CRLF, rest);
        assert NoCrLf([t] + text);
        FindBack([t] + text, rest);
        assert b == ([t] + text) + (CRLF + rest);
        assert FindCrLf(b) == Some(|text| + 1) && |PutReply(r)| == |text| + 3 && b[0] == t;
      case Bulk(d) =>
        SimpleWithin(r, depth);
        BulkFrame(d, rest);
      case NullBulk =>
        SimpleWithin(r, depth);
        NullLine(DOLLAR, rest);
      case NullArray =>
        SimpleWithin(r, depth);
        NullLine(STAR, rest);
      case Array(items) =>
        ArrayWithin(r, depth);
        Joined(Line(STAR, |items|), PutReplies(items), rest);
        LineBack(STAR, |items|, LONG_MAX, PutReplies(items) + rest);
        ItemsBack(items, rest, depth + 1);
    }
  }

  lemma SimpleWithin(r: Reply, depth: nat)
    requires depth <= MAX_DEPTH && !r.Array?
    ensures Within(r, MAX_DEPTH - depth)
  {
  }

  lemma BulkFrame(d: Bytes, rest: Bytes)
    requires |d| <= LONG_MAX
    ensures ReadLine(PutArg(d) + rest, DOLLAR, LONG_MAX) == Good(|d|, d + CRLF + rest)
    ensures |d + CRLF + rest| <= |PutArg(d) + rest|
  {
    hide ReadLine, Line;
    Joined(Line(DOLLAR, |d|), d + CRLF, rest);
    LineBack(DOLLAR, |d|, LONG_MAX, d + CRLF + rest);
  }

  lemma {:induction false} ItemsBack(rs: seq<Reply>, rest: Bytes, depth: nat)
    requires forall i | 0 <= i < |rs| :: ReplyOK(rs[i])
    ensures ItemsLength(PutReplies(rs) + rest, |rs|, depth)
            == if AllWithin(rs, depth) then Some(|PutReplies(rs)|) else None
    decreases rs
  {
    hide FrameLength, PutReply, ReplyOK, Within;
    if rs != [] {
      var p, q := PutReply(rs[0]), PutReplies(rs[1..]);
      Joined(p, q, rest);
      ReplyShape(rs[0]);
      assert AllWithin(rs, depth) <==> (depth <= MAX_DEPTH && Within(rs[0], MAX_DEPTH - depth)) && AllWithin(rs[1..], depth) by {
        AllWithinNext(rs, depth);
      }
      if depth <= MAX_DEPTH {
        FrameBack(rs[0], q + rest, depth);
        assert (p + (q + rest))[|p|..] == q + rest;
        ItemsBack(rs[1..], rest, depth);
      } else {
        TooDeep(p + (q + rest), depth);
      }
    }
  }

  lemma {:induction false} AllWithinNext(rs: seq<Reply>, depth: nat)
    requires rs != []
    ensures AllWithin(rs, depth)
            <==> (depth <= MAX_DEPTH && Within(rs[0], MAX_DEPTH - depth)) && AllWithin(rs[1..], depth)
  {
    hide Within;
    if AllWithin(rs[1..], depth) && depth <= MAX_DEPTH && Within(rs[0], MAX_DEPTH - depth) {
      forall i | 0 <= i < |rs| ensures Within(rs[i], MAX_DEPTH - depth) {
        assert i > 0 ==> rs[i] == rs[1..][i - 1];
      }
    }
    if AllWithin(rs, depth) {
      forall i | 0 <= i < |rs[1..]| ensures Within(rs[1..][i], MAX_DEPTH - depth) {
        assert rs[1..][i] == rs[i + 1];
      }
    }
  }

  lemma {:induction false} TooDeep(b: Bytes, depth: nat)
    requires depth > MAX_DEPTH
    ensures FrameLength(b, depth) == 0
  {
  }

  /** A reply that has not arrived whole is never measured. */
  lemma {:induction false} FrameCut(r: Reply, k: nat, depth: nat)
    requires ReplyOK(r) && k < |PutReply(r)|
    ensures FrameLength(PutReply(r)[..k], depth) == 0
    decreases r
  {
    hide ReadLine, Line, PutReplies, ItemsLength, FindCrLf, PutArg;
    ReplyShape(r);
    if k == 0 || depth > MAX_DEPTH {
      assert k == 0 ==> PutReply(r)[..k] == [];
      return;
    }
    var b := PutReply(r)[..k];
    assert b[0] == PutReply(r)[0];
    match r {
      case Simple(t, text) =>
        FindCut([t] + text, k);
      case Bulk(d) =>
        BulkCut(d, k);
      case NullBulk =>
        NullCut(DOLLAR, k);
      case NullArray =>
        NullCut(STAR, k);
      case Array(items) =>
        var l, q := Line(STAR, |items|), PutReplies(items);
        CutConcat(l, q, k);
        if k < |l| {
          LineCut(STAR, |items|, LONG_MAX, k);
        } else {
          assert b == l + q[..k - |l|];
          LineBack(STAR, |items|, LONG_MAX, q[..k - |l|]);
          ItemsCut(items, k - |l|, depth + 1);
        }
    }
  }

  lemma BulkCut(d: Bytes, k: nat)
    requires |d| <= LONG_MAX && k < |PutArg(d)|
    ensures var line := ReadLine(PutArg(d)[..k], DOLLAR, LONG_MAX);
            line.Bad? || (line.val == |d| && |line.rest| < |d| + 2)
  {
    hide ReadLine, Line;
    var l := Line(DOLLAR, |d|);
    CutConcat(l, d + CRLF, k);
    if k < |l| {
      LineCut(DOLLAR, |d|, LONG_MAX, k);
    } else {
      assert PutArg(d)[..k] == l + (d + CRLF)[..k - |l|];
      LineBack(DOLLAR, |d|, LONG_MAX, (d + CRLF)[..k - |l|]);
    }
  }

  lemma {:induction false} ItemsCut(rs: seq<Reply>, k: nat, depth: nat)
    requires (forall i | 0 <= i < |rs| :: ReplyOK(rs[i])) && k < |PutReplies(rs)|
    ensures ItemsLength(PutReplies(rs)[..k], |rs|, depth) == None
    decreases rs
  {
    hide FrameLength, PutReply, ReplyOK;
    var p, q := PutReply(rs[0]), PutReplies(rs[1..]);
    CutConcat(p, q, k);
    ReplyShape(rs[0]);
    if k < |p| {
      FrameCut(rs[0], k, depth);
    } else if depth <= MAX_DEPTH {
      assert PutReplies(rs)[..k] == p + q[..k - |p|];
      FrameBack(rs[0], q[..k - |p|], depth);
      assert (p + q[..k - |p|])[|p|..] == q[..k - |p|];
      ItemsCut(rs[1..], k - |p|, depth);
    } else {
      TooDeep(PutReplies(rs)[..k], depth);
    }
  }
}
