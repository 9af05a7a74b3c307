/** Chunked bodies in src/http/http_connection.cc: size lines through a parser that starts afresh at
    every call, then contents. */
module HttpChunks {
  import opened Base
  import opened Bytes
  import opened Streams
  import opened HttpBody
  import opened SizeLine
  import Url

  /** The reading end of a connection: its state, the network's answers, what is buffered and what is
      still to come. */
  datatype Link = Link(connected: bool, plan: seq<int>, front: seq<byte>, incoming: seq<byte>)

  ghost function LinkOf(s: Socket, data: array<byte>, len: nat): Link
    requires len <= data.Length
    reads s, data
  {
    Link(s.connected, s.plan, data[..len], s.incoming)
  }

  /** All the bytes there are. */
  ghost function Whole(l: Link): seq<byte> {
    l.front + l.incoming
  }

  /** What the parser is given next: what is buffered, or else what one read brings. */
  ghost function Refilled(l: Link, cap: nat): (r: Option<Link>)
    ensures r.Some? ==> r.value.front != [] && Whole(r.value) == Whole(l)
  {
    if l.front != [] then Some(l)
    else if !l.connected then None
    else
      var rt := Answer(l.plan, Least(cap, |l.incoming|));
      if rt <= 0 then None
      else Some(Link(true, Later(l.plan), l.incoming[..rt], l.incoming[rt..]))
  }

  /** A size and the link behind its line; no line, for a failed read or a parse error; or a response
      head where a line should be. */
  datatype Line = Line(n: nat, link: Link) | Lost | Foreign

  /** The inner loop: the parser is fed until a call of it sees a line end. What a call without a verdict
      has eaten is gone, and the next call starts afresh. */
  ghost function AfterLine(l: Link, cap: nat): (r: Line)
    ensures r.Line? ==> |Whole(r.link)| < |Whole(l)|
    decreases |Whole(l)|
  {
    match Refilled(l, cap)
    case None => Lost
    case Some(f) =>
      match Execute(f.front)
      case Size(n, used) => Line(n, f.(front := f.front[used..]))
      case More => AfterLine(f.(front := []), cap)
      case Error => Lost
      case Head => Foreign
  }

  datatype Found = Got(n: nat) | NoLine | Strange

  /** What the inner loop found, and what it left. */
  ghost predicate Finds(r: Found, now: Link, want: Line) {
    match want
    case Line(n, link) => r == Got(n) && now == link
    case Lost => r == NoLine
    case Foreign => r == Strange
  }

  method ReadLine(stream: SocketStream, data: array<byte>, len: nat) returns (r: Found, left: nat)
    requires len + 1 < data.Length
    modifies data, stream.socket`plan, stream.socket`incoming
    ensures left + 1 < data.Length
    ensures Finds(r, LinkOf(stream.socket, data, left),
                  old(AfterLine(LinkOf(stream.socket, data, len), data.Length - 1)))
  {
    left := len;
    ghost var cap := data.Length - 1;
    ghost var want := AfterLine(LinkOf(stream.socket, data, len), cap);
    while true
      invariant left + 1 < data.Length && AfterLine(LinkOf(stream.socket, data, left), cap) == want
      decreases |Whole(LinkOf(stream.socket, data, left))|
    {
      ghost var l := LinkOf(stream.socket, data, left);
      if left == 0 {
        var ok;
        ok, left := Refill(stream, data);
        if !ok {
          return NoLine, 0;
        }
      }
      var v := Execute(data[..left]);
      match v {
        case Size(n, used) =>
          MoveUp(data, left, used);
          left := left - used;
          return Got(n), left;
        case More => left := 0;
        case Error => return NoLine, 0;
        case Head => return Strange, 0;
      }
    }
  }

  /** One read into the empty buffer. */
  method Refill(stream: SocketStream, data: array<byte>) returns (ok: bool, left: nat)
    requires data.Length >= 2
    modifies data, stream.socket`plan, stream.socket`incoming
    ensures left < data.Length
    ensures var f := Refilled(old(LinkOf(stream.socket, data, 0)), data.Length - 1);
      (ok <==> f.Some?) && (ok ==> LinkOf(stream.socket, data, left) == f.value)
  {
    var more, rt := stream.Read(data.Length - 1);
    if rt <= 0 {
      return false, 0;
    }
    Memcpy(data, 0, more);
    assert data[..rt] == more;
    return true, rt;
  }

  /** What a 32-bit length leaves room for: the two bytes behind a content are added to it. */
  const Largest: nat := 0x7fff_fffd

  /** Behind a size line: n bytes of content for the body, two bytes dropped; or the network fails first. */
  ghost function AfterContent(l: Link, n: nat, cap: nat): (r: Option<Link>)
    ensures r.Some? ==> n + 2 <= |Whole(l)| && Whole(r.value) == Whole(l)[n + 2..]
  {
    var lacks := n + 2 - |l.front|;
    if lacks <= 0 then
      DropWithin(l.front, l.incoming, n + 2);
      Some(l.(front := l.front[n + 2..]))
    else if !Brings(l.connected, l.plan, |l.incoming|, lacks, cap) then None
    else
      DropBehind(l.front, l.incoming, lacks);
      Some(Link(l.connected, Rest(l.plan, lacks, cap), [], l.incoming[lacks..]))
  }

  lemma DropBehind(s: seq<byte>, t: seq<byte>, n: nat)
    requires n <= |t|
    ensures (s + t)[|s| + n..] == t[n..] && [] + t[n..] == t[n..]
  {}

  /** A body and the link behind it; none, for a failed read or a parse error; or a case this model does
      not follow: a response head for a line, or a size no 32-bit length holds. */
  datatype Assembled = Body(text: seq<byte>, link: Link) | NoBody | Unclaimed

  /** The outer loop, on the bytes that actually come: a chunk of size zero is the last. */
  ghost function Assemble(l: Link, text: seq<byte>, cap: nat): Assembled
    decreases |Whole(l)|
  {
    match AfterLine(l, cap)
    case Lost => NoBody
    case Foreign => Unclaimed
    case Line(n, l1) =>
      if n > Largest then Unclaimed
      else
        match AfterContent(l1, n, cap)
        case None => NoBody
        case Some(l2) =>
          var more := text + Whole(l1)[..n];
          if n == 0 then Body(more, l2) else Assemble(l2, more, cap)
  }

  datatype Result = Text(body: seq<byte>) | Closed | Beyond

  ghost predicate Returns(r: Result, now: Link, want: Assembled) {
    match want
    case Body(text, link) => r == Text(text) && now == link
    case NoBody => r == Closed
    case Unclaimed => r == Beyond
  }

  /** One content, in terms of the link. */
  method ReadContent(stream: SocketStream, data: array<byte>, len: nat, n: nat, body: seq<byte>)
    returns (ok: bool, left: nat, text: seq<byte>)
    requires len + 1 < data.Length
    modifies data, stream.socket`plan, stream.socket`incoming
    ensures left + 1 < data.Length
    ensures var l := old(LinkOf(stream.socket, data, len));
      var next := AfterContent(l, n, data.Length - 1);
      && (ok <==> next.Some?)
      && (ok ==> LinkOf(stream.socket, data, left) == next.value && text == body + Whole(l)[..n])
  {
    ghost var l := LinkOf(stream.socket, data, len);
    ghost var lacks := n + 2 - len;
    ok, left, text := ReadChunk(stream, data, len, n, body);
    if ok {
      ghost var next := AfterContent(l, n, data.Length - 1).value;
      assert Whole(LinkOf(stream.socket, data, left)) == Whole(l)[n + 2..] == Whole(next);
      SameSplit(data[..left], stream.socket.incoming, next.front, next.incoming);
    }
  }

  lemma SameSplit(a: seq<byte>, b: seq<byte>, c: seq<byte>, d: seq<byte>)
    requires a + b == c + d && |a| == |c|
    ensures a == c && b == d
  {
    assert (a + b)[..|a|] == a && (c + d)[..|c|] == c;
    assert (a + b)[|a|..] == b && (c + d)[|c|..] == d;
  }

  /** The chunk loop of recvResponse. */
  method ReadChunked(stream: SocketStream, data: array<byte>, len: nat) returns (r: Result, left: nat)
    requires len + 1 < data.Length
    modifies data, stream.socket`plan, stream.socket`incoming
    ensures left + 1 < data.Length
    ensures Returns(r, LinkOf(stream.socket, data, left),
                    old(Assemble(LinkOf(stream.socket, data, len), [], data.Length - 1)))
  {
    left := len;
    var text: seq<byte> := [];
    ghost var cap := data.Length - 1;
    ghost var want := Assemble(LinkOf(stream.socket, data, len), [], cap);
    while true
      invariant left + 1 < data.Length && Assemble(LinkOf(stream.socket, data, left), text, cap) == want
      decreases |Whole(LinkOf(stream.socket, data, left))|
    {
      var f, ok;
      f, left := ReadLine(stream, data, left);
      match f {
        case NoLine => return Closed, left;
        case Strange => return Beyond, left;
        case Got(n) =>
          if n > Largest {
            return Beyond, left;
          }
          ok, left, text := ReadContent(stream, data, left, n, text);
          if !ok {
            return Closed, left;
          }
          if n == 0 {
            return Text(text), left;
          }
      }
    }
  }

  // One size line

  /** Where in a line of n bytes the feed begins that holds its last byte, if the network brings it. */
  ghost function LastFeed(l: Link, n: nat, cap: nat): (k: Option<nat>)
    requires n >= 1
    ensures k.Some? ==> k.value < n
    decreases n
  {
    match Refilled(l, cap)
    case None => None
    case Some(f) =>
      if n <= |f.front| then Some(0)
      else
        match LastFeed(f.(front := []), n - |f.front|, cap)
        case None => None
        case Some(k) => Some(|f.front| + k)
  }

  /** The size line of a chunk: digits, and extensions with the line end. */
  ghost predicate SizeText(d: seq<byte>, t: seq<byte>) {
    d != [] && AllHex(d) && Tail(t)
  }

  /** A line that one feed holds is read right. */
  lemma LineInOneFeed(l: Link, d: seq<byte>, t: seq<byte>, later: seq<byte>, cap: nat)
    requires SizeText(d, t) && Whole(l) == d + t + later
    requires Refilled(l, cap).Some? && |d| + |t| <= |Refilled(l, cap).value.front|
    ensures var r := AfterLine(l, cap); r.Line? && r.n == Hex(d) && Whole(r.link) == later
    ensures LastFeed(l, |d| + |t|, cap) == Some(0) && d[0..] == d
  {
    FedLine(Refilled(l, cap).value, d, t, later);
  }

  /** A line of n bytes whose last feed begins at k, among its digits, is read as the number `v` that
      the digits from there on make, and exactly what follows the line is left. */
  lemma {:induction false} LineFromLastFeed(l: Link, d: seq<byte>, t: seq<byte>, later: seq<byte>, cap: nat,
                                            n: nat, k: nat, v: seq<byte>)
    requires SizeText(d, t) && Whole(l) == d + t + later && n == |d| + |t|
    requires LastFeed(l, n, cap) == Some(k) && k < |d| && v == d[k..]
    ensures var r := AfterLine(l, cap); r.Line? && r.n == Hex(v) && Whole(r.link) == later
    decreases |d|
  {
    var f := Refilled(l, cap).value;
    var m := |f.front|;
    if n <= m {
      LineInOneFeed(l, d, t, later, cap);
    } else {
      var e := d[m..];
      FeedBefore(l, d, t, later, cap, n, k, v, f, e);
      LineFromLastFeed(f.(front := []), e, t, later, cap, n - m, k - m, v);
    }
  }

  /** A feed of digits before the one that ends the line: the rest of the line is read alone. */
  lemma FeedBefore(l: Link, d: seq<byte>, t: seq<byte>, later: seq<byte>, cap: nat,
                   n: nat, k: nat, v: seq<byte>, f: Link, e: seq<byte>)
    requires SizeText(d, t) && Whole(l) == d + t + later && n == |d| + |t| && Refilled(l, cap) == Some(f)
    requires LastFeed(l, n, cap) == Some(k) && k < |d| && v == d[k..] && n > |f.front|
    requires |f.front| <= |d| && e == d[|f.front|..]
    ensures var next, m := f.(front := []), |f.front|;
      && m <= k && LastFeed(next, n - m, cap) == Some(k - m) && v == e[k - m..]
      && SizeText(e, t) && Whole(next) == e + t + later && AfterLine(l, cap) == AfterLine(next, cap)
  {
    LastFeedBehind(l, n, cap, k);
    assert v == e[k - |f.front|..] by {
      DropMore(d, |f.front|, k - |f.front|);
    }
    FedDigits(f, d, t, later, e);
    assert AfterLine(l, cap) == AfterLine(f.(front := []), cap) by {
      FedOn(l, n, cap);
    }
  }

  /** A line that the first feed does not hold ends in a later one. */
  lemma LastFeedBehind(l: Link, n: nat, cap: nat, k: nat)
    requires n >= 1 && LastFeed(l, n, cap) == Some(k) && n > |Refilled(l, cap).value.front|
    ensures var f := Refilled(l, cap).value;
      |f.front| <= k && LastFeed(f.(front := []), n - |f.front|, cap) == Some(k - |f.front|)
  {}

  /** A feed that is eaten without a verdict. */
  lemma FedOn(l: Link, n: nat, cap: nat)
    requires Refilled(l, cap).Some? && Execute(Refilled(l, cap).value.front) == More
    requires |Refilled(l, cap).value.front| < n
    ensures var f := Refilled(l, cap).value;
      var k := LastFeed(f.(front := []), n - |f.front|, cap);
      && AfterLine(l, cap) == AfterLine(f.(front := []), cap)
      && LastFeed(l, n, cap) == if k.Some? then Some(|f.front| + k.value) else None
  {}

  /** A first part that is no longer than the buffered bytes is their beginning. */
  lemma FrontSplit(front: seq<byte>, incoming: seq<byte>, a: seq<byte>, b: seq<byte>)
    requires front + incoming == a + b && |a| <= |front|
    ensures front == a + front[|a|..] && front[|a|..] + incoming == b
  {
    assert front[..|a|] == (front + incoming)[..|a|] == a;
    assert (front + incoming)[|a|..] == front[|a|..] + incoming;
    assert (a + b)[|a|..] == b;
  }

  /** A feed that holds the whole line. */
  lemma FedLine(f: Link, d: seq<byte>, t: seq<byte>, later: seq<byte>)
    requires SizeText(d, t) && Whole(f) == d + t + later && |d| + |t| <= |f.front|
    ensures Execute(f.front) == Size(Hex(d), |d| + |t|)
    ensures Whole(f.(front := f.front[|d| + |t|..])) == later
  {
    FrontSplit(f.front, f.incoming, d + t, later);
    WholeFeed(d, t, f.front[|d| + |t|..]);
  }

  /** A feed no longer than the digits is digits only, and the rest of the line is still to come. */
  lemma FedDigits(f: Link, d: seq<byte>, t: seq<byte>, later: seq<byte>, e: seq<byte>)
    requires AllHex(d) && Whole(f) == d + t + later && 0 < |f.front| <= |d| && e == d[|f.front|..]
    ensures AllHex(e) && Execute(f.front) == More
    ensures f.incoming == e + t + later && Whole(f.(front := [])) == e + t + later
  {
    var m := |f.front|;
    assert d + t + later == d[..m] + (d[m..] + t + later);
    FrontSplit(f.front, f.incoming, d[..m], d[m..] + t + later);
    assert f.front[m..] == [] && f.front == d[..m];
    assert [] + f.incoming == f.incoming;
    DigitFeed(d[..m]);
    assert forall b <- e :: b in d;
  }

  /** A feed that ends between the CR and the LF. */
  lemma FedCr(f: Link, d: seq<byte>, later: seq<byte>)
    requires d != [] && AllHex(d) && Whole(f) == d + [Cr, Lf] + later && |f.front| == |d| + 1
    ensures Execute(f.front) == More && f.incoming == [Lf] + later
  {
    assert d + [Cr, Lf] + later == (d + [Cr]) + ([Lf] + later);
    FrontSplit(f.front, f.incoming, d + [Cr], [Lf] + later);
    assert f.front[|d| + 1..] == [] && f.front == d + [Cr];
    assert [] + f.incoming == f.incoming;
    DigitFeed(d);
  }

  /** A plain line, without extensions, whose last feed begins behind its digits, or does not come, is
      no line to the parser. */
  lemma {:induction false} PlainLineLost(l: Link, d: seq<byte>, later: seq<byte>, cap: nat, n: nat)
    requires d != [] && AllHex(d) && Whole(l) == d + [Cr, Lf] + later && n == |d| + 2
    requires LastFeed(l, n, cap).Some? ==> |d| <= LastFeed(l, n, cap).value
    ensures AfterLine(l, cap) == Lost
    decreases |d|
  {
    if Refilled(l, cap).Some? {
      var f := Refilled(l, cap).value;
      var m := |f.front|;
      var next := f.(front := []);
      if m < |d| {
        var e := d[m..];
        FedDigits(f, d, [Cr, Lf], later, e);
        FedOn(l, n, cap);
        PlainLineLost(next, e, later, cap, n - m);
      } else if m == |d| {
        FedDigits(f, d, [Cr, Lf], later, []);
        LineEndLost(next, [Cr, Lf] + later, cap);
      } else {
        FedCr(f, d, later);
        LineEndLost(next, [Lf] + later, cap);
      }
    }
  }

  /** What a fresh parser makes of a line end that the previous call left for it. */
  lemma LineEndLost(l: Link, rest: seq<byte>, cap: nat)
    requires l.front == [] && l.incoming == rest && rest != [] && (rest[0] == Cr || rest[0] == Lf)
    ensures AfterLine(l, cap) == Lost
  {
    if Refilled(l, cap).Some? {
      LineEndFeed(Refilled(l, cap).value.front);
    }
  }

  /** When the size comes out right, for a plain size line: exactly when the last feed of it begins among
      the digits and the digits before it are zeros. In particular a line fed in one piece does. */
  lemma PlainLineExactly(l: Link, d: seq<byte>, later: seq<byte>, cap: nat)
    requires d != [] && AllHex(d) && Whole(l) == d + [Cr, Lf] + later
    ensures var k := LastFeed(l, |d| + 2, cap);
      var r := AfterLine(l, cap);
      && (r.Line? && r.n == Hex(d) <==> k.Some? && k.value < |d| && Zeros(d[..k.value]))
      && (r.Line? <==> k.Some? && k.value < |d|) && (r.Line? || r.Lost?)
      && (r.Line? ==> r.n == Hex(d[k.value..]) && Whole(r.link) == later)
  {
    PlainTail();
    var k := LastFeed(l, |d| + 2, cap);
    if k.Some? && k.value < |d| {
      LineFromLastFeed(l, d, [Cr, Lf], later, cap, |d| + 2, k.value, d[k.value..]);
      SuffixValue(d, k.value);
    } else {
      PlainLineLost(l, d, later, cap, |d| + 2);
    }
  }

  lemma SuffixValue(d: seq<byte>, k: nat)
    requires AllHex(d) && k <= |d|
    ensures Hex(d[k..]) == Hex(d) <==> Zeros(d[..k])
  {
    assert d == d[..k] + d[k..];
    HexSuffix(d[..k], d[k..]);
  }

  // Whole bodies

  /** A chunk as sent: the digits of its size, extensions with the line end, and its content. */
  datatype Chunk = Chunk(digits: seq<byte>, tail: seq<byte>, content: seq<byte>)

  ghost predicate Proper(c: Chunk, last: bool) {
    SizeText(c.digits, c.tail) && Hex(c.digits) == |c.content| <= Largest && (last <==> c.content == [])
  }

  /** Chunks with content and then one without. */
  ghost predicate AllProper(chunks: seq<Chunk>) {
    chunks != [] && forall i :: 0 <= i < |chunks| ==> Proper(chunks[i], i == |chunks| - 1)
  }

  ghost function Sent(chunks: seq<Chunk>): seq<byte> {
    if chunks == [] then []
    else chunks[0].digits + chunks[0].tail + (chunks[0].content + [Cr, Lf] + Sent(chunks[1..]))
  }

  ghost function Joined(chunks: seq<Chunk>): seq<byte> {
    if chunks == [] then [] else chunks[0].content + Joined(chunks[1..])
  }

  /** The network brings every chunk: the last feed of each size line begins among its digits, behind
      zeros only, and what the buffer lacks of each content arrives before a failure, cut anywhere. */
  ghost predicate Arrives(l: Link, chunks: seq<Chunk>, cap: nat)
    decreases |chunks|
  {
    chunks == []
    || (var c := chunks[0];
        var k, r := if c.digits == [] then None else LastFeed(l, |c.digits| + |c.tail|, cap), AfterLine(l, cap);
        && k.Some? && k.value < |c.digits| && Zeros(c.digits[..k.value]) && r.Line?
        && var next := AfterContent(r.link, |c.content|, cap);
           next.Some? && Arrives(next.value, chunks[1..], cap))
  }

  /** Every size comes out right and every content arrives. */
  ghost predicate RightAlong(l: Link, chunks: seq<Chunk>, cap: nat)
    decreases |chunks|
  {
    chunks == []
    || (var r := AfterLine(l, cap);
        && r.Line? && r.n == |chunks[0].content|
        && var next := AfterContent(r.link, |chunks[0].content|, cap);
           next.Some? && RightAlong(next.value, chunks[1..], cap))
  }

  /** A chunk that arrives is read as it was sent, and what follows it is left. */
  lemma ChunkArrives(l: Link, c: Chunk, last: bool, later: seq<byte>, cap: nat)
    requires Proper(c, last) && Whole(l) == c.digits + c.tail + (c.content + [Cr, Lf] + later)
    requires var k := LastFeed(l, |c.digits| + |c.tail|, cap);
      k.Some? && k.value < |c.digits| && Zeros(c.digits[..k.value])
    ensures var r := AfterLine(l, cap);
      && r.Line? && r.n == |c.content| && Whole(r.link) == c.content + [Cr, Lf] + later
      && Whole(r.link)[..r.n] == c.content
      && var next := AfterContent(r.link, r.n, cap); next.Some? ==> Whole(next.value) == later
  {
    var n := |c.digits| + |c.tail|;
    var k := LastFeed(l, n, cap).value;
    var behind := c.content + [Cr, Lf] + later;
    LineFromLastFeed(l, c.digits, c.tail, behind, cap, n, k, c.digits[k..]);
    SuffixValue(c.digits, k);
    assert behind[..|c.content|] == c.content && behind[|c.content| + 2..] == later;
  }

  /** Chunks that arrive are assembled to their contents, joined in order, and buffer and stream then hold
      exactly what follows the last of them. */
  lemma {:induction false} BodyOfChunks(l: Link, text: seq<byte>, chunks: seq<Chunk>, rest: seq<byte>, cap: nat)
    requires AllProper(chunks) && Whole(l) == Sent(chunks) + rest && Arrives(l, chunks, cap)
    ensures var r := Assemble(l, text, cap);
      r.Body? && r.text == text + Joined(chunks) && Whole(r.link) == rest
    ensures RightAlong(l, chunks, cap)
    decreases |chunks|
  {
    var c, later := chunks[0], Sent(chunks[1..]) + rest;
    assert Proper(c, 0 == |chunks| - 1);
    SentLayout(c, Sent(chunks[1..]), rest);
    ChunkArrives(l, c, |chunks| == 1, later, cap);
    var next, more := AfterContent(AfterLine(l, cap).link, |c.content|, cap).value, text + c.content;
    AssembleOn(l, text, c.content, next, more, cap);
    JoinedOn(chunks, text, more);
    if |chunks| == 1 {
      assert later == rest && more + [] == more;
    } else {
      ProperRest(chunks);
      BodyOfChunks(next, more, chunks[1..], rest, cap);
    }
  }

  /** One turn of the outer loop. */
  lemma AssembleOn(l: Link, text: seq<byte>, content: seq<byte>, next: Link, more: seq<byte>, cap: nat)
    requires var r := AfterLine(l, cap);
      && r.Line? && r.n == |content| <= Largest && |content| <= |Whole(r.link)| && Whole(r.link)[..|content|] == content
      && AfterContent(r.link, |content|, cap) == Some(next) && more == text + content
    ensures Assemble(l, text, cap) == if content == [] then Body(more, next) else Assemble(next, more, cap)
  {}

  lemma JoinedOn(chunks: seq<Chunk>, text: seq<byte>, more: seq<byte>)
    requires chunks != [] && more == text + chunks[0].content
    ensures more + Joined(chunks[1..]) == text + Joined(chunks)
  {
    Regroup(text, chunks[0].content, Joined(chunks[1..]));
  }

  lemma SentLayout(c: Chunk, later: seq<byte>, rest: seq<byte>)
    ensures c.digits + c.tail + (c.content + [Cr, Lf] + later) + rest ==
            c.digits + c.tail + (c.content + [Cr, Lf] + (later + rest))
  {}

  lemma ProperRest(chunks: seq<Chunk>)
    requires AllProper(chunks) && |chunks| > 1
    ensures AllProper(chunks[1..])
  {
    forall i | 0 <= i < |chunks[1..]|
      ensures Proper(chunks[1..][i], i == |chunks[1..]| - 1)
    {
      assert chunks[1..][i] == chunks[i + 1];
    }
  }

  /** Chunks that are all in the buffer arrive, whatever the network does. */
  lemma {:induction false} BufferedArrives(l: Link, chunks: seq<Chunk>, rest: seq<byte>, cap: nat)
    requires AllProper(chunks) && Whole(l) == Sent(chunks) + rest && |Sent(chunks)| <= |l.front|
    ensures Arrives(l, chunks, cap)
    decreases |chunks|
  {
    var c, later := chunks[0], Sent(chunks[1..]) + rest;
    assert Proper(c, 0 == |chunks| - 1);
    SentLayout(c, Sent(chunks[1..]), rest);
    FedLine(l, c.digits, c.tail, c.content + [Cr, Lf] + later);
    ChunkArrives(l, c, |chunks| == 1, later, cap);
    var next := AfterContent(AfterLine(l, cap).link, |c.content|, cap).value;
    if |chunks| > 1 {
      ProperRest(chunks);
      BufferedArrives(next, chunks[1..], rest, cap);
    }
  }

  lemma SizeExactly(l: Link, c: Chunk, last: bool, later: seq<byte>, cap: nat)
    requires Proper(c, last) && c.tail == [Cr, Lf]
    requires Whole(l) == c.digits + c.tail + (c.content + [Cr, Lf] + later)
    ensures var r, k := AfterLine(l, cap), LastFeed(l, |c.digits| + |c.tail|, cap);
      && (r.Line? && r.n == |c.content| <==> k.Some? && k.value < |c.digits| && Zeros(c.digits[..k.value]))
      && (r.Line? && r.n == |c.content| ==>
            var next := AfterContent(r.link, r.n, cap); next.Some? ==> Whole(next.value) == later)
  {
    PlainLineExactly(l, c.digits, c.content + [Cr, Lf] + later, cap);
    var r := AfterLine(l, cap);
    if r.Line? && r.n == |c.content| {
      ChunkArrives(l, c, last, later, cap);
    }
  }

  /** For plain size lines the condition on the cuts is exact: every size comes out right, and every content
      arrives, exactly when no line is cut but among the zeros before its digits. */
  lemma {:induction false} ArrivesExactly(l: Link, chunks: seq<Chunk>, rest: seq<byte>, cap: nat)
    requires AllProper(chunks) && Whole(l) == Sent(chunks) + rest
    requires forall i :: 0 <= i < |chunks| ==> chunks[i].tail == [Cr, Lf]
    ensures RightAlong(l, chunks, cap) <==> Arrives(l, chunks, cap)
    decreases |chunks|
  {
    var c, later := chunks[0], Sent(chunks[1..]) + rest;
    assert Proper(c, 0 == |chunks| - 1);
    SentLayout(c, Sent(chunks[1..]), rest);
    SizeExactly(l, c, |chunks| == 1, later, cap);
    var r := AfterLine(l, cap);
    if r.Line? && r.n == |c.content| {
      var next := AfterContent(r.link, r.n, cap);
      if next.Some? && |chunks| > 1 {
        ProperRest(chunks);
        ArrivesExactly(next.value, chunks[1..], rest, cap);
      }
    }
  }

  // Three ways to cut a size line

  /** Among leading zeros it does no harm: "0A", cut after the zero, is still ten. */
  lemma ZeroCutIsHarmless(later: seq<byte>)
    ensures var l := Link(true, [1, 100], [], [48, 65, Cr, Lf] + later);
      AfterLine(l, 100).Line? && AfterLine(l, 100).n == 10
  {
    var l := Link(true, [1, 100], [], [48, 65, Cr, Lf] + later);
    CutAfterOne(48, 65, later);
  }

  /** Behind another digit it gives another size, and the loop goes on with it: "1A" is read as ten. */
  lemma DigitCutIsMisread(later: seq<byte>)
    ensures var l := Link(true, [1, 100], [], [49, 65, Cr, Lf] + later);
      AfterLine(l, 100).Line? && AfterLine(l, 100).n == 10 && Hex([49, 65]) == 26
  {
    var l := Link(true, [1, 100], [], [49, 65, Cr, Lf] + later);
    CutAfterOne(49, 65, later);
    HexOfTwo(49, 65);
  }

  lemma HexOfTwo(a: byte, b: byte)
    requires Url.IsHex(a) && Url.IsHex(b)
    ensures AllHex([a, b]) && Hex([a, b]) == 16 * Url.HexValue(a) + Url.HexValue(b)
  {
    HexLast([], a);
    HexLast([a], b);
    assert [a, b] == [a] + [b] && [] + [a] == [a];
  }

  lemma CutAfterOne(a: byte, b: byte, later: seq<byte>)
    requires Url.IsHex(a) && Url.IsHex(b)
    ensures var l := Link(true, [1, 100], [], [a, b, Cr, Lf] + later);
      AfterLine(l, 100).Line? && AfterLine(l, 100).n == Url.HexValue(b)
  {
    var l := Link(true, [1, 100], [], [a, b, Cr, Lf] + later);
    var all := [a, b, Cr, Lf] + later;
    var f := Refilled(l, 100).value;
    assert Later([1, 100]) == [100];
    assert f == Link(true, [100], [a], all[1..]);
    var g := f.(front := []);
    var h := Refilled(g, 100).value;
    assert |h.front| >= 3;
    assert LastFeed(g, 3, 100) == Some(0);
    assert LastFeed(l, 4, 100) == Some(1);
    assert [] + all == [a, b] + [Cr, Lf] + later;
    PlainLineExactly(l, [a, b], later, 100);
    assert [a, b][1..] == [b];
    HexLast([], b);
    assert [] + [b] == [b];
  }

  /** Between the CR and the LF the body is lost, although the network brings every byte. */
  lemma LineEndCutIsLost(later: seq<byte>)
    ensures Assemble(Link(true, [2, 100], [], [48, Cr, Lf] + later), [], 100) == NoBody
  {
    var l := Link(true, [2, 100], [], [48, Cr, Lf] + later);
    var all := [48, Cr, Lf] + later;
    var f := Refilled(l, 100).value;
    assert Later([2, 100]) == [100];
    assert f == Link(true, [100], [48, Cr], all[2..]);
    var g := f.(front := []);
    assert LastFeed(g, 1, 100) == Some(0);
    assert LastFeed(l, 3, 100) == Some(2);
    assert [] + all == [48] + [Cr, Lf] + later;
    PlainLineExactly(l, [48], later, 100);
  }
}
