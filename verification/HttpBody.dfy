/** Body reassembly in src/http/http_session.cc and src/http/http_connection.cc: what was buffered
    behind the head, then the stream. */
module HttpBody {
  import opened Base
  import opened Bytes
  import opened Streams

  /** The body of a message with a content length. `data[..offset]` is what the head parser left. */
  method ReadSized(stream: SocketStream, data: array<byte>, offset: nat, length: int) returns (body: Option<seq<byte>>)
    requires offset <= data.Length
    modifies stream.socket`plan, stream.socket`incoming
    ensures var whole := data[..offset] + old(stream.socket.incoming);
      && (length <= 0 ==> body == Some([]))
      && (length > 0 && body.Some? ==> length <= |whole| && body.value == whole[..length])
      && (body.Some? ==> stream.socket.incoming == whole[if length > offset then length else offset..])
    ensures var n := if length > offset then length - offset else 0;
      body.Some? <==>
      Brings(stream.socket.connected, old(stream.socket.plan), |old(stream.socket.incoming)|, n, n)
  {
    if length <= 0 {
      return Some([]);
    }
    ghost var whole := data[..offset] + stream.socket.incoming;
    var text := new byte[length];
    var len := if length >= offset then offset else length;
    Memcpy(text, 0, data[..len]);
    var left := length - offset;
    if left > 0 {
      var more, rt := stream.ReadFixSize(left);
      if rt <= 0 {
        return None;
      }
      Memcpy(text, len, more);
      assert text[..] == data[..offset] + more;
    } else {
      assert text[..] == data[..length];
    }
    assert text[..] == whole[..length];
    return Some(text[..]);
  }

  /** One read into the front of the buffer. */
  method ReadInto(stream: SocketStream, data: array<byte>, n: nat) returns (rt: int)
    requires n <= data.Length
    modifies data, stream.socket`plan, stream.socket`incoming
    ensures rt == if stream.socket.connected
      then Answer(old(stream.socket.plan), Least(n, |old(stream.socket.incoming)|)) else -1
    ensures stream.socket.plan ==
      if stream.socket.connected then Later(old(stream.socket.plan)) else old(stream.socket.plan)
    ensures rt > 0 ==> rt <= data.Length && old(stream.socket.incoming) == data[..rt] + stream.socket.incoming
    ensures rt <= 0 ==> stream.socket.incoming == old(stream.socket.incoming)
  {
    var more;
    more, rt := stream.Read(n);
    if rt > 0 {
      Memcpy(data, 0, more);
      assert data[..rt] == more;
    }
  }

  /** Appends exactly `n` stream bytes to `text`, at most a buffer at a time. */
  method ReadRest(stream: SocketStream, data: array<byte>, n: nat, text: seq<byte>)
    returns (ok: bool, r: seq<byte>, ghost got: seq<byte>)
    requires data.Length >= 2
    modifies data, stream.socket`plan, stream.socket`incoming
    ensures ok <==>
      Brings(stream.socket.connected, old(stream.socket.plan), |old(stream.socket.incoming)|, n, data.Length - 1)
    ensures ok ==> |got| == n && old(stream.socket.incoming) == got + stream.socket.incoming && r == text + got
    ensures ok ==> stream.socket.plan == Rest(old(stream.socket.plan), n, data.Length - 1)
  {
    ghost var all, plan0, cap := stream.socket.incoming, stream.socket.plan, data.Length - 1;
    ghost var good := Brings(stream.socket.connected, plan0, |all|, n, cap);
    var left: nat := n;
    r, got := text, [];
    while left > 0
      invariant |got| + left == n && all == got + stream.socket.incoming && r == text + got
      invariant good <==> Brings(stream.socket.connected, stream.socket.plan, |stream.socket.incoming|, left, cap)
      invariant good ==> Rest(plan0, n, cap) == Rest(stream.socket.plan, left, cap)
    {
      ghost var plan, avail := stream.socket.plan, |stream.socket.incoming|;
      var rt := ReadInto(stream, data, Least(left, data.Length - 1));
      BringsOn(stream.socket.connected, plan, avail, left, cap, rt);
      if rt <= 0 {
        return false, r, got;
      }
      r := r + data[..rt];
      got := got + data[..rt];
      left := left - rt;
    }
    return true, r, got;
  }

  /** The bytes after a chunk's size line: its content, and what follows its closing line end. The
      buffer has one byte more than is ever read into it. It fails exactly when the network fails
      before it has brought what the buffer lacks. */
  method ReadChunk(stream: SocketStream, data: array<byte>, len: nat, content: nat, body: seq<byte>)
    returns (ok: bool, left: nat, text: seq<byte>)
    requires len + 1 < data.Length
    modifies data, stream.socket`plan, stream.socket`incoming
    ensures var lacks, cap := content + 2 - len, data.Length - 1;
      && (ok <==>
            Brings(stream.socket.connected, old(stream.socket.plan), |old(stream.socket.incoming)|, lacks, cap))
      && (ok ==> left == if lacks < 0 then -lacks else 0)
      && (ok ==> stream.socket.plan == Rest(old(stream.socket.plan), lacks, cap))
    ensures left <= len
    ensures ok ==> var whole := old(data[..len]) + old(stream.socket.incoming);
      && content + 2 <= |whole| && text == body + whole[..content]
      && data[..left] + stream.socket.incoming == whole[content + 2..]
  {
    ghost var front, all := data[..len], stream.socket.incoming;
    if content + 2 <= len {
      text := body + data[..content];
      left := len - content - 2;
      MoveUp(data, len, content + 2);
      return true, left, text;
    }
    ghost var got;
    ok, text, got := ReadRest(stream, data, content - len + 2, body + data[..len]);
    if ok {
      ChunkCut(body, front, got, all, stream.socket.incoming, content);
      text := text[..|text| - 2];
    }
    left := 0;
  }

  /** Dropping the last two of content + 2 bytes. */
  lemma ChunkCut(body: seq<byte>, front: seq<byte>, got: seq<byte>, all: seq<byte>, rest: seq<byte>, content: nat)
    requires all == got + rest && |front| + |got| == content + 2
    ensures (body + front + got)[..|body + front + got| - 2] == body + (front + all)[..content]
    ensures (front + all)[content + 2..] == rest
  {}

  /** memmove of what is left to the front. */
  method MoveUp(data: array<byte>, len: nat, n: nat)
    requires n <= len <= data.Length
    modifies data
    ensures data[..len - n] == old(data[..len])[n..]
  {
    forall i | 0 <= i < len - n {
      data[i] := data[i + n];
    }
  }
}
