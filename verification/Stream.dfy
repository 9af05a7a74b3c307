/** Whole transfers over partial ones: src/stream.cc and src/streams/socket_stream.cc. */
module Streams {
  import opened Bytes
  import opened ByteArrays

  /** A connected peer. `incoming` is all it will ever send, `sent` all it was sent. `plan` holds the
      network's answers, one a call: not positive for an error or an end of file, else how many
      bytes go through at most. */
  class Socket {
    var connected: bool
    var incoming: seq<byte>
    var sent: seq<byte>
    var plan: seq<int>

    constructor (incoming: seq<byte>, plan: seq<int>)
      ensures connected && this.incoming == incoming && this.plan == plan && sent == []
    {
      connected, this.incoming, this.plan, sent := true, incoming, plan, [];
    }

    /** The next answer of the network for a transfer of up to n bytes. */
    method Grant(n: nat) returns (rt: int)
      modifies this`plan
      ensures rt == Answer(old(plan), n) && plan == Later(old(plan))
    {
      if plan == [] {
        return 0;
      }
      rt := if plan[0] > n then n else plan[0];
      plan := plan[1..];
    }

    /** recv of up to n bytes: rt of them, or a failure. */
    method Recv(n: nat) returns (data: seq<byte>, rt: int)
      modifies this`plan, this`incoming
      ensures rt == Answer(old(plan), Least(n, |old(incoming)|)) && plan == Later(old(plan))
      ensures rt > 0 ==> |data| == rt && old(incoming) == data + incoming
      ensures rt <= 0 ==> data == [] && incoming == old(incoming)
    {
      rt := Grant(Least(n, |incoming|));
      if rt <= 0 {
        return [], rt;
      }
      data := incoming[..rt];
      incoming := incoming[rt..];
    }

    /** send of some bytes: a prefix goes out, or a failure. */
    method Send(data: seq<byte>) returns (rt: int)
      modifies this`plan, this`sent
      ensures rt == Answer(old(plan), |data|) && plan == Later(old(plan))
      ensures sent == old(sent) + if rt > 0 then data[..rt] else []
    {
      rt := Grant(|data|);
      if rt > 0 {
        sent := sent + data[..rt];
      }
    }
  }

  function Least(a: nat, b: nat): (m: nat) {
    if a < b then a else b
  }

  /** What the network answers to a transfer of up to n bytes. */
  function Answer(plan: seq<int>, n: nat): (rt: int)
    ensures rt <= n
  {
    if plan == [] then 0 else if plan[0] > n then n else plan[0]
  }

  function Later(plan: seq<int>): seq<int> {
    if plan == [] then [] else plan[1..]
  }

  /** Before the first failure the answers, none counting for more than `cap`, add up to n. */
  ghost predicate Supplies(plan: seq<int>, n: int, cap: nat)
    decreases |plan|
  {
    n <= 0 || (plan != [] && plan[0] > 0 && Supplies(plan[1..], n - Least(plan[0], cap), cap))
  }

  /** What is left of the plan when they have. */
  ghost function Rest(plan: seq<int>, n: int, cap: nat): seq<int>
    requires Supplies(plan, n, cap)
    decreases |plan|
  {
    if n <= 0 then plan else Rest(plan[1..], n - Least(plan[0], cap), cap)
  }

  /** The network brings n of the `avail` bytes there are, at most `cap` at a time, without a failure. */
  ghost predicate Brings(connected: bool, plan: seq<int>, avail: nat, n: int, cap: nat) {
    n <= 0 || (connected && n <= avail && Supplies(plan, n, cap))
  }

  /** One transfer on the way: it fails only when the whole cannot succeed, and otherwise what is
      left succeeds exactly when the whole does. */
  lemma BringsOn(connected: bool, plan: seq<int>, avail: nat, n: nat, cap: nat, rt: int)
    requires 0 < n && 0 < cap
    requires rt == if connected then Answer(plan, Least(Least(n, cap), avail)) else -1
    ensures rt <= 0 ==> !Brings(connected, plan, avail, n, cap)
    ensures rt > 0 ==>
      && rt <= avail && rt <= n
      && (Brings(connected, plan, avail, n, cap) <==> Brings(connected, plan[1..], avail - rt, n - rt, cap))
      && (Brings(connected, plan, avail, n, cap) ==> Rest(plan, n, cap) == Rest(plan[1..], n - rt, cap))
  {
    if rt > 0 && n <= avail {
      var m := n - Least(plan[0], cap);
      assert if m > 0 then m == n - rt else n == rt;
      assert Supplies(plan, n, cap) <==> Supplies(plan[1..], m, cap);
      if Supplies(plan, n, cap) && m <= 0 {
        assert Rest(plan[1..], m, cap) == plan[1..] == Rest(plan[1..], 0, cap);
      }
    }
  }

  /** Every call moves something for at least n calls. */
  ghost predicate Flows(plan: seq<int>, n: nat) {
    |plan| >= n && forall i :: 0 <= i < n ==> plan[i] > 0
  }

  /** Any positive answers will do. */
  lemma {:induction false} FlowsSupply(plan: seq<int>, n: nat, cap: nat)
    requires Flows(plan, n) && cap > 0
    ensures Supplies(plan, n, cap)
    decreases n
  {
    if n > 0 {
      var m := n - Least(plan[0], cap);
      if m > 0 {
        assert Flows(plan[1..], m);
        FlowsSupply(plan[1..], m, cap);
      }
    }
  }

  class SocketStream {
    const socket: Socket

    constructor (socket: Socket)
      ensures this.socket == socket
    {
      this.socket := socket;
    }

    method Read(n: nat) returns (data: seq<byte>, rt: int)
      modifies socket`plan, socket`incoming
      ensures rt == if socket.connected then Answer(old(socket.plan), Least(n, |old(socket.incoming)|)) else -1
      ensures socket.plan == if socket.connected then Later(old(socket.plan)) else old(socket.plan)
      ensures rt > 0 ==> |data| == rt && old(socket.incoming) == data + socket.incoming
      ensures rt <= 0 ==> data == [] && socket.incoming == old(socket.incoming)
    {
      if !socket.connected {
        return [], -1;
      }
      data, rt := socket.Recv(n);
    }

    /** readFixSize into memory: exactly the next n bytes, however the network cuts them; a failure
        has taken fewer, in order. */
    method ReadFixSize(n: nat) returns (data: seq<byte>, rt: int)
      modifies socket`plan, socket`incoming
      ensures old(socket.incoming) == data + socket.incoming
      ensures (rt == n && |data| == n) || (rt <= 0 && |data| < n)
      ensures rt == n <==> Brings(socket.connected, old(socket.plan), |old(socket.incoming)|, n, n)
    {
      ghost var good := Brings(socket.connected, socket.plan, |socket.incoming|, n, n);
      data := [];
      var left: nat := n;
      while left > 0
        invariant |data| + left == n && old(socket.incoming) == data + socket.incoming
        invariant good <==> Brings(socket.connected, socket.plan, |socket.incoming|, left, n)
      {
        ghost var plan, avail := socket.plan, |socket.incoming|;
        var more, len := Read(left);
        BringsOn(socket.connected, plan, avail, left, n, len);
        if len <= 0 {
          return data, len;
        }
        data := data + more;
        left := left - len;
      }
      return data, n;
    }

    method Write(data: seq<byte>) returns (rt: int)
      modifies socket`plan, socket`sent
      ensures rt == if socket.connected then Answer(old(socket.plan), |data|) else -1
      ensures socket.plan == if socket.connected then Later(old(socket.plan)) else old(socket.plan)
      ensures socket.sent == old(socket.sent) + if rt > 0 then data[..rt] else []
    {
      if !socket.connected {
        return -1;
      }
      rt := socket.Send(data);
    }

    /** writeFixSize from memory: all of it goes out in order, or a proper prefix and a failure. */
    method WriteFixSize(data: seq<byte>) returns (rt: int, ghost done: nat)
      modifies socket`plan, socket`sent
      ensures done <= |data| && socket.sent == old(socket.sent) + data[..done]
      ensures (rt == |data| && done == |data|) || (rt <= 0 && done < |data|)
      ensures rt == |data| <==> Brings(socket.connected, old(socket.plan), |data|, |data|, |data|)
    {
      ghost var good := Brings(socket.connected, socket.plan, |data|, |data|, |data|);
      var offset: nat, left: nat := 0, |data|;
      while left > 0
        invariant offset + left == |data| && socket.sent == old(socket.sent) + data[..offset]
        invariant good <==> Brings(socket.connected, socket.plan, left, left, |data|)
      {
        ghost var plan := socket.plan;
        var len := Write(data[offset..]);
        BringsOn(socket.connected, plan, left, left, |data|, len);
        if len <= 0 {
          return len, offset;
        }
        SliceStep(data, 0, offset, offset + len);
        SliceDrop(data, offset, len);
        offset := offset + len;
        left := left - len;
      }
      return |data|, offset;
    }

    /** read into a ByteArray: the bytes land at the cursor, through the blocks' own memory. */
    method ReadTo(ba: ByteArray, n: nat) returns (rt: int)
      requires ba.Abs().Flat? && socket !in ba.Repr
      modifies ba, ba.Repr, socket`plan, socket`incoming
      ensures fresh(ba.Repr - old(ba.Repr))
      ensures rt <= 0 ==> ba.Abs() == old(ba.Abs()) && socket.incoming == old(socket.incoming)
      ensures rt > 0 ==>
        && rt <= n && rt <= |old(socket.incoming)| && socket.incoming == old(socket.incoming)[rt..]
        && ba.Abs() == Laid(old(ba.Abs()), old(socket.incoming)[..rt])
      ensures rt == if socket.connected then Answer(old(socket.plan), Least(n, |old(socket.incoming)|)) else -1
      ensures socket.plan == if socket.connected then Later(old(socket.plan)) else old(socket.plan)
    {
      if !socket.connected {
        return -1;
      }
      var iovs := ba.GetWriteBuffers(n);
      var data;
      data, rt := socket.Recv(n);
      if rt > 0 {
        ghost var all := old(socket.incoming);
        assert data == all[..rt] && socket.incoming == all[rt..];
        Deliver(ba, iovs, data, n);
      }
    }

    /** One turn of readFixSize, in terms of the whole stream. */
    method ReadMore(ba: ByteArray, left: nat, ghost start: Flat, ghost all: seq<byte>, ghost done: nat, ghost cap: nat)
      returns (len: int, ghost now: nat)
      requires start.Flat? && start.pos <= |start.bytes| && done <= |all| && 0 < left <= cap
      requires ba.Abs() == Laid(start, all[..done]) && socket.incoming == all[done..] && socket !in ba.Repr
      modifies ba, ba.Repr, socket`plan, socket`incoming
      ensures fresh(ba.Repr - old(ba.Repr)) && len <= left && now == (if len > 0 then done + len else done) <= |all|
      ensures ba.Abs() == Laid(start, all[..now]) && socket.incoming == all[now..]
      ensures len <= 0 ==> !Brings(socket.connected, old(socket.plan), |all| - done, left, cap)
      ensures len > 0 ==>
        (Brings(socket.connected, old(socket.plan), |all| - done, left, cap) <==>
         Brings(socket.connected, socket.plan, |all| - now, left - len, cap))
    {
      ghost var f, plan := ba.Abs(), socket.plan;
      len := ReadTo(ba, left);
      BringsOn(socket.connected, plan, |all| - done, left, cap, len);
      if len > 0 {
        LaidNext(start, all, done, len, f, all[done..], ba.Abs());
      }
      now := if len > 0 then done + len else done;
    }

    /** readFixSize into a ByteArray: the next n stream bytes are laid over the contents at the cursor
        and the cursor moves by n; a failure has moved fewer, in order. */
    method ReadFixSizeTo(ba: ByteArray, n: nat) returns (rt: int, ghost done: nat)
      requires ba.Abs().Flat? && socket !in ba.Repr
      modifies ba, ba.Repr, socket`plan, socket`incoming
      ensures done <= |old(socket.incoming)| && socket.incoming == old(socket.incoming)[done..]
      ensures ba.Abs() == Laid(old(ba.Abs()), old(socket.incoming)[..done])
      ensures (rt == n && done == n) || (rt <= 0 && done < n)
      ensures rt == n <==> Brings(socket.connected, old(socket.plan), |old(socket.incoming)|, n, n)
    {
      ghost var all, start := socket.incoming, ba.Abs();
      ghost var good := Brings(socket.connected, socket.plan, |all|, n, n);
      done := 0;
      var left: nat := n;
      LaidNone(start, all);
      while left > 0
        invariant done + left == n && done <= |all| && socket.incoming == all[done..]
        invariant fresh(ba.Repr - old(ba.Repr)) && ba.Abs() == Laid(start, all[..done])
        invariant good <==> Brings(socket.connected, socket.plan, |all| - done, left, n)
      {
        var len;
        len, done := ReadMore(ba, left, start, all, done, n);
        if len <= 0 {
          return len, done;
        }
        left := left - len;
      }
      return n, done;
    }

    /** write from a ByteArray: the unread bytes, through the blocks' own memory. */
    method WriteFrom(ba: ByteArray, n: nat) returns (rt: int)
      requires ba.Abs().Flat? && socket !in ba.Repr
      modifies ba`position, ba`size, ba`cur, ba`at, socket`plan, socket`sent
      ensures rt <= 0 ==> ba.Abs() == old(ba.Abs()) && socket.sent == old(socket.sent)
      ensures rt > 0 ==> var f := old(ba.Abs());
        && rt <= n && rt <= |f.bytes| - f.pos && ba.Abs() == Flat(f.bytes, f.pos + rt)
        && socket.sent == old(socket.sent) + f.bytes[f.pos..f.pos + rt]
      ensures var f := old(ba.Abs());
        rt == if socket.connected then Answer(old(socket.plan), Least(n, |f.bytes| - f.pos)) else -1
      ensures socket.plan == if socket.connected then Later(old(socket.plan)) else old(socket.plan)
    {
      if !socket.connected {
        return -1;
      }
      var data, len := Pick(ba, n);
      rt := socket.Send(data);
      if rt > 0 {
        SlicePrefix(ba.Abs().bytes, ba.position, len, rt);
        Forward(ba, rt);
      }
    }

    /** One turn of writeFixSize, in terms of the whole transfer. */
    method WriteMore(ba: ByteArray, left: nat, ghost f: Flat, ghost done: nat, ghost before: seq<byte>, ghost cap: nat)
      returns (len: int, ghost now: nat)
      requires f.Flat? && f.pos + done <= |f.bytes| && 0 < left <= cap && socket !in ba.Repr
      requires ba.Abs() == Flat(f.bytes, f.pos + done) && socket.sent == before + f.bytes[f.pos..f.pos + done]
      modifies ba`position, ba`size, ba`cur, ba`at, socket`plan, socket`sent
      ensures len <= left && now == (if len > 0 then done + len else done) <= |f.bytes| - f.pos
      ensures ba.Abs() == Flat(f.bytes, f.pos + now) && socket.sent == before + f.bytes[f.pos..f.pos + now]
      ensures len <= 0 ==> !Brings(socket.connected, old(socket.plan), |f.bytes| - f.pos - done, left, cap)
      ensures len > 0 ==>
        (Brings(socket.connected, old(socket.plan), |f.bytes| - f.pos - done, left, cap) <==>
         Brings(socket.connected, socket.plan, |f.bytes| - f.pos - now, left - len, cap))
    {
      ghost var plan := socket.plan;
      len := WriteFrom(ba, left);
      BringsOn(socket.connected, plan, |f.bytes| - f.pos - done, left, cap, len);
      now := if len > 0 then done + len else done;
      SliceStep(f.bytes, f.pos, f.pos + done, f.pos + now);
    }

    /** writeFixSize from a ByteArray: exactly its next n bytes go out and the cursor moves by n; a
        failure has moved fewer. It cannot succeed for more than there is to read. */
    method WriteFixSizeFrom(ba: ByteArray, n: nat) returns (rt: int, ghost done: nat)
      requires ba.Abs().Flat? && socket !in ba.Repr
      modifies ba`position, ba`size, ba`cur, ba`at, socket`plan, socket`sent
      ensures var f := old(ba.Abs());
        && done <= |f.bytes| - f.pos && ba.Abs() == Flat(f.bytes, f.pos + done)
        && socket.sent == old(socket.sent) + f.bytes[f.pos..f.pos + done]
      ensures (rt == n && done == n) || (rt <= 0 && done < n)
      ensures var f := old(ba.Abs());
        rt == n <==> Brings(socket.connected, old(socket.plan), |f.bytes| - f.pos, n, n)
    {
      ghost var f := ba.Abs();
      ghost var good := Brings(socket.connected, socket.plan, |f.bytes| - f.pos, n, n);
      done := 0;
      var left: nat := n;
      while left > 0
        invariant done + left == n && done <= |f.bytes| - f.pos && ba.Abs() == Flat(f.bytes, f.pos + done)
        invariant socket.sent == old(socket.sent) + f.bytes[f.pos..f.pos + done]
        invariant good <==> Brings(socket.connected, socket.plan, |f.bytes| - f.pos - done, left, n)
      {
        var len;
        len, done := WriteMore(ba, left, f, done, old(socket.sent), n);
        if len <= 0 {
          return len, done;
        }
        left := left - len;
      }
      return n, done;
    }
  }

  /** What sendmsg reads from the memory the iovecs name. */
  method Collect(iovs: seq<Iovec>) returns (data: seq<byte>)
    requires InRange(iovs)
    ensures data == Gather(iovs)
  {
    data := [];
    assert iovs[0..] == iovs;
    for i := 0 to |iovs|
      invariant data + Gather(iovs[i..]) == Gather(iovs)
    {
      var v := iovs[i];
      assert iovs[i..] == [v] + iovs[i + 1..];
      data := data + v.base[v.off..v.off + v.len];
    }
  }

  /** What a gathered send offers the network: the next n unread bytes, or all there are. */
  method Pick(ba: ByteArray, n: nat) returns (data: seq<byte>, len: nat)
    requires ba.Abs().Flat?
    ensures len == (if n > ba.size - ba.position then ba.size - ba.position else n)
    ensures var f := ba.Abs(); |f.bytes| == ba.size && data == f.bytes[f.pos..f.pos + len]
  {
    var iovs;
    iovs, len := ba.GetReadBuffers(n);
    SliceOfPrefix(ba.flat, ba.size, ba.position, ba.position + len);
    data := Collect(iovs);
  }

  method Forward(ba: ByteArray, n: nat)
    requires ba.Abs().Flat? && ba.position + n <= ba.size
    modifies ba`position, ba`size, ba`cur, ba`at
    ensures ba.Abs() == Flat(old(ba.Abs().bytes), old(ba.Abs().pos) + n)
  {
    var ok := ba.SetPosition(ba.position + n);
  }

  /** What recvmsg and the setPosition behind it do together. */
  method Deliver(ba: ByteArray, iovs: seq<Iovec>, data: seq<byte>, ghost n: nat)
    requires ba.Valid() && 0 < |data| <= n && ba.position + n <= ba.capacity
    requires ba.Views(iovs, ba.at, ba.position, ba.position + n)
    modifies ba`flat, ba.Repr, ba`position, ba`size, ba`cur, ba`at
    ensures ba.Abs() == Laid(old(ba.Abs()), data)
  {
    ghost var start, size, from := ba.flat, ba.size, ba.position;
    ba.Scatter(iovs, data, ba.at, ba.position, ba.position + n);
    SplicePrefix(start, size, from, data);
    var ok := ba.SetPosition(ba.position + |data|);
    assert ba.flat == Splice(start, from, data);
    assert ba.Contents() == Splice(start, from, data)[..ba.size];
  }
}
