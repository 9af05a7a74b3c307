/** The block list with a cursor of src/bytearray.cc, refining one flat byte string. */
module ByteArrays {
  import opened Base
  import opened Bytes

  class Node {
    const size: nat
    const ptr: array<byte>
    var next: Node?

    constructor (s: nat)
      ensures size == s && ptr.Length == s && fresh(ptr) && next == null
    {
      size := s;
      ptr := new byte[s];
      next := null;
    }
  }

  /** A read delivers bytes, throws out_of_range, or dereferences the null cursor node. */
  datatype ReadResult = Data(bytes: seq<byte>) | OutOfRange | NullNode

  /** One piece of a scatter/gather transfer: `len` bytes of the array from `off` on. */
  datatype Iovec = Iovec(base: array<byte>, off: nat, len: nat)

  ghost predicate InRange(iovs: seq<Iovec>) {
    forall v <- iovs :: v.off + v.len <= v.base.Length
  }

  /** The bytes the iovecs name, in order. */
  ghost function Gather(iovs: seq<Iovec>): (s: seq<byte>)
    requires InRange(iovs)
    reads set v <- iovs :: v.base
  {
    if iovs == [] then [] else iovs[0].base[iovs[0].off..iovs[0].off + iovs[0].len] + Gather(iovs[1..])
  }

  /** The capacity after making room up to `need`: whole blocks more, if any. */
  function GrownTo(capacity: nat, need: nat, base: nat): nat
    requires base >= 1
  {
    if capacity >= need then capacity else capacity + Off((need - capacity + base - 1) / base, base)
  }

  class ByteArray {
    const baseSize: nat
    var position: nat
    var capacity: nat
    var size: nat
    var root: Node
    var cur: Node?
    ghost var nodes: seq<Node>
    ghost var flat: seq<byte>
    ghost var at: nat
    ghost var Repr: set<object>

    ghost predicate Linked()
      reads `root, `nodes, `Repr, Repr
    {
      && this !in Repr && |nodes| >= 1 && root == nodes[0]
      && (forall i {:trigger nodes[i]} :: 0 <= i < |nodes| ==>
            && nodes[i] in Repr && nodes[i].ptr in Repr
            && nodes[i].size == nodes[i].ptr.Length == baseSize)
      && (forall i {:trigger nodes[i].next} :: 0 <= i < |nodes| ==>
            nodes[i].next == if i + 1 < |nodes| then nodes[i + 1] else null)
      && (forall i, j :: 0 <= i < j < |nodes| ==> nodes[i] != nodes[j] && nodes[i].ptr != nodes[j].ptr)
    }

    /** The blocks hold the flat string. */
    ghost predicate Stored()
      reads `root, `nodes, `Repr, `flat, `capacity, Repr
    {
      && baseSize >= 1 && Linked()
      && capacity == Off(|nodes|, baseSize) == |flat|
      && (forall i {:trigger nodes[i]} :: 0 <= i < |nodes| ==>
            Off(i, baseSize) + baseSize <= |flat| && nodes[i].ptr[..] == Block(flat, baseSize, i))
    }

    /** `at` numbers the block the cursor is in; the cached node is that block, or null past
        the last one. */
    ghost predicate Shape()
      reads this, Repr
    {
      && Stored() && position <= capacity
      && at <= |nodes| && cur == (if at == |nodes| then null else nodes[at])
      && Off(at, baseSize) <= position
      && (at < |nodes| ==> position < Off(at, baseSize) + baseSize)
    }

    ghost predicate Valid()
      reads this, Repr
    {
      Shape() && position <= size <= capacity
    }

    /** What the array holds, as one string. */
    ghost function Contents(): seq<byte>
      requires Valid()
      reads this, Repr
    {
      flat[..size]
    }

    ghost function Abs(): (f: Flat)
      reads this, Repr
      ensures f.Flat? ==> f.pos <= |f.bytes|
    {
      if Valid() then Flat(Contents(), position) else Broken
    }

    constructor (base: nat)
      requires base >= 1
      ensures Valid() && fresh(Repr)
      ensures baseSize == base && Contents() == [] && position == 0 && capacity == base
    {
      baseSize := base;
      position, capacity, size := 0, base, 0;
      var n := new Node(base);
      root, cur := n, n;
      nodes := [n];
      flat := n.ptr[..];
      at := 0;
      Repr := {n, n.ptr};
    }

    lemma CursorNull()
      requires Shape()
      ensures cur == null <==> position == capacity
    {
      if at < |nodes| {
        OffOrder(at, |nodes|, baseSize);
      }
    }

    /** The cached node is block position / baseSize, and null exactly at full capacity. */
    lemma CursorNode()
      requires Shape()
      ensures cur == null <==> position == capacity
      ensures cur != null ==> position / baseSize < |nodes| && cur == nodes[position / baseSize]
    {
      CursorNull();
      if cur != null {
        Divided(position, baseSize, at);
      }
    }

    /** The cursor's offset in its block. */
    method Offset() returns (npos: nat)
      requires Shape() && position < capacity
      ensures position == Off(at, baseSize) + npos && npos < baseSize && cur != null && cur == nodes[at]
    {
      CursorNull();
      Divided(position, baseSize, at);
      npos := position % baseSize;
    }

    /** memcpy into block k. */
    method CopyIn(ptr: array<byte>, ghost k: nat, npos: nat, data: seq<byte>)
      requires Stored() && k < |nodes| && ptr == nodes[k].ptr && npos + |data| <= baseSize
      modifies ptr, this`flat
      ensures Stored() && Off(k, baseSize) + npos + |data| <= |old(flat)|
      ensures flat == Splice(old(flat), Off(k, baseSize) + npos, data)
    {
      ghost var before := flat;
      assert Linked();
      OffOrder(k, |nodes|, baseSize);
      Memcpy(ptr, npos, data);
      flat := Splice(flat, Off(k, baseSize) + npos, data);
      forall j | 0 <= j < |nodes|
        ensures Off(j, baseSize) + baseSize <= |flat| && nodes[j].ptr[..] == Block(flat, baseSize, j)
      {
        OffOrder(j, |nodes|, baseSize);
        if j != k {
          SpliceOther(before, baseSize, k, npos, data, j);
          assert nodes[j].ptr[..] == old(nodes[j].ptr[..]);
        } else {
          SpliceBlock(before, baseSize, k, npos, data);
        }
      }
      assert Linked();
    }

    /** Moves the cursor n bytes on inside the current block, or to the next block. */
    method Advance(npos: nat, n: nat)
      requires Shape() && cur != null && position == Off(at, baseSize) + npos && npos + n <= baseSize
      modifies this`position, this`cur, this`at
      ensures Shape() && position == old(position) + n
      ensures npos + n == baseSize ==> position == Off(at, baseSize)
    {
      assert Stored() && Linked() && cur == nodes[at] && cur.next == nodes[at].next;
      OffOrder(at, |nodes|, baseSize);
      position := position + n;
      if cur.size == npos + n {
        cur := cur.next;
        at := at + 1;
      }
    }

    /** Appends one block, with whatever bytes it happens to hold, to the list ending in `last`. */
    method AppendNode(last: Node) returns (n: Node)
      requires Stored() && last == nodes[|nodes| - 1]
      modifies last`next, this`nodes, this`Repr, this`flat, this`capacity
      ensures Stored() && nodes == old(nodes) + [n] && fresh(n) && fresh(n.ptr)
      ensures Repr == old(Repr) + {n, n.ptr}
      ensures capacity == old(capacity) + baseSize && old(flat) <= flat
    {
      assert Linked();
      ghost var before := flat;
      n := new Node(baseSize);
      last.next := n;
      nodes := nodes + [n];
      Repr := Repr + {n, n.ptr};
      capacity := capacity + baseSize;
      flat := flat + n.ptr[..];
      assert Linked();
      forall i | 0 <= i < |nodes|
        ensures Off(i, baseSize) + baseSize <= |flat| && nodes[i].ptr[..] == Block(flat, baseSize, i)
      {
        if i < |nodes| - 1 {
          assert nodes[i] == old(nodes)[i] && nodes[i].ptr[..] == old(nodes[i].ptr[..]);
          assert Block(flat, baseSize, i) == Block(before, baseSize, i);
        }
      }
    }

    method LastNode() returns (tmp: Node)
      requires Linked()
      ensures tmp == nodes[|nodes| - 1]
    {
      tmp := root;
      ghost var t := 0;
      while tmp.next != null
        invariant t < |nodes| && tmp == nodes[t]
        decreases |nodes| - t
      {
        assert tmp.next == nodes[t].next;
        tmp := tmp.next;
        t := t + 1;
      }
      assert tmp.next == nodes[t].next;
    }

    /** Appends `count` blocks and returns the first of them. */
    method AppendNodes(count: nat) returns (first: Node)
      requires Stored() && count >= 1
      modifies this, Repr
      ensures Stored() && fresh(Repr - old(Repr)) && old(Repr) <= Repr
      ensures old(nodes) < nodes && first == nodes[|old(nodes)|]
      ensures capacity == old(capacity) + Off(count, baseSize) && old(flat) <= flat
      ensures position == old(position) && size == old(size) && cur == old(cur) && at == old(at) && root == old(root)
    {
      var tmp := LastNode();
      first := AppendNode(tmp);
      tmp := first;
      var i := 1;
      assert Off(1, baseSize) == baseSize;
      while i < count
        invariant 1 <= i <= count && Stored() && fresh(Repr - old(Repr)) && old(Repr) <= Repr
        invariant tmp == nodes[|nodes| - 1] && old(nodes) < nodes && first == nodes[|old(nodes)|]
        invariant capacity == old(capacity) + Off(i, baseSize) && old(flat) <= flat
        invariant position == old(position) && size == old(size)
          && cur == old(cur) && at == old(at) && root == old(root)
      {
        tmp := AppendNode(tmp);
        i := i + 1;
      }
    }

    /** addCapacity: enough whole blocks for `n` more bytes; nothing already stored changes. */
    method AddCapacity(n: nat)
      requires Shape()
      modifies this, Repr
      ensures Shape() && fresh(Repr - old(Repr)) && old(Repr) <= Repr
      ensures position == old(position) && size == old(size) && old(flat) <= flat
      ensures position + n <= capacity
      ensures capacity == GrownTo(old(capacity), position + n, baseSize)
    {
      var room := capacity - position;
      if n == 0 || room >= n {
        return;
      }
      var count := (n - room + baseSize - 1) / baseSize;
      BlocksCover(n - room, baseSize);
      CursorNull();
      assert Stored();
      var first := AppendNodes(count);
      assert Off(at + 1, baseSize) == Off(at, baseSize) + baseSize;
      if room == 0 {
        cur := first;
      }
    }

    /** Stores the next piece of `buf` in the current block and moves the cursor past it. */
    method Put(npos: nat, buf: seq<byte>, bpos: nat, n: nat, ghost start: seq<byte>, ghost from: nat)
      requires Shape() && cur != null && position == Off(at, baseSize) + npos && npos + n <= baseSize
      requires bpos + n <= |buf| && position == from + bpos && from + |buf| <= |start|
      requires flat == Splice(start, from, buf[..bpos])
      modifies this`position, this`cur, this`at, this`flat, Repr
      ensures Shape() && position == old(position) + n
      ensures flat == Splice(start, from, buf[..bpos + n])
      ensures npos + n == baseSize ==> position == Off(at, baseSize)
    {
      SpliceStep(start, from, buf, bpos, n);
      assert Stored() && Linked() && cur == nodes[at];
      CopyIn(cur.ptr, at, npos, buf[bpos..bpos + n]);
      Advance(npos, n);
    }

    /** The copying loop of write: `buf` laid over the blocks from the cursor on. */
    method Fill(buf: seq<byte>)
      requires Shape() && |buf| > 0 && position + |buf| <= capacity
      modifies this`position, this`cur, this`at, this`flat, Repr
      ensures Shape() && position == old(position) + |buf| <= |old(flat)|
      ensures flat == Splice(old(flat), old(position), buf)
    {
      ghost var start := flat;
      var npos := Offset();
      assert Stored() && Linked();
      var ncap := cur.size - npos;
      var bpos, left := 0, |buf|;
      assert start == Splice(start, position, buf[..0]);
      while left > 0
        invariant Shape() && 0 <= bpos && 0 <= left && bpos + left == |buf| && position == old(position) + bpos
        invariant left > 0 ==> cur != null && position == Off(at, baseSize) + npos && npos + ncap == baseSize
        invariant flat == Splice(start, old(position), buf[..bpos])
      {
        var n := if ncap >= left then left else ncap;
        Put(npos, buf, bpos, n, start, old(position));
        bpos := bpos + n;
        left := left - n;
        if left > 0 {
          CursorNull();
          assert Stored() && Linked() && cur == nodes[at];
          ncap, npos := cur.size, 0;
        }
      }
      assert buf[..bpos] == buf;
    }

    /** write: lays `buf` over the contents at the cursor, growing them if it must. */
    method Write(buf: seq<byte>)
      requires Valid()
      modifies this, Repr
      ensures Valid() && fresh(Repr - old(Repr))
      ensures position == old(position) + |buf|
      ensures Contents() == Overwrite(old(Contents()), old(position), buf)
      ensures capacity == GrownTo(old(capacity), old(position) + |buf|, baseSize)
    {
      if |buf| == 0 {
        assert Contents() == Overwrite(Contents(), position, buf);
        return;
      }
      AddCapacity(|buf|);
      ghost var start := flat;
      assert start[..size] == old(Contents());
      Fill(buf);
      SplicePrefix(start, size, old(position), buf);
      if position > size {
        size := position;
      }
    }

    /** memcpy out of block k, behind the bytes already copied. */
    method CopyOut(node: Node, ghost k: nat, npos: nat, n: nat, bytes: seq<byte>, ghost from: nat)
      returns (r: seq<byte>)
      requires Stored() && k < |nodes| && node == nodes[k] && npos + n <= baseSize
      requires from <= Off(k, baseSize) + npos <= |flat| && bytes == flat[from..Off(k, baseSize) + npos]
      ensures Off(k, baseSize) + npos + n <= |flat|
      ensures r == flat[from..Off(k, baseSize) + npos + n]
    {
      assert Stored() && Linked() && nodes[k].ptr[..] == Block(flat, baseSize, k);
      OffOrder(k, |nodes|, baseSize);
      SliceInBlock(flat, baseSize, k, npos, n);
      var s := node.ptr[npos..npos + n];
      assert s == nodes[k].ptr[..][npos..npos + n];
      SliceStep(flat, from, Off(k, baseSize) + npos, Off(k, baseSize) + npos + n);
      r := bytes + s;
    }

    /** The next n bytes of the current block; the cursor moves past them. */
    method Take(npos: nat, n: nat, bytes: seq<byte>, ghost from: nat) returns (r: seq<byte>)
      requires Shape() && cur != null && position == Off(at, baseSize) + npos && npos + n <= baseSize
      requires from <= position && bytes == flat[from..position]
      modifies this`position, this`cur, this`at
      ensures Shape() && position == old(position) + n
      ensures r == flat[from..position]
      ensures npos + n == baseSize ==> position == Off(at, baseSize)
    {
      r := CopyOut(cur, at, npos, n, bytes, from);
      Advance(npos, n);
    }

    /** read: the next n bytes; too many is an exception, none at all at full capacity follows
        the null cursor node. A failed read changes nothing. */
    method Read(n: nat) returns (r: ReadResult)
      requires Valid()
      modifies this`position, this`cur, this`at
      ensures Valid()
      ensures r.OutOfRange? <==> n > size - old(position)
      ensures r.NullNode? <==> n == 0 && old(position) == capacity
      ensures r.Data? ==> position == old(position) + n && r.bytes == Contents()[old(position)..position]
      ensures !r.Data? ==> position == old(position)
    {
      if n > size - position {
        return OutOfRange;
      }
      CursorNull();
      if cur == null {
        return NullNode;
      }
      var npos := Offset();
      assert Stored() && Linked();
      var ncap := cur.size - npos;
      var bytes: seq<byte>, left := [], n;
      while left > 0
        invariant Shape() && 0 <= left <= n && position == old(position) + (n - left)
          && position + left <= size <= capacity
        invariant left > 0 ==> cur != null && position == Off(at, baseSize) + npos && npos + ncap == baseSize
        invariant bytes == flat[old(position)..position]
      {
        var m := if ncap >= left then left else ncap;
        bytes := Take(npos, m, bytes, old(position));
        left := left - m;
        if left > 0 {
          CursorNull();
          assert Stored() && Linked() && cur == nodes[at];
          ncap, npos := cur.size, 0;
        }
      }
      return Data(bytes);
    }

    /** Walks the list to the block holding offset v, or past the last one. */
    method Seek(v: nat) returns (node: Node?, ghost k: nat)
      requires Stored() && v <= capacity
      ensures k <= |nodes| && node == (if k == |nodes| then null else nodes[k])
      ensures Off(k, baseSize) <= v && (k < |nodes| ==> v < Off(k, baseSize) + baseSize)
    {
      assert Linked();
      node, k := root, 0;
      var left: nat := v;
      while left > node.size
        invariant k < |nodes| && node == nodes[k] && Off(k, baseSize) + left == v
        decreases left
      {
        left := left - node.size;
        assert nodes[k].next == node.next;
        node, k := node.next, k + 1;
      }
      if left == node.size {
        assert nodes[k].next == node.next;
        node, k := node.next, k + 1;
      }
    }

    /** setPosition: refused beyond the capacity; may make bytes part of the contents that
        were never written. */
    method SetPosition(v: nat) returns (ok: bool)
      requires Valid()
      modifies this`position, this`size, this`cur, this`at
      ensures Valid() && ok == (v <= capacity)
      ensures !ok ==> position == old(position) && size == old(size)
      ensures ok ==> position == v && size == (if v > old(size) then v else old(size))
      ensures old(Contents()) <= Contents()
    {
      if v > capacity {
        return false;
      }
      position := v;
      if position > size {
        size := position;
      }
      cur, at := Seek(v);
      return true;
    }

    /** clear: back to the one root block and nothing in it. */
    method Clear()
      requires Valid()
      modifies this, root`next
      ensures Valid() && Contents() == [] && position == 0 && capacity == baseSize
      ensures root == old(root) && Repr <= old(Repr)
    {
      assert Stored() && Linked() && root == nodes[0];
      position, size := 0, 0;
      capacity := baseSize;
      cur := root;
      root.next := null;
      nodes, at := [root], 0;
      flat := root.ptr[..];
      Repr := {root, root.ptr};
      assert Off(1, baseSize) == Off(0, baseSize) + baseSize == baseSize;
    }

    /** Where the positional read really starts: the cursor's block, at `pos`'s offset. */
    ghost function ReadStart(pos: nat): (start: nat)
      requires Shape()
      reads this, Repr
    {
      Off(at, baseSize) + pos % baseSize
    }

    /** Copies n bytes from a block on; walking off the list follows a null pointer. */
    method CopyFrom(from: Node, ghost k0: nat, off: nat, n: nat) returns (r: ReadResult)
      requires Stored() && k0 < |nodes| && from == nodes[k0] && off < baseSize
      ensures !r.OutOfRange? && (r.NullNode? <==> Off(k0, baseSize) + off + n > capacity)
      ensures r.Data? ==> r.bytes == flat[Off(k0, baseSize) + off..Off(k0, baseSize) + off + n]
    {
      assert Linked();
      ghost var start := Off(k0, baseSize) + off;
      OffOrder(k0, |nodes|, baseSize);
      var node: Node, npos, ncap, left := from, off, from.size - off, n;
      ghost var k: nat := k0;
      var bytes: seq<byte> := [];
      while left > 0
        invariant 0 <= left <= n && k < |nodes| && node == nodes[k]
        invariant left > 0 ==> 0 <= npos < baseSize && npos + ncap == baseSize
        invariant left > 0 ==> start + (n - left) == Off(k, baseSize) + npos
        invariant start + (n - left) <= |flat| && bytes == flat[start..start + (n - left)]
      {
        var m := if ncap >= left then left else ncap;
        bytes := CopyOut(node, k, npos, m, bytes, start);
        left := left - m;
        if left > 0 {
          assert nodes[k].next == node.next;
          if node.next == null {
            return NullNode;
          }
          node, k := node.next, k + 1;
          ncap, npos := node.size, 0;
        }
      }
      return Data(bytes);
    }

    /** read at a position: the test wraps around, and the block walk begins at the cursor node. */
    method ReadAt(n: nat, pos: nat) returns (r: ReadResult)
      requires Valid()
      ensures r.OutOfRange? <==> n > Minus64(size, pos)
      ensures r.NullNode? <==> n <= Minus64(size, pos) && (position == capacity || ReadStart(pos) + n > capacity)
      ensures r.Data? ==> r.bytes == flat[ReadStart(pos)..ReadStart(pos) + n]
      ensures pos + n <= size < Word && position < capacity && pos / baseSize == position / baseSize ==>
        r == Data(Contents()[pos..pos + n])
    {
      if n > Minus64(size, pos) {
        return OutOfRange;
      }
      CursorNull();
      if cur == null {
        return NullNode;
      }
      r := CopyFrom(cur, at, pos % baseSize, n);
      ReadStartHits(pos);
    }

    /** The positional read hits its mark exactly when mark and cursor share a block. */
    lemma ReadStartHits(pos: nat)
      requires Shape() && cur != null
      ensures ReadStart(pos) == pos <==> pos / baseSize == position / baseSize
    {
      CursorNull();
      Divided(position, baseSize, at);
      var q: nat := pos / baseSize;
      OffIsProduct(q, baseSize);
      assert pos == q * baseSize + pos % baseSize;
      if q < at {
        OffOrder(q, at, baseSize);
      } else if at < q {
        OffOrder(at, q, baseSize);
      }
    }

    /** toString: everything from the cursor on; the cursor stays. */
    method ToString() returns (s: seq<byte>)
      requires Valid() && size < Word
      ensures s == Contents()[position..]
    {
      if size - position == 0 {
        return [];
      }
      CursorNull();
      ReadStartHits(position);
      var r := ReadAt(size - position, position);
      return r.bytes;
    }

    /** The iovecs are, block by block from block k on, the bytes from..upto: in order, each
        inside the next block, none empty. */
    ghost predicate Views(iovs: seq<Iovec>, k: nat, from: nat, upto: nat)
      reads `nodes
      decreases |iovs|
    {
      if iovs == [] then from == upto
      else
        var v := iovs[0];
        && k < |nodes| && v.base == nodes[k].ptr && v.len > 0
        && Off(k, baseSize) + v.off == from && v.off + v.len <= baseSize
        && Views(iovs[1..], k + 1, from + v.len, upto)
    }

    /** No two iovecs share memory: the j-th lies in block k + j. */
    lemma {:induction false} ViewsApart(iovs: seq<Iovec>, k: nat, from: nat, upto: nat, j: nat)
      requires Views(iovs, k, from, upto) && j < |iovs|
      ensures k + j < |nodes| && iovs[j].base == nodes[k + j].ptr
      ensures iovs[j].len > 0 && iovs[j].off + iovs[j].len <= baseSize
    {
      if j > 0 {
        ViewsApart(iovs[1..], k + 1, from + iovs[0].len, upto, j - 1);
      }
    }

    lemma {:induction false} ViewsSnoc(iovs: seq<Iovec>, k: nat, from: nat, mid: nat, v: Iovec)
      requires Views(iovs, k, from, mid) && k + |iovs| < |nodes| && v.base == nodes[k + |iovs|].ptr && v.len > 0
      requires Off(k + |iovs|, baseSize) + v.off == mid && v.off + v.len <= baseSize
      ensures Views(iovs + [v], k, from, mid + v.len)
    {
      var all := iovs + [v];
      if iovs == [] {
        assert all[1..] == [];
      } else {
        ViewsSnoc(iovs[1..], k + 1, from + iovs[0].len, mid, v);
        assert all[1..] == iovs[1..] + [v];
      }
    }

    /** One iovec names a slice of the flat string. */
    lemma Piece(v: Iovec, k: nat)
      requires Stored() && k < |nodes| && v.base == nodes[k].ptr && v.off + v.len <= baseSize
      ensures v.off + v.len <= v.base.Length && Off(k, baseSize) + baseSize <= |flat|
      ensures v.base[v.off..v.off + v.len] == flat[Off(k, baseSize) + v.off..Off(k, baseSize) + v.off + v.len]
    {
      assert Linked();
      assert nodes[k].ptr[..] == Block(flat, baseSize, k);
      SliceInBlock(flat, baseSize, k, v.off, v.len);
      assert v.base[v.off..v.off + v.len] == nodes[k].ptr[..][v.off..v.off + v.len];
    }

    /** In flat terms the iovecs are exactly the slice they were cut from. */
    lemma {:induction false} GatheredSlice(iovs: seq<Iovec>, k: nat, from: nat, upto: nat)
      requires Stored() && Views(iovs, k, from, upto) && from <= |flat|
      ensures InRange(iovs) && from <= upto <= |flat| && Gather(iovs) == flat[from..upto]
    {
      if iovs != [] {
        var v := iovs[0];
        Piece(v, k);
        GatheredSlice(iovs[1..], k + 1, from + v.len, upto);
        SliceStep(flat, from, from + v.len, upto);
        assert iovs == [v] + iovs[1..];
      }
    }

    /** Cuts `len` bytes from a block on into iovecs; walking off the list follows a null pointer. */
    method Cut(first: Node, ghost k0: nat, off: nat, len: nat) returns (iovs: seq<Iovec>, ok: bool)
      requires Stored() && k0 < |nodes| && first == nodes[k0] && off < baseSize && len > 0
      ensures ok <==> Off(k0, baseSize) + off + len <= capacity
      ensures ok ==> Views(iovs, k0, Off(k0, baseSize) + off, Off(k0, baseSize) + off + len)
    {
      assert Linked();
      ghost var start, done: nat := Off(k0, baseSize) + off, 0;
      OffOrder(k0, |nodes|, baseSize);
      var node: Node, npos: nat, ncap: nat, left: nat := first, off, first.size - off, len;
      iovs := [];
      while left > 0
        invariant left + done == len && start + done <= capacity && Views(iovs, k0, start, start + done)
        invariant left > 0 ==> k0 + |iovs| < |nodes| && node == nodes[k0 + |iovs|]
        invariant left > 0 ==> npos + ncap == baseSize && start + done == Off(k0 + |iovs|, baseSize) + npos
        invariant ncap > 0
      {
        ghost var k := k0 + |iovs|;
        var v := Iovec(node.ptr, npos, if ncap >= left then left else ncap);
        OffOrder(k, |nodes|, baseSize);
        ViewsSnoc(iovs, k0, start, start + done, v);
        iovs := iovs + [v];
        left := left - v.len;
        done := done + v.len;
        if left > 0 {
          assert nodes[k].next == node.next;
          if node.next == null {
            return iovs, false;
          }
          node := node.next;
          ncap, npos := node.size, 0;
        }
      }
      return iovs, true;
    }

    /** getReadBuffers: at most `len` of the unread bytes, as iovecs; the cursor stays. */
    method GetReadBuffers(len: nat) returns (iovs: seq<Iovec>, n: nat)
      requires Valid()
      ensures n == (if len > size - position then size - position else len)
      ensures Views(iovs, at, position, position + n)
      ensures InRange(iovs) && Gather(iovs) == flat[position..position + n]
    {
      n := if len > size - position then size - position else len;
      if n == 0 {
        return [], 0;
      }
      var npos := Offset();
      var ok;
      iovs, ok := Cut(cur, at, npos, n);
      GatheredSlice(iovs, at, position, position + n);
    }

    /** The count-th block of the list, or nothing past its end. */
    method WalkTo(count: nat) returns (node: Node?)
      requires Linked()
      ensures node == if count < |nodes| then nodes[count] else null
    {
      node := root;
      var i := 0;
      while i < count
        invariant 0 <= i <= count && i < |nodes| && node == nodes[i]
      {
        assert node.next == nodes[i].next;
        if node.next == null {
          return null;
        }
        node := node.next;
        i := i + 1;
      }
    }

    /** A position as block number and offset. */
    method Locate(pos: nat) returns (count: nat, npos: nat)
      requires baseSize >= 1
      ensures npos < baseSize && Off(count, baseSize) + npos == pos
    {
      DivideBack(pos, baseSize);
      count, npos := pos / baseSize, pos % baseSize;
    }

    /** getReadBuffers at a position: clamped by what is left behind the cursor, so the bytes are
        surely contents only for positions up to the cursor; past the last block it follows a null
        pointer. */
    method GetReadBuffersAt(len: nat, pos: nat) returns (iovs: seq<Iovec>, n: nat, ok: bool)
      requires Valid()
      ensures n == (if len > size - position then size - position else len)
      ensures ok <==> n == 0 || pos + n <= capacity
      ensures ok && n > 0 ==> InRange(iovs) && Gather(iovs) == flat[pos..pos + n]
      ensures pos <= position ==> ok && pos + n <= size
    {
      n := if len > size - position then size - position else len;
      if n == 0 {
        return [], 0, true;
      }
      assert Stored();
      var count, npos := Locate(pos);
      var node := WalkTo(count);
      if node == null {
        if |nodes| < count {
          OffOrder(|nodes|, count, baseSize);
        }
        return [], n, false;
      }
      iovs, ok := Cut(node, count, npos, n);
      if ok {
        GatheredSlice(iovs, count, pos, pos + n);
      }
    }

    /** getWriteBuffers: room for `len` bytes at the cursor, as iovecs; contents and cursor stay. */
    method GetWriteBuffers(len: nat) returns (iovs: seq<Iovec>)
      requires Valid()
      modifies this, Repr
      ensures Valid() && fresh(Repr - old(Repr)) && position == old(position) && Contents() == old(Contents())
      ensures capacity == GrownTo(old(capacity), position + len, baseSize) && position + len <= capacity
      ensures Views(iovs, at, position, position + len)
    {
      if len == 0 {
        return [];
      }
      AddCapacity(len);
      var npos := Offset();
      var ok;
      iovs, ok := Cut(cur, at, npos, len);
    }

    /** What a vectored receive does to the memory: fills the iovecs in order with `data`. */
    method Scatter(iovs: seq<Iovec>, data: seq<byte>, ghost k: nat, ghost from: nat, ghost upto: nat)
      requires Stored() && Views(iovs, k, from, upto) && from + |data| <= upto <= |flat|
      modifies this`flat, Repr
      ensures Stored() && flat == Splice(old(flat), from, data)
      decreases |iovs|
    {
      if data == [] {
        return;
      }
      assert Linked();
      var v := iovs[0];
      var m := if v.len < |data| then v.len else |data|;
      ghost var start := flat;
      SpliceMore(start, from, data[..m], data[m..]);
      assert data[..m] + data[m..] == data;
      CopyIn(v.base, k, v.off, data[..m]);
      if m < |data| {
        Scatter(iovs[1..], data[m..], k + 1, from + m, upto);
      }
    }
  }

  /** Two one-byte blocks holding 7 and 8, cursor on the first: reading one byte at 1 gives the 7. */
  method ReadAtMisses() returns (a: ByteArray, got: ReadResult)
    ensures a.Valid() && a.Contents() == [7, 8] && a.position == 0 && got == Data([7])
  {
    a := new ByteArray(1);
    a.Write([7, 8]);
    var ok := a.SetPosition(0);
    assert a.Contents() == [7, 8];
    assert a.at == 0 by { a.CursorNull(); }
    got := a.ReadAt(1, 1);
    assert a.flat[0] == a.Contents()[0];
  }
}
