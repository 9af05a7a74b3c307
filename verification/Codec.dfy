/** The typed writers and readers of src/bytearray.cc, over the block list. */
module Codec {
  import opened Bytes
  import opened Wire
  import opened ByteArrays

  /** No block more than the contents need. */
  ghost predicate Tight(a: ByteArray)
    reads a
  {
    a.capacity == a.baseSize || a.capacity < a.size + a.baseSize
  }

  /** What a reader sees: the unread bytes and the distance to the end of the last block. */
  datatype Sight = Sight(unread: seq<byte>, room: nat) | Blind

  ghost function View(a: ByteArray): Sight
    reads a, a.Repr
  {
    if a.Valid() then Sight(a.Contents()[a.position..], a.capacity - a.position) else Blind
  }

  ghost function Skip(v: Sight, n: nat): Sight
    requires v.Sight? && n <= |v.unread| && n <= v.room
  {
    Sight(v.unread[n..], v.room - n)
  }

  lemma SkipMore(v: Sight, m: nat, n: nat)
    requires v.Sight? && m + n <= |v.unread| && m + n <= v.room
    ensures Skip(Skip(v, m), n) == Skip(v, m + n)
  {}

  /** No more can be unread than there is room for. */
  lemma RoomEnough(a: ByteArray)
    requires a.Valid()
    ensures View(a).Sight? && |View(a).unread| <= View(a).room
    ensures |View(a).unread| == a.size - a.position
  {}

  lemma GrownBound(capacity: nat, need: nat, base: nat)
    requires base >= 1
    ensures need <= GrownTo(capacity, need, base)
    ensures capacity < need ==> GrownTo(capacity, need, base) < need + base
  {
    if capacity < need {
      BlocksCover(need - capacity, base);
    }
  }

  /** A write keeps a tight array tight. */
  method Append(a: ByteArray, s: seq<byte>)
    requires a.Abs().Flat?
    modifies a, a.Repr
    ensures a.Abs() == Laid(old(a.Abs()), s) && fresh(a.Repr - old(a.Repr))
    ensures old(Tight(a)) ==> Tight(a)
  {
    assert a.Stored();
    ghost var before, size := a.capacity, a.size;
    a.Write(s);
    assert a.size == |a.Contents()| >= size && a.size >= a.position;
    GrownBound(before, a.position, a.baseSize);
  }

  /** The encoding loop with its temporary array of 5 (32-bit) or 10 (64-bit) bytes. */
  method EncodeVarint(n: nat, bits: nat) returns (s: seq<byte>)
    requires bits >= 1 && n < Pow2(bits)
    ensures s == Varint(n) && |s| <= (bits + 6) / 7
  {
    VarintFits(n, bits);
    var tmp := new byte[(bits + 6) / 7];
    var i: nat, value: nat := 0, n;
    while value >= 0x80
      invariant i + |Varint(value)| <= tmp.Length
      invariant tmp[..i] + Varint(value) == Varint(n)
    {
      tmp[i] := value % 128 + 128;
      i := i + 1;
      value := value / 128;
      assert tmp[..i] == tmp[..i - 1] + [tmp[i - 1]];
    }
    tmp[i] := value;
    i := i + 1;
    s := tmp[..i];
  }

  method WriteInt(a: ByteArray, k: Kind, n: int, swap: bool)
    requires a.Abs().Flat? && Fits(k, Int(n))
    modifies a, a.Repr
    ensures a.Abs() == Laid(old(a.Abs()), EncodeInt(k, n, swap)) && fresh(a.Repr - old(a.Repr))
    ensures old(Tight(a)) ==> Tight(a)
  {
    var s;
    match k {
      case FixU(w) =>
        s := Image(n, w, swap);
      case FixS(w) =>
        s := Image(Pattern(n, Pow256(w)), w, swap);
      case VarU(bits) =>
        s := EncodeVarint(n, bits);
      case VarS(bits) =>
        ZigZagMeaning(n, Pow2(bits));
        s := EncodeVarint(ZigZag(n, Pow2(bits)), bits);
    }
    Append(a, s);
  }

  method WriteItem(a: ByteArray, k: Kind, v: Item, swap: bool)
    requires a.Abs().Flat? && Fits(k, v)
    modifies a, a.Repr
    ensures a.Abs() == Laid(old(a.Abs()), Encode(k, v, swap)) && fresh(a.Repr - old(a.Repr))
    ensures old(Tight(a)) ==> Tight(a)
  {
    match v
    case Int(n) =>
      WriteInt(a, k, n, swap);
    case Text(t) =>
      LaidTwice(a.Abs(), EncodeInt(PrefixKind(k), |t|, swap), t);
      WriteInt(a, PrefixKind(k), |t|, swap);
      Append(a, t);
  }

  /** read, in terms of what is unread. */
  method Next(a: ByteArray, n: nat) returns (r: ReadResult)
    requires View(a).Sight?
    modifies a`position, a`cur, a`at
    ensures var v := old(View(a));
      && |v.unread| <= v.room
      && (r.OutOfRange? <==> n > |v.unread|)
      && (r.NullNode? <==> n == 0 == v.room)
      && (r.Data? ==> r.bytes == v.unread[..n] && View(a) == Skip(v, n))
      && (!r.Data? ==> View(a) == v)
  {
    ghost var all, from := a.Contents(), a.position;
    r := a.Read(n);
    assert a.Contents() == all;
    if r.Data? {
      DropMore(all, from, n);
      SliceDrop(all, from, n);
    }
  }

  method ReadVarint(a: ByteArray, bits: nat) returns (r: Number)
    requires View(a).Sight?
    modifies a`position, a`cur, a`at
    ensures var v := old(View(a));
      && r == VarintFrom(v.unread, bits, 0, 0, 0)
      && r.used <= |v.unread| <= v.room && View(a) == Skip(v, r.used)
  {
    ghost var v := View(a);
    RoomEnough(a);
    var i: nat, acc: nat, used: nat := 0, 0, 0;
    while i < bits
      invariant used <= |v.unread| && View(a) == Skip(v, used)
      invariant VarintFrom(v.unread, bits, 0, 0, 0) == VarintFrom(v.unread, bits, i, acc, used)
    {
      var b := Next(a, 1);
      if !b.Data? {
        return Short(used);
      }
      SkipMore(v, used, 1);
      acc := AddGroup(acc, b.bytes[0], i, bits);
      used := used + 1;
      if b.bytes[0] < 0x80 {
        return Number(acc, used);
      }
      i := i + 7;
    }
    return Number(acc, used);
  }

  method ReadFixed(a: ByteArray, w: nat, swap: bool) returns (r: Number)
    requires View(a).Sight? && w >= 1
    modifies a`position, a`cur, a`at
    ensures var v := old(View(a));
      && r == ReadNumber(FixU(w), swap, v.unread)
      && r.used <= |v.unread| <= v.room && View(a) == Skip(v, r.used)
  {
    var b := Next(a, w);
    r := if b.Data? then Number(Unimage(b.bytes, swap), w) else Short(0);
  }

  method ReadInt(a: ByteArray, k: Kind, swap: bool) returns (r: Number)
    requires View(a).Sight? && KindOk(k) && !k.StrF? && !k.StrV?
    modifies a`position, a`cur, a`at
    ensures var v := old(View(a));
      && r == ReadNumber(k, swap, v.unread)
      && r.used <= |v.unread| <= v.room && View(a) == Skip(v, r.used)
  {
    match k
    case FixU(w) => r := ReadFixed(a, w, swap);
    case FixS(w) => r := ReadFixed(a, w, swap);
    case VarU(bits) => r := ReadVarint(a, bits);
    case VarS(bits) => r := ReadVarint(a, bits);
  }

  method ReadText(a: ByteArray, pk: Kind, swap: bool) returns (r: Outcome)
    requires View(a).Sight? && KindOk(pk) && (pk.FixU? || pk.VarU?)
    modifies a`position, a`cur, a`at
    ensures var v := old(View(a));
      && r == DecodeText(pk, swap, v.unread, v.room)
      && r.used <= |v.unread| <= v.room && View(a) == Skip(v, r.used)
  {
    ghost var v := View(a);
    var n := ReadInt(a, pk, swap);
    TextCases(pk, swap, v.unread, v.room, n);
    if n.Short? {
      return Thrown(n.used);
    }
    var b := Next(a, n.value);
    if b.Data? {
      SkipMore(v, n.used, n.value);
      return Got(Text(b.bytes), n.used + n.value);
    }
    return if b.NullNode? then Crash(n.used) else Thrown(n.used);
  }

  /** Any typed read, on any contents: the item, an exception or the null node, exactly as the flat
      bytes and the room to the end of the last block decide. */
  method ReadItem(a: ByteArray, k: Kind, swap: bool) returns (r: Outcome)
    requires View(a).Sight? && KindOk(k)
    modifies a`position, a`cur, a`at
    ensures var v := old(View(a));
      && r == Decode(k, swap, v.unread, v.room)
      && r.used <= |v.unread| <= v.room && View(a) == Skip(v, r.used)
  {
    if k.StrF? || k.StrV? {
      r := ReadText(a, PrefixKind(k), swap);
    } else {
      var n := ReadInt(a, k, swap);
      r := if n.Short? then Thrown(n.used) else Got(Int(Interpret(k, n.value)), n.used);
    }
  }

  /** Writing a list lays the concatenated images over the contents. */
  method WriteAll(a: ByteArray, kinds: seq<Kind>, vals: seq<Item>, swap: bool)
    requires a.Abs().Flat? && AllFit(kinds, vals)
    modifies a, a.Repr
    ensures a.Abs() == Laid(old(a.Abs()), EncodeAll(kinds, vals, swap))
    ensures old(Tight(a)) ==> Tight(a)
    decreases |vals|
  {
    if vals == [] {
      LaidNone(a.Abs(), []);
      return;
    }
    LaidTwice(a.Abs(), Encode(kinds[0], vals[0], swap), EncodeAll(kinds[1..], vals[1..], swap));
    WriteItem(a, kinds[0], vals[0], swap);
    WriteAll(a, kinds[1..], vals[1..], swap);
  }

  /** Whether a list ends in an empty string. */
  predicate EndsEmpty(vals: seq<Item>) {
    vals != [] && vals[|vals| - 1] == Text([])
  }

  /** Reading one item in front of `next`. */
  method ReadNext(a: ByteArray, k: Kind, swap: bool, ghost v: Item, ghost next: seq<byte>) returns (r: Outcome)
    requires View(a).Sight? && Fits(k, v) && View(a).unread == Encode(k, v, swap) + next
    modifies a`position, a`cur, a`at
    ensures View(a).Sight? && View(a).unread == next
    ensures r.Got? <==> !(v == Text([]) && View(a).room == 0)
    ensures r.Got? ==> r.item == v
    ensures |next| <= View(a).room && View(a).room - |next| == old(View(a).room - |View(a).unread|)
  {
    DecodeNext(k, v, swap, next, View(a).unread, View(a).room);
    r := ReadItem(a, k, swap);
  }

  /** Reading back a list that is all that is left gives the list, except that an empty string at the
      very end of the last block is read through the null node. */
  method ReadAll(a: ByteArray, kinds: seq<Kind>, swap: bool, ghost vals: seq<Item>) returns (out: seq<Item>, ok: bool)
    requires View(a).Sight? && AllFit(kinds, vals) && View(a).unread == EncodeAll(kinds, vals, swap)
    modifies a`position, a`cur, a`at
    ensures ok <==> !(EndsEmpty(vals) && old(View(a).room == |View(a).unread|))
    ensures ok ==> out == vals
    ensures View(a).Sight? && View(a).unread == []
    decreases |vals|
  {
    if kinds == [] {
      return [], true;
    }
    ghost var next := EncodeAll(kinds[1..], vals[1..], swap);
    var r := ReadNext(a, kinds[0], swap, vals[0], next);
    assert |next| == 0 ==> |vals[1..]| == 0;
    if !r.Got? {
      return [], false;
    }
    assert vals == [vals[0]] + vals[1..];
    out, ok := ReadAll(a, kinds[1..], swap, vals[1..]);
    out := [r.item] + out;
  }

  /** Writing any list of typed values into a fresh array of any block size, rewinding and reading the
      same types gives the list back and leaves nothing unread, wherever block boundaries fall;
      it fails exactly when the list ends in an empty string and fills its last block. */
  method RoundTrip(base: nat, kinds: seq<Kind>, vals: seq<Item>, swap: bool)
    returns (out: seq<Item>, left: nat, ok: bool)
    requires base >= 1 && AllFit(kinds, vals)
    ensures ok <==> !(EndsEmpty(vals) && |EncodeAll(kinds, vals, swap)| % base == 0)
    ensures ok ==> out == vals
    ensures left == 0
  {
    var a := new ByteArray(base);
    WriteAll(a, kinds, vals, swap);
    ghost var all := EncodeAll(kinds, vals, swap);
    assert a.Valid() && a.Contents() == Overwrite([], 0, all) == all;
    FullExactly(a);
    var seek := a.SetPosition(0);
    RoomEnough(a);
    assert View(a).unread == all;
    out, ok := ReadAll(a, kinds, swap, vals);
    RoomEnough(a);
    left := a.size - a.position;
  }

  /** A tight array is full exactly when its size is a positive number of whole blocks. */
  lemma FullExactly(a: ByteArray)
    requires a.Valid() && Tight(a)
    ensures a.size > 0 ==> (a.size == a.capacity <==> a.size % a.baseSize == 0)
  {
    assert a.Stored();
    var n, b := |a.nodes|, a.baseSize;
    assert Off(n - 1, b) + b == a.capacity;
    if a.size == a.capacity {
      Divided(a.size, b, n);
    } else if a.size > 0 {
      if a.capacity == b {
        ModSmall(a.size, b);
      } else {
        Divided(a.size, b, n - 1);
      }
    }
  }
}
