/** The byte images of typed values in src/bytearray.cc: fixed-width integers, base-128 varints,
    ZigZag and length-prefixed strings, and how they are read back. */
module Wire {
  import opened Bytes

  function Pow2(k: nat): (p: nat)
    ensures p >= 1
  {
    if k == 0 then 1 else 2 * Pow2(k - 1)
  }

  function Pow256(w: nat): (p: nat)
    ensures p >= 1
    ensures w > 0 ==> p % 2 == 0 && p >= 256
  {
    if w == 0 then 1 else 256 * Pow256(w - 1)
  }

  // Fixed width

  /** The memory of a w-byte unsigned integer on a little-endian host. */
  function ToLE(v: nat, w: nat): (s: seq<byte>)
    ensures |s| == w
  {
    if w == 0 then [] else [v % 256] + ToLE(v / 256, w - 1)
  }

  function FromLE(s: seq<byte>): (v: nat) {
    if s == [] then 0 else s[0] + 256 * FromLE(s[1..])
  }

  function Reverse(s: seq<byte>): (r: seq<byte>)
    ensures |r| == |s|
  {
    if s == [] then [] else Reverse(s[1..]) + [s[0]]
  }

  /** byteswap of a w-byte integer. */
  function ByteSwap(v: nat, w: nat): nat {
    FromLE(Reverse(ToLE(v, w)))
  }

  /** What a fixed-width write puts in memory. */
  function Image(v: nat, w: nat, swap: bool): (s: seq<byte>)
    ensures |s| == w
  {
    ToLE(if swap then ByteSwap(v, w) else v, w)
  }

  /** What a fixed-width read makes of those bytes. */
  function Unimage(s: seq<byte>, swap: bool): nat {
    if swap then ByteSwap(FromLE(s), |s|) else FromLE(s)
  }

  lemma {:induction false} ToFromLE(s: seq<byte>)
    ensures ToLE(FromLE(s), |s|) == s && FromLE(s) < Pow256(|s|)
  {
    if s != [] {
      ToFromLE(s[1..]);
      assert (s[0] + 256 * FromLE(s[1..])) % 256 == s[0];
      assert (s[0] + 256 * FromLE(s[1..])) / 256 == FromLE(s[1..]);
    }
  }

  lemma {:induction false} FromToLE(v: nat, w: nat)
    requires v < Pow256(w)
    ensures FromLE(ToLE(v, w)) == v
  {
    if w > 0 {
      assert v / 256 < Pow256(w - 1);
      FromToLE(v / 256, w - 1);
    }
  }

  lemma {:induction false} ReverseAppend(s: seq<byte>, b: byte)
    ensures Reverse(s + [b]) == [b] + Reverse(s)
  {
    if s != [] {
      assert (s + [b])[1..] == s[1..] + [b];
      ReverseAppend(s[1..], b);
    }
  }

  lemma {:induction false} ReverseTwice(s: seq<byte>)
    ensures Reverse(Reverse(s)) == s
  {
    if s != [] {
      ReverseAppend(Reverse(s[1..]), s[0]);
      ReverseTwice(s[1..]);
    }
  }

  /** Swapped memory is the host's memory backwards: network order on a little-endian host. */
  lemma ImageIsReversed(v: nat, w: nat)
    ensures Image(v, w, true) == Reverse(ToLE(v, w))
  {
    ToFromLE(Reverse(ToLE(v, w)));
  }

  lemma ImageRoundTrip(v: nat, w: nat, swap: bool)
    requires v < Pow256(w)
    ensures Unimage(Image(v, w, swap), swap) == v
  {
    FromToLE(v, w);
    if swap {
      ImageIsReversed(v, w);
      var r := Reverse(ToLE(v, w));
      ToFromLE(r);
      ReverseTwice(ToLE(v, w));
    }
  }

  // Signed integers as bit patterns

  function Pattern(v: int, m: nat): int {
    if v < 0 then v + m else v
  }

  function Signed(u: int, m: nat): int {
    if u >= m / 2 then u - m else u
  }

  // The byte-order field is one signed byte

  /** What an int8_t keeps of an int. */
  function Int8(v: nat): int {
    Signed(v % 256, 256)
  }

  /** LITTLE_ENDIAN is 1234, BIG_ENDIAN 4321; neither survives the narrow field, so the field
      never equals the host's order and every fixed-width access swaps, whatever was set. */
  lemma AlwaysSwaps(order: nat, host: nat)
    requires order == 1234 || order == 4321
    requires host == 1234 || host == 4321
    ensures Int8(order) != host
  {}

  // ZigZag, with the wrap-around of the fixed width

  /** EncodeZigzag on a `bits`-wide integer; m is 2 to the bits. Negation and doubling wrap. */
  function ZigZag(v: int, m: nat): int
    requires m >= 2
  {
    if v < 0 then ((-v) % m * 2 - 1) % m else (v * 2) % m
  }

  /** DecodeZigzag: (u >> 1) ^ -(u & 1), where -(u & 1) is no bits or all bits. */
  function UnZigZag(u: nat, m: nat): int
    requires m >= 2
  {
    Signed(if u % 2 == 0 then u / 2 else m - 1 - u / 2, m)
  }

  /** Small magnitudes get small codes, alternating in sign; the minimum is no exception. */
  lemma ZigZagMeaning(v: int, m: nat)
    requires m >= 2 && m % 2 == 0 && -(m / 2) <= v < m / 2
    ensures ZigZag(v, m) == if v < 0 then -2 * v - 1 else 2 * v
    ensures 0 <= ZigZag(v, m) < m
  {
    if v < 0 {
      ModSmall(-v, m);
      ModSmall(-2 * v - 1, m);
    } else {
      ModSmall(2 * v, m);
    }
  }

  lemma ModSmall(x: nat, m: nat)
    requires x < m
    ensures x % m == x
  {}

  lemma ZigZagRoundTrip(v: int, m: nat)
    requires m >= 2 && m % 2 == 0 && -(m / 2) <= v < m / 2
    ensures 0 <= ZigZag(v, m) < m && UnZigZag(ZigZag(v, m), m) == v
  {
    ZigZagMeaning(v, m);
  }

  /** Every code is the code of a value in range. */
  lemma ZigZagOnto(u: nat, m: nat)
    requires m >= 2 && m % 2 == 0 && u < m
    ensures -(m / 2) <= UnZigZag(u, m) < m / 2 && ZigZag(UnZigZag(u, m), m) == u
  {
    ZigZagMeaning(UnZigZag(u, m), m);
  }

  // Varints

  function Varint(v: nat): (s: seq<byte>)
    ensures |s| >= 1
  {
    if v >= 128 then [v % 128 + 128] + Varint(v / 128) else [v]
  }

  lemma {:induction false} VarintLength(v: nat, k: nat)
    requires k >= 1 && v < Pow2(7 * k)
    ensures |Varint(v)| <= k
  {
    if v >= 128 {
      assert Pow2(7) == 128 by {
        assert Pow2(3) == 8;
        assert Pow2(6) == 64;
      }
      assert k >= 2;
      PowSum(7, 7 * (k - 1));
      assert v / 128 < Pow2(7 * (k - 1));
      VarintLength(v / 128, k - 1);
    }
  }

  lemma {:induction false} PowSum(a: nat, b: nat)
    ensures Pow2(a + b) == Pow2(a) * Pow2(b)
  {
    if a > 0 {
      PowSum(a - 1, b);
      assert 2 * (Pow2(a - 1) * Pow2(b)) == 2 * Pow2(a - 1) * Pow2(b);
    }
  }

  lemma {:induction false} PowOrder(a: nat, b: nat)
    requires a <= b
    ensures Pow2(a) <= Pow2(b)
  {
    if a < b {
      PowOrder(a, b - 1);
    }
  }

  /** Five bytes hold any 32-bit value, ten any 64-bit one: the temporary array never overruns. */
  lemma VarintFits(v: nat, bits: nat)
    requires v < Pow2(bits) && bits >= 1
    ensures |Varint(v)| <= (bits + 6) / 7
  {
    var k := (bits + 6) / 7;
    PowOrder(bits, 7 * k);
    VarintLength(v, k);
  }

  datatype Number = Number(value: nat, used: nat) | Short(used: nat)

  /** The seven low bits of b at shift i, cut to the width, joined to the bits below them. */
  function AddGroup(acc: nat, b: byte, i: nat, bits: nat): nat {
    acc + b % 128 * Pow2(i) % Pow2(bits)
  }

  /** The read loop at shift i, after `used` bytes: each byte adds its seven low bits, cut to the
      width; a clear top bit or the end of the width stops it; missing bytes throw. */
  function VarintFrom(s: seq<byte>, bits: nat, i: nat, acc: nat, used: nat): Number
    requires used <= |s|
    decreases bits - i
  {
    if i >= bits then Number(acc, used)
    else if used == |s| then Short(used)
    else
      var now := AddGroup(acc, s[used], i, bits);
      if s[used] < 128 then Number(now, used + 1)
      else VarintFrom(s, bits, i + 7, now, used + 1)
  }

  lemma {:induction false} VarintReads(s: seq<byte>, bits: nat, i: nat, acc: nat, used: nat, v: nat)
    requires used + |Varint(v)| <= |s| && s[used..used + |Varint(v)|] == Varint(v)
    requires v * Pow2(i) < Pow2(bits) && i < bits
    ensures VarintFrom(s, bits, i, acc, used) == Number(acc + v * Pow2(i), used + |Varint(v)|)
    decreases v
  {
    var p, n, high := Pow2(i), |Varint(v)|, v / 128;
    assert s[used] == s[used..used + n][0] == Varint(v)[0];
    GroupValue(acc, s[used], i, bits, v);
    if v >= 128 {
      assert s[used + 1..used + n] == s[used..used + n][1..];
      VarintReads(s, bits, i + 7, acc + v % 128 * p, used + 1, high);
    }
  }

  /** One group at shift i and the rest at shift i + 7 make the value. */
  lemma GroupValue(acc: nat, b: byte, i: nat, bits: nat, v: nat)
    requires v * Pow2(i) < Pow2(bits) && i < bits && b % 128 == v % 128
    ensures AddGroup(acc, b, i, bits) == acc + v % 128 * Pow2(i)
    ensures v * Pow2(i) == v % 128 * Pow2(i) + v / 128 * Pow2(i + 7)
    ensures v >= 128 ==> i + 7 < bits
  {
    var p, low, high := Pow2(i), v % 128, v / 128;
    assert Pow2(i + 7) == 128 * p by {
      PowSum(7, i);
      assert Pow2(3) == 8;
      assert Pow2(7) == 128;
    }
    assert v == low + 128 * high;
    Distribute(low, high, p);
    MulOrder(high, p);
    assert high * (128 * p) == 128 * high * p;
    ModSmall(low * p, Pow2(bits));
    if v >= 128 {
      MulOrder(high - 1, 128 * p);
      assert (high - 1) * (128 * p) + 128 * p == high * (128 * p);
      if i + 7 >= bits {
        PowOrder(bits, i + 7);
      }
    }
  }

  lemma Distribute(low: nat, high: nat, p: nat)
    ensures (low + 128 * high) * p == low * p + 128 * high * p
  {}

  lemma MulOrder(a: nat, p: nat)
    ensures a * p >= 0
  {}

  /** Decoding consumes exactly what encoding wrote, whatever follows, and gives the value back. */
  lemma VarintRoundTrip(v: nat, bits: nat, rest: seq<byte>)
    requires v < Pow2(bits) && bits >= 1
    ensures VarintFrom(Varint(v) + rest, bits, 0, 0, 0) == Number(v, |Varint(v)|)
    ensures |Varint(v)| <= (bits + 6) / 7
  {
    VarintReads(Varint(v) + rest, bits, 0, 0, 0, v);
    VarintFits(v, bits);
  }

  /** Whatever the bytes, decoding takes at most one byte per seven bits. */
  lemma {:induction false} VarintStops(s: seq<byte>, bits: nat, i: nat, acc: nat, used: nat)
    requires used <= |s| && i <= bits + 6
    ensures used <= VarintFrom(s, bits, i, acc, used).used <= |s|
    ensures VarintFrom(s, bits, i, acc, used).used <= used + (bits + 6 - i) / 7
    ensures VarintFrom(s, bits, i, acc, used).Short? ==> VarintFrom(s, bits, i, acc, used).used == |s|
    decreases bits + 6 - i
  {
    if i < bits && used < |s| && s[used] >= 128 {
      VarintStops(s, bits, i + 7, AddGroup(acc, s[used], i, bits), used + 1);
    }
  }

  // Typed values

  datatype Kind =
    | FixU(w: nat) | FixS(w: nat)
    | VarU(bits: nat) | VarS(bits: nat)
    | StrF(w: nat) | StrV

  datatype Item = Int(n: int) | Text(s: seq<byte>)

  predicate KindOk(k: Kind) {
    match k
    case FixU(w) => w >= 1
    case FixS(w) => w >= 1
    case VarU(bits) => bits >= 1
    case VarS(bits) => bits >= 1
    case StrF(w) => w >= 1
    case StrV => true
  }

  /** The item is of this kind: in range, or a string whose length fits its prefix. */
  predicate Fits(k: Kind, v: Item) {
    && KindOk(k)
    && match k
       case FixU(w) => v.Int? && 0 <= v.n < Pow256(w)
       case FixS(w) => v.Int? && -(Pow256(w) / 2) <= v.n < Pow256(w) / 2
       case VarU(bits) => v.Int? && 0 <= v.n < Pow2(bits)
       case VarS(bits) => v.Int? && -(Pow2(bits) / 2) <= v.n < Pow2(bits) / 2
       case StrF(w) => v.Text? && |v.s| < Pow256(w)
       case StrV => v.Text? && |v.s| < Pow2(64)
  }

  function PrefixKind(k: Kind): Kind
    requires k.StrF? || k.StrV?
  {
    if k.StrF? then FixU(k.w) else VarU(64)
  }

  function EncodeInt(k: Kind, n: int, swap: bool): (s: seq<byte>)
    requires Fits(k, Int(n))
    ensures |s| >= 1
  {
    match k
    case FixU(w) => Image(n, w, swap)
    case FixS(w) => Image(Pattern(n, Pow256(w)), w, swap)
    case VarU(_) => Varint(n)
    case VarS(bits) =>
      ZigZagMeaning(n, Pow2(bits));
      Varint(ZigZag(n, Pow2(bits)))
  }

  function Encode(k: Kind, v: Item, swap: bool): (s: seq<byte>)
    requires Fits(k, v)
    ensures |s| >= 1
  {
    match v
    case Int(n) => EncodeInt(k, n, swap)
    case Text(t) => EncodeInt(PrefixKind(k), |t|, swap) + t
  }

  /** Reading an integer from the unread bytes. */
  function ReadNumber(k: Kind, swap: bool, rest: seq<byte>): (r: Number)
    requires KindOk(k) && (k.FixU? || k.FixS? || k.VarU? || k.VarS?)
    ensures r.used <= |rest|
  {
    match k
    case FixU(w) => if |rest| < w then Short(0) else Number(Unimage(rest[..w], swap), w)
    case FixS(w) => if |rest| < w then Short(0) else Number(Unimage(rest[..w], swap), w)
    case VarU(bits) => VarintStops(rest, bits, 0, 0, 0); VarintFrom(rest, bits, 0, 0, 0)
    case VarS(bits) => VarintStops(rest, bits, 0, 0, 0); VarintFrom(rest, bits, 0, 0, 0)
  }

  /** The signed meaning of what was read. */
  function Interpret(k: Kind, u: nat): int
    requires KindOk(k) && !k.StrF? && !k.StrV?
  {
    match k
    case FixS(w) => Signed(u, Pow256(w))
    case VarS(bits) => UnZigZag(u, Pow2(bits))
    case FixU(_) => u
    case VarU(_) => u
  }

  /** A typed read gives an item, throws out_of_range, or follows the null cursor node; either way
      it has moved the cursor over `used` bytes. */
  datatype Outcome = Got(item: Item, used: nat) | Thrown(used: nat) | Crash(used: nat)

  /** A string behind a length of kind pk. */
  function DecodeText(pk: Kind, swap: bool, rest: seq<byte>, room: nat): (r: Outcome)
    requires KindOk(pk) && (pk.FixU? || pk.VarU?)
    ensures r.used <= |rest|
  {
    match ReadNumber(pk, swap, rest)
    case Short(u) => Thrown(u)
    case Number(len, u) =>
      if len > |rest| - u then Thrown(u)
      else if len == 0 && u == room then Crash(u)
      else Got(Text(rest[u..u + len]), u + len)
  }

  /** The four ways a string read can go, given its length. */
  lemma TextCases(pk: Kind, swap: bool, rest: seq<byte>, room: nat, n: Number)
    requires KindOk(pk) && (pk.FixU? || pk.VarU?) && n == ReadNumber(pk, swap, rest)
    ensures DecodeText(pk, swap, rest, room) ==
      if n.Short? || n.value > |rest[n.used..]| then Thrown(n.used)
      else if n.value == 0 && room - n.used == 0 then Crash(n.used)
      else Got(Text(rest[n.used..][..n.value]), n.used + n.value)
  {
    if n.Number? && n.value <= |rest| - n.used {
      SliceDrop(rest, n.used, n.value);
    }
  }

  /** `rest` is unread, `room` the distance from the cursor to the end of the last block. */
  function Decode(k: Kind, swap: bool, rest: seq<byte>, room: nat): (r: Outcome)
    requires KindOk(k)
    ensures r.used <= |rest|
  {
    if k.StrF? || k.StrV? then DecodeText(PrefixKind(k), swap, rest, room)
    else
      match ReadNumber(k, swap, rest)
      case Short(u) => Thrown(u)
      case Number(n, u) => Got(Int(Interpret(k, n)), u)
  }

  lemma FixRoundTrip(k: Kind, n: int, swap: bool, rest: seq<byte>)
    requires Fits(k, Int(n)) && (k.FixU? || k.FixS?)
    ensures ReadsBack(k, n, swap, rest)
  {
    var s := EncodeInt(k, n, swap);
    assert (s + rest)[..|s|] == s;
    ImageRoundTrip(Pattern(n, Pow256(k.w)), k.w, swap);
  }

  lemma VarRoundTrip(k: Kind, n: int, swap: bool, rest: seq<byte>)
    requires Fits(k, Int(n)) && (k.VarU? || k.VarS?)
    ensures ReadsBack(k, n, swap, rest)
  {
    var m := Pow2(k.bits);
    if k.VarU? {
      VarintRoundTrip(n, k.bits, rest);
    } else {
      ZigZagRoundTrip(n, m);
      VarintRoundTrip(ZigZag(n, m), k.bits, rest);
    }
  }

  ghost predicate ReadsBack(k: Kind, n: int, swap: bool, rest: seq<byte>)
    requires Fits(k, Int(n))
  {
    var s := EncodeInt(k, n, swap);
    var r := ReadNumber(k, swap, s + rest);
    r.Number? && r.used == |s| && Interpret(k, r.value) == n
  }

  lemma IntRoundTrip(k: Kind, n: int, swap: bool, rest: seq<byte>)
    requires Fits(k, Int(n))
    ensures ReadsBack(k, n, swap, rest)
  {
    if k.FixU? || k.FixS? {
      FixRoundTrip(k, n, swap, rest);
    } else {
      VarRoundTrip(k, n, swap, rest);
    }
  }

  /** A read returns the very item written and eats exactly its bytes, unless it is an empty string
      whose prefix ends at the end of the last block; then it crashes. */
  lemma DecodeEncode(k: Kind, v: Item, swap: bool, rest: seq<byte>, room: nat)
    requires Fits(k, v)
    ensures var s := Encode(k, v, swap);
      Decode(k, swap, s + rest, room) == if v == Text([]) && |s| == room then Crash(|s|) else Got(v, |s|)
  {
    match v
    case Int(n) => IntRoundTrip(k, n, swap, rest);
    case Text(t) => TextRoundTrip(PrefixKind(k), t, swap, rest, room);
  }

  lemma TextRoundTrip(pk: Kind, t: seq<byte>, swap: bool, rest: seq<byte>, room: nat)
    requires Fits(pk, Int(|t|)) && (pk.FixU? || pk.VarU?)
    ensures var s := EncodeInt(pk, |t|, swap) + t;
      DecodeText(pk, swap, s + rest, room) == if t == [] && |s| == room then Crash(|s|) else Got(Text(t), |s|)
  {
    var p := EncodeInt(pk, |t|, swap);
    var all := p + t + rest;
    assert all == p + (t + rest) && all[|p|..|p| + |t|] == t;
    IntRoundTrip(pk, |t|, swap, t + rest);
  }

  lemma DecodeNext(k: Kind, v: Item, swap: bool, next: seq<byte>, rest: seq<byte>, room: nat)
    requires Fits(k, v) && rest == Encode(k, v, swap) + next
    ensures var r := Decode(k, swap, rest, room);
      && rest[r.used..] == next
      && (r.Got? ==> r.item == v)
      && (r.Got? <==> !(v == Text([]) && r.used == room))
  {
    DecodeEncode(k, v, swap, next, room);
    DropFront(Encode(k, v, swap), next);
  }

  // Lists

  ghost predicate AllFit(kinds: seq<Kind>, vals: seq<Item>) {
    |kinds| == |vals| && forall i :: 0 <= i < |vals| ==> Fits(kinds[i], vals[i])
  }

  ghost function EncodeAll(kinds: seq<Kind>, vals: seq<Item>, swap: bool): (s: seq<byte>)
    requires AllFit(kinds, vals)
    ensures |s| >= |vals|
  {
    if vals == [] then [] else Encode(kinds[0], vals[0], swap) + EncodeAll(kinds[1..], vals[1..], swap)
  }

  // What lies where

  lemma DivTwice(v: nat, p: nat)
    requires p >= 1
    ensures v / 256 / p == v / (256 * p) && v / 128 / p == v / (128 * p)
  {
    DivNest(v, 256, p);
    DivNest(v, 128, p);
  }

  lemma DivNest(v: nat, a: nat, p: nat)
    requires a >= 1 && p >= 1
    ensures v / a / p == v / (a * p)
  {
    var q := v / a;
    var k := q / p;
    DivParts(v, a);
    DivParts(q, p);
    NestedParts(a, p, k, q % p, v % a);
    DivUnique(v, a * p, k, a * (q % p) + v % a);
  }

  lemma DivParts(x: nat, y: nat)
    requires y >= 1
    ensures x == y * (x / y) + x % y && 0 <= x % y < y
  {}

  lemma NestedParts(a: nat, p: nat, k: nat, j: nat, r: nat)
    requires a >= 1 && j < p && r < a
    ensures a * (p * k + j) + r == a * p * k + (a * j + r) && 0 <= a * j + r < a * p
  {
    MulMonotone(j, p - 1, a);
    assert a * (p - 1) == a * p - a;
  }

  lemma MulMonotone(a: nat, b: nat, m: nat)
    ensures a <= b ==> m * a <= m * b
  {}

  lemma DivUnique(v: nat, m: nat, k: nat, r: nat)
    requires r < m && v == m * k + r
    ensures v / m == k
  {
    DivParts(v, m);
    MulMonotone(v / m + 1, k, m);
    MulMonotone(k + 1, v / m, m);
  }

  lemma {:induction false} ByteOfLE(v: nat, w: nat, i: nat)
    requires i < w
    ensures ToLE(v, w)[i] == v / Pow256(i) % 256
  {
    if i > 0 {
      ByteOfLE(v / 256, w - 1, i - 1);
      DivTwice(v, Pow256(i - 1));
    }
  }

  lemma {:induction false} ReverseAt(s: seq<byte>, i: nat)
    requires i < |s|
    ensures Reverse(s)[i] == s[|s| - 1 - i]
  {
    if i < |s| - 1 {
      ReverseAt(s[1..], i);
    }
  }

  /** Byte by byte: swapped, the most significant byte comes first; otherwise the least significant. */
  lemma ByteOfImage(v: nat, w: nat, swap: bool, i: nat)
    requires i < w
    ensures Image(v, w, swap)[i] == v / Pow256(if swap then w - 1 - i else i) % 256
  {
    if swap {
      ImageIsReversed(v, w);
      ReverseAt(ToLE(v, w), i);
      ByteOfLE(v, w, w - 1 - i);
    } else {
      ByteOfLE(v, w, i);
    }
  }

  /** Two's complement. */
  lemma PatternIsModulo(v: int, m: nat)
    requires m >= 2 && -(m / 2) <= v < m / 2
    ensures Pattern(v, m) == v % m
  {
    if v < 0 {
      assert v % m == (v + m) % m;
    }
  }

  /** Seven bits a byte, the least significant first, the top bit set on all but the last; and no longer
      than the value needs. */
  lemma {:induction false} ByteOfVarint(v: nat, i: nat)
    requires i < |Varint(v)|
    ensures Varint(v)[i] == v / Pow2(7 * i) % 128 + if i == |Varint(v)| - 1 then 0 else 128
    ensures i > 0 ==> v / Pow2(7 * i) > 0
    ensures i == |Varint(v)| - 1 ==> v / Pow2(7 * i) < 128
  {
    if v >= 128 && i > 0 {
      ByteOfVarint(v / 128, i - 1);
      DivTwice(v, Pow2(7 * (i - 1)));
      PowSum(7, 7 * (i - 1));
      assert Pow2(7) == 128 by {
        assert Pow2(3) == 8;
        assert Pow2(6) == 64;
      }
      assert v / Pow2(7 * i) == v / 128 / Pow2(7 * (i - 1));
    }
  }

  lemma {:induction false} PowersAgree(w: nat)
    ensures Pow256(w) == Pow2(8 * w)
  {
    if w > 0 {
      PowersAgree(w - 1);
      PowSum(8, 8 * (w - 1));
      assert Pow2(8) == 256 by {
        assert Pow2(4) == 16;
      }
    }
  }

  /** What each kind of value looks like: fixed width in two's complement, varints plain or over ZigZag codes,
      and strings behind their length, of fixed width or a varint. */
  lemma Layout(k: Kind, v: Item, swap: bool)
    requires Fits(k, v)
    ensures match k
      case FixU(w) => forall i: nat {:trigger Encode(k, v, swap)[i]} :: i < w ==>
        |Encode(k, v, swap)| == w && Encode(k, v, swap)[i] == v.n / Pow256(if swap then w - 1 - i else i) % 256
      case FixS(w) => Encode(k, v, swap) == Encode(FixU(w), Int(v.n % Pow256(w)), swap)
      case VarU(bits) => Encode(k, v, swap) == Varint(v.n)
      case VarS(bits) => Encode(k, v, swap) == Varint(if v.n < 0 then -2 * v.n - 1 else 2 * v.n)
      case StrF(w) => Encode(k, v, swap) == Encode(FixU(w), Int(|v.s|), swap) + v.s
      case StrV => Encode(k, v, swap) == Varint(|v.s|) + v.s
  {
    match k {
      case FixU(w) =>
        var s := Encode(k, v, swap);
        forall i: nat | i < w ensures |s| == w && s[i] == v.n / Pow256(if swap then w - 1 - i else i) % 256 {
          ByteOfImage(v.n, w, swap, i);
        }
      case FixS(w) => PatternIsModulo(v.n, Pow256(w));
      case VarS(bits) => ZigZagMeaning(v.n, Pow2(bits));
      case _ =>
    }
  }
}
