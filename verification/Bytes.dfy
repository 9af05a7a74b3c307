/** Byte strings and the flat view of a block list. */
module Bytes {
  type byte = x: int | 0 <= x < 256

  /** `data` laid over `s` from `at` on; the length does not change. */
  function Splice(s: seq<byte>, at: nat, data: seq<byte>): (r: seq<byte>)
    requires at + |data| <= |s|
    ensures |r| == |s|
  {
    s[..at] + data + s[at + |data|..]
  }

  /** `data` written at `at` into a string that grows when it must. */
  function Overwrite(s: seq<byte>, at: nat, data: seq<byte>): (r: seq<byte>)
    requires at <= |s|
  {
    s[..at] + data + if at + |data| < |s| then s[at + |data|..] else []
  }

  lemma SpliceMore(s: seq<byte>, at: nat, a: seq<byte>, b: seq<byte>)
    requires at + |a| + |b| <= |s|
    ensures Splice(Splice(s, at, a), at + |a|, b) == Splice(s, at, a + b)
  {}

  /** One more piece of `buf` laid over the string. */
  lemma SpliceStep(s: seq<byte>, at: nat, buf: seq<byte>, done: nat, n: nat)
    requires done + n <= |buf| && at + |buf| <= |s|
    ensures Splice(Splice(s, at, buf[..done]), at + done, buf[done..done + n]) == Splice(s, at, buf[..done + n])
  {
    SpliceMore(s, at, buf[..done], buf[done..done + n]);
    assert buf[..done] + buf[done..done + n] == buf[..done + n];
  }

  lemma SliceStep(s: seq<byte>, a: nat, b: nat, c: nat)
    requires a <= b <= c <= |s|
    ensures s[a..b] + s[b..c] == s[a..c]
  {}

  lemma DropMore(s: seq<byte>, a: nat, b: nat)
    requires a + b <= |s|
    ensures s[a..][b..] == s[a + b..]
  {}

  lemma SliceDrop(s: seq<byte>, a: nat, n: nat)
    requires a + n <= |s|
    ensures s[a..][..n] == s[a..a + n]
  {}

  lemma SlicePrefix(s: seq<byte>, a: nat, n: nat, m: nat)
    requires m <= n && a + n <= |s|
    ensures s[a..a + n][..m] == s[a..a + m]
  {}

  lemma SliceOfPrefix(s: seq<byte>, n: nat, a: nat, b: nat)
    requires a <= b <= n <= |s|
    ensures s[..n][a..b] == s[a..b]
  {}

  lemma DropWithin(s: seq<byte>, t: seq<byte>, n: nat)
    requires n <= |s|
    ensures (s + t)[n..] == s[n..] + t
  {}

  lemma Regroup(a: seq<byte>, b: seq<byte>, c: seq<byte>)
    ensures a + b + c == a + (b + c)
  {}

  lemma DropFront(s: seq<byte>, t: seq<byte>)
    ensures (s + t)[|s|..] == t
  {}

  lemma SliceInBlock(s: seq<byte>, base: nat, k: nat, at: nat, n: nat)
    requires Off(k, base) + base <= |s| && at + n <= base
    ensures Block(s, base, k)[at..at + n] == s[Off(k, base) + at..Off(k, base) + at + n]
  {
    SliceInSlice(s, Off(k, base), Off(k, base) + base, at, n);
  }

  lemma SliceInSlice(s: seq<byte>, a: nat, b: nat, at: nat, n: nat)
    requires a <= b <= |s| && at + n <= b - a
    ensures s[a..b][at..at + n] == s[a + at..a + at + n]
  {
    var l, r := s[a..b][at..at + n], s[a + at..a + at + n];
    forall i | 0 <= i < n ensures l[i] == r[i] {
      assert l[i] == s[a..b][at + i] == s[a + at + i];
    }
  }

  lemma OverwriteMore(s: seq<byte>, at: nat, a: seq<byte>, b: seq<byte>)
    requires at <= |s|
    ensures at + |a| <= |Overwrite(s, at, a)|
    ensures Overwrite(Overwrite(s, at, a), at + |a|, b) == Overwrite(s, at, a + b)
  {}

  /** One flat string with a cursor: what a block list stands for, unless it is broken. */
  datatype Flat = Flat(bytes: seq<byte>, pos: nat) | Broken

  ghost function Laid(f: Flat, data: seq<byte>): (r: Flat)
    requires f.Flat? && f.pos <= |f.bytes|
    ensures r.Flat? && r.pos <= |r.bytes|
  {
    Flat(Overwrite(f.bytes, f.pos, data), f.pos + |data|)
  }

  lemma LaidNone(f: Flat, all: seq<byte>)
    requires f.Flat? && f.pos <= |f.bytes|
    ensures Laid(f, all[..0]) == f && all[0..] == all
  {}

  lemma LaidTwice(f: Flat, a: seq<byte>, b: seq<byte>)
    requires f.Flat? && f.pos <= |f.bytes|
    ensures Laid(Laid(f, a), b) == Laid(f, a + b)
  {
    OverwriteMore(f.bytes, f.pos, a, b);
  }

  /** The next `len` bytes of a stream laid behind the first `done`. */
  lemma LaidMore(f: Flat, all: seq<byte>, done: nat, len: nat)
    requires f.Flat? && f.pos <= |f.bytes| && done + len <= |all|
    ensures Laid(Laid(f, all[..done]), all[done..][..len]) == Laid(f, all[..done + len])
    ensures all[done..][len..] == all[done + len..]
  {
    OverwriteMore(f.bytes, f.pos, all[..done], all[done..][..len]);
    assert all[..done] + all[done..][..len] == all[..done + len];
  }

  lemma LaidNext(f: Flat, all: seq<byte>, done: nat, len: nat, mid: Flat, rest: seq<byte>, end: Flat)
    requires f.Flat? && f.pos <= |f.bytes| && done + len <= |all|
    requires mid == Laid(f, all[..done]) && rest == all[done..] && end == Laid(mid, rest[..len])
    ensures end == Laid(f, all[..done + len]) && rest[len..] == all[done + len..]
  {
    LaidMore(f, all, done, len);
  }

  lemma SplicePrefix(s: seq<byte>, size: nat, at: nat, data: seq<byte>)
    requires at <= size <= |s| && at + |data| <= |s|
    ensures var n := if at + |data| > size then at + |data| else size;
      Splice(s, at, data)[..n] == Overwrite(s[..size], at, data)
  {}

  /** Where block k starts: k * base, spelled so that no proof multiplies two unknowns. */
  function Off(k: nat, base: nat): (o: nat) {
    if k == 0 then 0 else Off(k - 1, base) + base
  }

  lemma {:induction false} OffIsProduct(k: nat, base: nat)
    ensures Off(k, base) == k * base
  {
    if k > 0 {
      OffIsProduct(k - 1, base);
      assert (k - 1) * base + base == k * base;
    }
  }

  lemma {:induction false} OffOrder(j: nat, k: nat, base: nat)
    requires j < k
    ensures Off(j, base) + base <= Off(k, base)
  {
    if j + 1 < k {
      OffOrder(j, k - 1, base);
    }
  }

  /** Block k of a string cut into blocks of `base` bytes. */
  ghost function Block(s: seq<byte>, base: nat, k: nat): (b: seq<byte>)
    requires Off(k, base) + base <= |s|
    ensures |b| == base
  {
    s[Off(k, base)..Off(k, base) + base]
  }

  /** A splice inside block k shows in block k ... */
  lemma SpliceBlock(s: seq<byte>, base: nat, k: nat, at: nat, data: seq<byte>)
    requires Off(k, base) + base <= |s| && at + |data| <= base
    ensures Block(Splice(s, Off(k, base) + at, data), base, k) == Splice(Block(s, base, k), at, data)
  {
    SpliceSlice(s, Off(k, base), Off(k, base) + base, at, data);
  }

  /** ... and in no other. */
  lemma SpliceOther(s: seq<byte>, base: nat, k: nat, at: nat, data: seq<byte>, j: nat)
    requires Off(k, base) + base <= |s| && Off(j, base) + base <= |s| && at + |data| <= base && j != k
    ensures Block(Splice(s, Off(k, base) + at, data), base, j) == Block(s, base, j)
  {
    if j < k {
      OffOrder(j, k, base);
    } else {
      OffOrder(k, j, base);
    }
    SpliceOutside(s, Off(j, base), Off(j, base) + base, Off(k, base) + at, data);
  }

  lemma SpliceOutside(s: seq<byte>, a: nat, b: nat, at: nat, data: seq<byte>)
    requires a <= b <= |s| && at + |data| <= |s| && (b <= at || at + |data| <= a)
    ensures Splice(s, at, data)[a..b] == s[a..b]
  {
    var l, r := Splice(s, at, data)[a..b], s[a..b];
    forall i | 0 <= i < b - a ensures l[i] == r[i] {
      assert l[i] == Splice(s, at, data)[a + i];
    }
  }

  lemma SpliceSlice(s: seq<byte>, a: nat, b: nat, at: nat, data: seq<byte>)
    requires a <= b <= |s| && at + |data| <= b - a
    ensures Splice(s, a + at, data)[a..b] == Splice(s[a..b], at, data)
  {
    var l, r := Splice(s, a + at, data)[a..b], Splice(s[a..b], at, data);
    forall i | 0 <= i < b - a ensures l[i] == r[i] {
      assert l[i] == Splice(s, a + at, data)[a + i];
    }
  }

  /** Rounding up to whole blocks leaves room for x bytes, with less than a block to spare. */
  lemma BlocksCover(x: nat, base: nat)
    requires base >= 1 && x >= 1
    ensures x <= Off((x + base - 1) / base, base) < x + base && (x + base - 1) / base >= 1
  {
    var y := x + base - 1;
    OffIsProduct(y / base, base);
    assert y == y / base * base + y % base;
    assert y / base >= 1 by {
      assert y >= base;
    }
  }

  /** Every position is its offset in its block. */
  lemma DivideBack(p: nat, base: nat)
    requires base >= 1
    ensures p / base >= 0 && 0 <= p % base < base && Off(p / base, base) + p % base == p
  {
    OffIsProduct(p / base, base);
  }

  /** A position inside block k has quotient k and remainder its offset in the block. */
  lemma Divided(p: nat, base: nat, k: nat)
    requires Off(k, base) <= p < Off(k, base) + base
    ensures p / base == k && p % base == p - Off(k, base)
  {
    OffIsProduct(k, base);
    var q: nat, m := p / base, p % base;
    assert p == q * base + m;
    OffIsProduct(q, base);
    if q < k {
      OffOrder(q, k, base);
    } else if k < q {
      OffOrder(k, q, base);
    }
  }

  /** memcpy into an array. */
  method Memcpy(ptr: array<byte>, at: nat, data: seq<byte>)
    requires at + |data| <= ptr.Length
    modifies ptr
    ensures ptr[..] == Splice(old(ptr[..]), at, data)
  {
    forall i | 0 <= i < |data| {
      ptr[at + i] := data[i];
    }
  }
}
