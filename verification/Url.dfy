/** Percent encoding of src/util.cc: UrlEncode and UrlDecode over the two byte tables. */
module Url {
  import opened Base
  import opened Bytes

  /** The bytes the table marks: letters, digits, "-._~" and, though its comment omits it, "=". */
  predicate Unreserved(b: byte) {
    || b == 45 || b == 46 || 48 <= b <= 57 || b == 61
    || 65 <= b <= 90 || b == 95 || 97 <= b <= 122 || b == 126
  }

  const Space: byte := 32
  const Percent: byte := 37
  const Plus: byte := 43

  function HexDigit(n: nat): (b: byte)
    requires n < 16
  {
    if n < 10 then 48 + n else 55 + n
  }

  predicate IsHex(b: byte) {
    48 <= b <= 57 || 65 <= b <= 70 || 97 <= b <= 102
  }

  function HexValue(b: byte): (n: nat)
    requires IsHex(b)
    ensures n < 16
  {
    if b <= 57 then b - 48 else if b <= 70 then b - 55 else b - 87
  }

  function EncodeByte(b: byte, plus: bool): seq<byte> {
    if Unreserved(b) then [b]
    else if b == Space && plus then [Plus]
    else [Percent, HexDigit(b / 16), HexDigit(b % 16)]
  }

  /** Byte by byte, always copying. */
  function Encode(s: seq<byte>, plus: bool): seq<byte> {
    if s == [] then [] else EncodeByte(s[0], plus) + Encode(s[1..], plus)
  }

  predicate Escape(s: seq<byte>) {
    |s| >= 3 && s[0] == Percent && IsHex(s[1]) && IsHex(s[2])
  }

  /** Byte by byte, always copying; a malformed escape stands for itself. */
  function Decode(s: seq<byte>, plus: bool): seq<byte> {
    if s == [] then []
    else if s[0] == Plus && plus then [Space] + Decode(s[1..], plus)
    else if Escape(s) then [HexValue(s[1]) * 16 + HexValue(s[2])] + Decode(s[3..], plus)
    else [s[0]] + Decode(s[1..], plus)
  }

  /** UrlEncode: copies nothing until the first byte that must change. */
  method UrlEncode(str: seq<byte>, plus: bool) returns (r: seq<byte>)
    ensures r == Encode(str, plus)
  {
    var ss: Option<seq<byte>> := None;
    var c := 0;
    assert str[0..] == str;
    while c < |str|
      invariant 0 <= c <= |str|
      invariant (if ss.Some? then ss.value else str[..c]) + Encode(str[c..], plus) == Encode(str, plus)
    {
      ghost var had := if ss.Some? then ss.value else str[..c];
      EncodeStep(str, plus, c, had);
      if !Unreserved(str[c]) {
        if ss.None? {
          ss := Some(str[..c]);
        }
        if str[c] == Space && plus {
          ss := Some(ss.value + [Plus]);
        } else {
          ss := Some(ss.value + [Percent, HexDigit(str[c] / 16), HexDigit(str[c] % 16)]);
        }
      } else if ss.Some? {
        ss := Some(ss.value + [str[c]]);
      } else {
        assert str[..c + 1] == str[..c] + [str[c]];
      }
      c := c + 1;
    }
    assert str[c..] == [] && str[..c] == str;
    r := if ss.Some? then ss.value else str;
  }

  lemma EncodeStep(str: seq<byte>, plus: bool, c: nat, had: seq<byte>)
    requires c < |str|
    ensures had + EncodeByte(str[c], plus) + Encode(str[c + 1..], plus) == had + Encode(str[c..], plus)
  {
    assert str[c..][1..] == str[c + 1..];
  }

  /** UrlDecode: copies nothing until the first byte that must change. */
  method UrlDecode(str: seq<byte>, plus: bool) returns (r: seq<byte>)
    ensures r == Decode(str, plus)
  {
    var ss: Option<seq<byte>> := None;
    var c := 0;
    assert str[0..] == str;
    while c < |str|
      invariant 0 <= c <= |str|
      invariant (if ss.Some? then ss.value else str[..c]) + Decode(str[c..], plus) == Decode(str, plus)
    {
      ghost var had := if ss.Some? then ss.value else str[..c];
      DecodeStep(str, plus, c, had);
      if str[c] == Plus && plus {
        if ss.None? {
          ss := Some(str[..c]);
        }
        ss := Some(ss.value + [Space]);
      } else if str[c] == Percent && c + 2 < |str| && IsHex(str[c + 1]) && IsHex(str[c + 2]) {
        if ss.None? {
          ss := Some(str[..c]);
        }
        ss := Some(ss.value + [HexValue(str[c + 1]) * 16 + HexValue(str[c + 2])]);
        c := c + 2;
      } else if ss.Some? {
        ss := Some(ss.value + [str[c]]);
      } else {
        assert str[..c + 1] == str[..c] + [str[c]];
      }
      c := c + 1;
    }
    assert str[c..] == [] && str[..c] == str;
    r := if ss.Some? then ss.value else str;
  }

  lemma DecodeStep(str: seq<byte>, plus: bool, c: nat, had: seq<byte>)
    requires c < |str|
    ensures had + Decode(str[c..], plus) ==
      if str[c] == Plus && plus then had + [Space] + Decode(str[c + 1..], plus)
      else if Escape(str[c..]) then
        had + [HexValue(str[c + 1]) * 16 + HexValue(str[c + 2])] + Decode(str[c + 3..], plus)
      else had + [str[c]] + Decode(str[c + 1..], plus)
    ensures Escape(str[c..]) <==> str[c] == Percent && c + 2 < |str| && IsHex(str[c + 1]) && IsHex(str[c + 2])
  {
    assert str[c..][1..] == str[c + 1..];
    if Escape(str[c..]) {
      assert str[c..][3..] == str[c + 3..];
    }
  }

  /** Spaces turned into pluses. */
  function Plussed(s: seq<byte>): (r: seq<byte>)
    ensures |r| == |s|
  {
    if s == [] then [] else [if s[0] == Space then Plus else s[0]] + Plussed(s[1..])
  }

  lemma {:induction false} PlussedSame(s: seq<byte>)
    ensures Plussed(s) == s <==> Space !in s
  {
    if s != [] {
      PlussedSame(s[1..]);
      assert s == [s[0]] + s[1..];
      assert Plussed(s)[1..] == Plussed(s[1..]);
    }
  }

  lemma HexRoundTrip(b: byte)
    ensures IsHex(HexDigit(b / 16)) && IsHex(HexDigit(b % 16))
    ensures HexValue(HexDigit(b / 16)) * 16 + HexValue(HexDigit(b % 16)) == b
    ensures Unreserved(HexDigit(b / 16)) && Unreserved(HexDigit(b % 16))
  {}

  /** Decoding behind one encoded byte. */
  lemma DecodeEncodeByte(b: byte, p: bool, q: bool, rest: seq<byte>)
    ensures Decode(EncodeByte(b, p) + rest, q) == [if p && !q && b == Space then Plus else b] + Decode(rest, q)
  {
    var e := EncodeByte(b, p);
    assert (e + rest)[|e|..] == rest;
    if !Unreserved(b) && !(b == Space && p) {
      HexRoundTrip(b);
      assert Escape(e + rest);
    }
  }

  /** What any decoding makes of any encoding. */
  lemma {:induction false} DecodeOfEncode(s: seq<byte>, p: bool, q: bool)
    ensures Decode(Encode(s, p), q) == if p && !q then Plussed(s) else s
  {
    if s != [] {
      DecodeOfEncode(s[1..], p, q);
      DecodeEncodeByte(s[0], p, q, Encode(s[1..], p));
    }
  }

  /** Plus-decoding inverts both encodings and plain decoding the plain one, on every byte string;
      plain decoding inverts the plus encoding exactly on strings without a space. */
  lemma {:induction false} RoundTrip(s: seq<byte>, p: bool, q: bool)
    ensures Decode(Encode(s, p), q) == s <==> q || !p || Space !in s
  {
    DecodeOfEncode(s, p, q);
    PlussedSame(s);
  }

  /** Unreserved bytes, whole escapes and, for the plus encoding, pluses. */
  predicate Clean(s: seq<byte>, plus: bool) {
    s == []
    || (Unreserved(s[0]) && Clean(s[1..], plus))
    || (plus && s[0] == Plus && Clean(s[1..], plus))
    || (Escape(s) && Clean(s[3..], plus))
  }

  lemma {:induction false} EncodeIsClean(s: seq<byte>, plus: bool)
    ensures Clean(Encode(s, plus), plus)
  {
    if s != [] {
      EncodeIsClean(s[1..], plus);
      HexRoundTrip(s[0]);
      var e, rest := EncodeByte(s[0], plus), Encode(s[1..], plus);
      assert (e + rest)[|e|..] == rest;
    }
  }

  lemma {:induction false} EncodeAlphabet(s: seq<byte>, plus: bool, b: byte)
    requires b in Encode(s, plus)
    ensures Unreserved(b) || b == Percent || (plus && b == Plus)
  {
    HexRoundTrip(s[0]);
    if b !in EncodeByte(s[0], plus) {
      EncodeAlphabet(s[1..], plus, b);
    }
  }

  /** Different strings never share an encoding. */
  lemma EncodeInjective(s: seq<byte>, t: seq<byte>, plus: bool)
    requires Encode(s, plus) == Encode(t, plus)
    ensures s == t
  {
    DecodeOfEncode(s, plus, true);
    DecodeOfEncode(t, plus, true);
  }

  // ----- the tables, in characters

  const LowerHex: string := "0123456789abcdef"
  const UpperHex: string := "0123456789ABCDEF"

  predicate PlainChar(c: char) {
    '0' <= c <= '9' || 'A' <= c <= 'Z' || 'a' <= c <= 'z' || c in "-.=_~"
  }

  /** The byte b is the hexadecimal digit n, in either case. */
  predicate DigitOf(b: byte, n: nat) {
    n < 16 && (b as char == LowerHex[n] || b as char == UpperHex[n])
  }

  lemma DigitsRead(b: byte, n: nat)
    ensures DigitOf(b, n) <==> IsHex(b) && HexValue(b) == n
    ensures n < 16 ==> HexDigit(n) as char == UpperHex[n]
  {}

  lemma PlainChars(b: byte)
    ensures Unreserved(b) <==> PlainChar(b as char)
  {
    var marks := "-.=_~";
    assert marks[0] == '-' && marks[1] == '.' && marks[2] == '=' && marks[3] == '_' && marks[4] == '~';
  }

  /** What one byte becomes: itself if it is in the list, a plus if it is a space and pluses are asked for,
      and otherwise a percent sign and two upper-case digits. */
  lemma EncodesEach(b: byte, rest: seq<byte>, plus: bool)
    ensures Encode([b] + rest, plus) ==
      (if PlainChar(b as char) then [b]
       else if b as char == ' ' && plus then ['+' as int]
       else ['%' as int, UpperHex[b / 16] as int, UpperHex[b % 16] as int]) + Encode(rest, plus)
  {
    PlainChars(b);
    DigitsRead(0, b / 16);
    DigitsRead(0, b % 16);
    assert ([b] + rest)[1..] == rest;
  }

  /** A percent sign and two digits of either case are one byte. */
  lemma DecodesEscape(a: byte, b: byte, i: nat, j: nat, rest: seq<byte>, plus: bool)
    requires DigitOf(a, i) && DigitOf(b, j)
    ensures Decode(['%' as int, a, b] + rest, plus) == [16 * i + j] + Decode(rest, plus)
  {
    DigitsRead(a, i);
    DigitsRead(b, j);
    var s := ['%' as int, a, b] + rest;
    assert Escape(s) && s[3..] == rest;
  }

  lemma DecodesPlus(rest: seq<byte>, plus: bool)
    ensures Decode(['+' as int] + rest, plus) == [if plus then ' ' as int else '+' as int] + Decode(rest, plus)
  {
    assert (['+' as int] + rest)[1..] == rest;
  }

  /** A percent sign with two digits behind it. */
  ghost predicate EscapeAt(s: seq<byte>, k: nat) {
    && k + 2 < |s| && s[k] as char == '%'
    && HexChar(s[k + 1] as char) && HexChar(s[k + 2] as char)
  }

  predicate HexChar(c: char) {
    c in LowerHex || c in UpperHex
  }

  lemma HexChars(b: byte)
    ensures IsHex(b) <==> HexChar(b as char)
  {
    if IsHex(b) {
      DigitsRead(b, HexValue(b));
      assert b as char == LowerHex[HexValue(b)] || b as char == UpperHex[HexValue(b)];
    }
    forall n: nat | n < 16 ensures IsHex(LowerHex[n] as int) && IsHex(UpperHex[n] as int) {
      DigitsRead(LowerHex[n] as int, n);
      DigitsRead(UpperHex[n] as int, n);
    }
    assert |LowerHex| == 16 && |UpperHex| == 16;
  }

  lemma EscapeIsEscape(s: seq<byte>, k: nat)
    requires k <= |s|
    ensures EscapeAt(s, k) <==> Escape(s[k..])
  {
    if k + 2 < |s| {
      HexChars(s[k + 1]);
      HexChars(s[k + 2]);
    }
  }

  ghost predicate Untouched(s: seq<byte>, plus: bool) {
    && (forall k: nat :: k < |s| ==> !EscapeAt(s, k))
    && (plus ==> forall k :: 0 <= k < |s| ==> s[k] as char != '+')
  }

  lemma UntouchedTail(s: seq<byte>, plus: bool)
    requires s != []
    ensures Untouched(s, plus) <==> !EscapeAt(s, 0) && !(plus && s[0] == Plus) && Untouched(s[1..], plus)
  {
    forall k: nat | k < |s[1..]| ensures EscapeAt(s[1..], k) <==> EscapeAt(s, k + 1) {
      EscapeIsEscape(s, k + 1);
      EscapeIsEscape(s[1..], k);
      assert s[1..][k..] == s[k + 1..];
    }
    if !EscapeAt(s, 0) && Untouched(s[1..], plus) {
      forall k: nat | k < |s| ensures !EscapeAt(s, k) {
        assert k > 0 ==> !EscapeAt(s[1..], k - 1);
      }
      if plus && s[0] != Plus {
        forall k | 0 <= k < |s| ensures s[k] as char != '+' {
          assert k > 0 ==> s[k] == s[1..][k - 1];
        }
      }
    }
  }

  lemma {:induction false} DecodeShrinks(s: seq<byte>, plus: bool)
    ensures |Decode(s, plus)| <= |s|
  {
    if s != [] {
      DecodeShrinks(s[if Escape(s) && !(plus && s[0] == Plus) then 3 else 1..], plus);
    }
  }

  /** Decoding leaves a string as it is exactly when no escape starts in it and, where a plus means a
      space, it has no plus: a percent sign without two digits behind it stands for itself. */
  lemma {:induction false} UntouchedExactly(s: seq<byte>, plus: bool)
    ensures Decode(s, plus) == s <==> Untouched(s, plus)
  {
    if s != [] {
      UntouchedTail(s, plus);
      EscapeIsEscape(s, 0);
      assert s[0..] == s && s == [s[0]] + s[1..];
      if Escape(s) {
        DecodeShrinks(s[3..], plus);
      } else {
        UntouchedExactly(s[1..], plus);
        assert Decode(s, plus)[1..] == Decode(s[1..], plus);
      }
    }
  }
}
