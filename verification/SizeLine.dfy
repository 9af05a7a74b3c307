/** The size lines of chunks as the generated parser of src/http/httpclient_parser.rl reads them. */
module SizeLine {
  import opened Base
  import opened Bytes
  import opened Url

  const Cr: byte := 13
  const Lf: byte := 10

  /** Where the parser stands. Proto(n) has seen n bytes of "HTTP/": a fresh parser also accepts a
      whole response head. */
  datatype State = Start | Digits | NameDue | Name | ValueDue | Value | AfterCr | Done | Bad | Proto(n: nat) | Alien

  predicate Token(b: byte) {
    || b == 33 || 35 <= b <= 39 || b == 42 || b == 43 || b == 45 || b == 46 || 48 <= b <= 57
    || 65 <= b <= 90 || 94 <= b <= 122 || b == 124 || b == 126
  }

  function AtLineEnd(b: byte): State {
    if b == Cr then AfterCr else if b == Lf then Done else Bad
  }

  function Step(p: State, b: byte): State {
    match p
    case Start => if IsHex(b) then Digits else if b == 72 then Proto(1) else Bad
    case Digits => if IsHex(b) then Digits else if b == 59 then NameDue else AtLineEnd(b)
    case NameDue => if Token(b) then Name else Bad
    case Name => if Token(b) then Name else if b == 61 then ValueDue else if b == 59 then NameDue else AtLineEnd(b)
    case ValueDue => if Token(b) then Value else Bad
    case Value => if Token(b) then Value else if b == 59 then NameDue else AtLineEnd(b)
    case AfterCr => if b == Lf then Done else Bad
    case Proto(n) =>
      if (n == 1 || n == 2) && b == 84 then Proto(n + 1)
      else if n == 3 && b == 80 then Proto(4)
      else if n == 4 && b == 47 then Alien
      else Bad
    case _ => p
  }

  /** The state the parser stops in, and how many bytes it has eaten. */
  datatype Stop = Stop(state: State, used: nat)

  function Scan(s: seq<byte>, p: State): (r: Stop)
    ensures r.used <= |s| && (s != [] ==> r.used >= 1)
  {
    if s == [] then Stop(p, 0)
    else
      var q := Step(p, s[0]);
      if q.Done? || q.Bad? || q.Alien? then Stop(q, 1)
      else
        var r := Scan(s[1..], q);
        Stop(r.state, r.used + 1)
  }

  function LeadingHex(s: seq<byte>): (d: seq<byte>)
    ensures forall b <- d :: IsHex(b)
  {
    if s == [] || !IsHex(s[0]) then [] else [s[0]] + LeadingHex(s[1..])
  }

  ghost predicate AllHex(d: seq<byte>) {
    forall b <- d :: IsHex(b)
  }

  /** strtol, base 16. */
  function Hex(d: seq<byte>): nat
    requires forall b <- d :: IsHex(b)
  {
    if d == [] then 0 else 16 * Hex(d[..|d| - 1]) + HexValue(d[|d| - 1])
  }

  /** One call of the parser, started afresh on the bytes fed to it: a whole size line and what it
      ate, everything eaten and no line yet, an error, or the beginning of a response head. */
  datatype Verdict = Size(n: nat, used: nat) | More | Error | Head

  function Execute(s: seq<byte>): (v: Verdict)
    ensures v.Size? ==> 1 <= v.used <= |s|
  {
    var r := Scan(s, Start);
    match r.state
    case Done => Size(Hex(LeadingHex(s)), r.used)
    case Bad => Error
    case Alien => Head
    case _ => More
  }

  /** What may stand between the digits of a size line and its content: extensions, if any, and the line
      end. */
  ghost predicate Tail(t: seq<byte>) {
    t != [] && !IsHex(t[0]) && Scan(t, Digits) == Stop(Done, |t|)
  }

  lemma PlainTail()
    ensures Tail([Cr, Lf])
  {
    assert [Cr, Lf][1..] == [Lf];
    assert Scan([Lf], AfterCr) == Stop(Done, 1);
  }

  lemma {:induction false} ScanOn(s: seq<byte>, t: seq<byte>, p: State)
    requires s != [] && var q := Scan(s, p).state; q.Done? || q.Bad? || q.Alien?
    requires !p.Done? && !p.Bad? && !p.Alien?
    ensures Scan(s + t, p) == Scan(s, p)
  {
    var q := Step(p, s[0]);
    assert (s + t)[1..] == s[1..] + t;
    if !q.Done? && !q.Bad? && !q.Alien? {
      ScanOn(s[1..], t, q);
    }
  }

  lemma {:induction false} ScanDigits(d: seq<byte>, t: seq<byte>)
    requires AllHex(d)
    ensures var r := Scan(t, Digits); Scan(d + t, Digits) == Stop(r.state, |d| + r.used)
    ensures LeadingHex(d + t) == d + LeadingHex(t)
  {
    if d == [] {
      assert d + t == t;
    } else {
      assert (d + t)[1..] == d[1..] + t;
      ScanDigits(d[1..], t);
      assert d == [d[0]] + d[1..];
    }
  }

  lemma ScanFromStart(d: seq<byte>, t: seq<byte>)
    requires AllHex(d) && d != []
    ensures Scan(d + t, Start) == Scan(d + t, Digits)
  {}

  /** A feed that begins with digits and a whole tail gives the value of those digits. */
  lemma WholeFeed(d: seq<byte>, t: seq<byte>, later: seq<byte>)
    requires AllHex(d) && d != [] && Tail(t)
    ensures Execute(d + t + later) == Size(Hex(d), |d| + |t|)
  {
    var u := t + later;
    assert d + t + later == d + u;
    ScanOn(t, later, Digits);
    DigitsThen(d, u);
  }

  lemma DigitsThen(d: seq<byte>, u: seq<byte>)
    requires AllHex(d) && d != [] && u != [] && !IsHex(u[0]) && Scan(u, Digits).state.Done?
    ensures Execute(d + u) == Size(Hex(d), |d| + Scan(u, Digits).used)
  {
    ScanFromStart(d, u);
    ScanDigits(d, u);
    NoLeadingHex(d, u);
  }

  lemma NoLeadingHex(d: seq<byte>, u: seq<byte>)
    requires AllHex(d) && u != [] && !IsHex(u[0])
    ensures LeadingHex(d + u) == d
  {
    ScanDigits(d, u);
    assert d + [] == d;
  }

  /** A feed of digits alone is eaten without a verdict, and so is one that ends after the CR. */
  lemma DigitFeed(d: seq<byte>)
    requires AllHex(d) && d != []
    ensures Execute(d) == More && Execute(d + [Cr]) == More
  {
    ScanFromStart(d, []);
    ScanDigits(d, []);
    assert d + [] == d;
    ScanFromStart(d, [Cr]);
    ScanDigits(d, [Cr]);
    assert Scan([Cr], Digits).state == AfterCr by {
      assert [Cr][1..] == [];
    }
  }

  /** A fresh parser cannot begin with a line end. */
  lemma LineEndFeed(s: seq<byte>)
    requires s != [] && (s[0] == Cr || s[0] == Lf)
    ensures Execute(s) == Error
  {}

  ghost predicate Zeros(d: seq<byte>) {
    forall b <- d :: b == 48
  }

  lemma {:induction false} HexZero(d: seq<byte>)
    requires AllHex(d)
    ensures Hex(d) == 0 <==> Zeros(d)
  {
    if d != [] {
      var init, last := d[..|d| - 1], d[|d| - 1];
      assert d == init + [last] && last in d;
      HexZero(init);
      HexLast(init, last);
      assert HexValue(last) == 0 <==> last == 48;
      assert Zeros(d) <==> Zeros(init) && last == 48 by {
        assert forall b <- init :: b in d;
        assert forall b <- d :: b in init || b == last;
      }
    }
  }

  lemma HexLast(d: seq<byte>, b: byte)
    requires AllHex(d) && IsHex(b)
    ensures AllHex(d + [b]) && Hex(d + [b]) == 16 * Hex(d) + HexValue(b)
  {
    assert (d + [b])[..|d|] == d;
  }

  /** Losing the leading digits keeps the value exactly when they are zeros. */
  lemma {:induction false} HexSuffix(a: seq<byte>, b: seq<byte>)
    requires AllHex(a) && AllHex(b)
    ensures AllHex(a + b) && (Hex(a + b) == Hex(b) <==> Zeros(a))
    decreases |b|
  {
    if b == [] {
      assert a + b == a;
      HexZero(a);
    } else {
      var init, last := b[..|b| - 1], b[|b| - 1];
      HexSuffix(a, init);
      HexLast(init, last);
      HexLast(a + init, last);
      assert b == init + [last];
      assert a + b == (a + init) + [last];
    }
  }

  // ----- the grammar of size lines

  /** ";" name, and perhaps "=" value. */
  datatype Extension = Extension(name: seq<byte>, value: Option<seq<byte>>)

  /** Visible ASCII but the separators. */
  predicate TokenChar(c: char) {
    '!' <= c <= '~' && c !in "()<>@,;:\\\"/[]?={}"
  }

  lemma TokenChars(b: byte)
    ensures Token(b) <==> TokenChar(b as char)
  {
    var marks := "()<>@,;:\\\"/[]?={}";
    assert marks[0] == '(' && marks[1] == ')' && marks[2] == '<' && marks[3] == '>' && marks[4] == '@'
      && marks[5] == ',' && marks[6] == ';' && marks[7] == ':' && marks[8] == '\\' && marks[9] == '\"'
      && marks[10] == '/' && marks[11] == '[' && marks[12] == ']' && marks[13] == '?' && marks[14] == '='
      && marks[15] == '{' && marks[16] == '}';
  }

  predicate Tokens(s: seq<byte>) {
    forall i :: 0 <= i < |s| ==> Token(s[i])
  }

  predicate IsToken(s: seq<byte>) {
    s != [] && Tokens(s)
  }

  predicate ValidExtension(e: Extension) {
    IsToken(e.name) && (e.value.Some? ==> IsToken(e.value.value))
  }

  function ValuePart(v: Option<seq<byte>>): seq<byte> {
    if v.Some? then ['=' as int] + v.value else []
  }

  /** The extensions as they are written, and the line end, with or without a CR. */
  function Written(es: seq<Extension>, cr: bool): seq<byte> {
    if es == [] then if cr then ['\r' as int, '\n' as int] else ['\n' as int]
    else [';' as int] + es[0].name + ValuePart(es[0].value) + Written(es[1..], cr)
  }

  // an extension begins and ends here

  lemma {:induction false} ScanToken(d: seq<byte>, t: seq<byte>, p: State)
    requires Tokens(d) && (p.Name? || p.Value?)
    ensures Scan(d + t, p) == Stop(Scan(t, p).state, |d| + Scan(t, p).used)
  {
    if d == [] {
      assert d + t == t;
    } else {
      assert (d + t)[1..] == d[1..] + t;
      ScanToken(d[1..], t, p);
    }
  }

  lemma ScanOne(b: byte, t: seq<byte>, p: State)
    requires var q := Step(p, b); !q.Done? && !q.Bad? && !q.Alien?
    ensures Scan([b] + t, p) == Stop(Scan(t, Step(p, b)).state, 1 + Scan(t, Step(p, b)).used)
  {
    assert ([b] + t)[1..] == t;
  }

  /** A token behind its separator: the first byte enters `p`, the rest stays there. */
  lemma ScanName(d: seq<byte>, t: seq<byte>, due: State, p: State)
    requires IsToken(d) && ((due.NameDue? && p.Name?) || (due.ValueDue? && p.Value?))
    ensures Scan(d + t, due) == Stop(Scan(t, p).state, |d| + Scan(t, p).used)
  {
    assert d + t == [d[0]] + (d[1..] + t);
    ScanOne(d[0], d[1..] + t, due);
    ScanToken(d[1..], t, p);
  }

  lemma ScanValuePart(v: Option<seq<byte>>, t: seq<byte>)
    requires v.Some? ==> IsToken(v.value)
    ensures var r := Scan(t, if v.Some? then Value else Name);
      Scan(ValuePart(v) + t, Name) == Stop(r.state, |ValuePart(v)| + r.used)
  {
    if v.Some? {
      assert ValuePart(v) + t == [61] + (v.value + t);
      ScanOne(61, v.value + t, Name);
      ScanName(v.value, t, ValueDue, Value);
    } else {
      assert ValuePart(v) + t == t;
    }
  }

  lemma ScanExtension(e: Extension, t: seq<byte>, p: State)
    requires ValidExtension(e) && (p.Digits? || p.Name? || p.Value?)
    ensures var r := Scan(t, if e.value.Some? then Value else Name);
      Scan([';' as int] + e.name + ValuePart(e.value) + t, p) ==
        Stop(r.state, 1 + |e.name| + |ValuePart(e.value)| + r.used)
  {
    var v := ValuePart(e.value) + t;
    assert [';' as int] + e.name + ValuePart(e.value) + t == [59] + (e.name + v);
    ScanOne(59, e.name + v, p);
    ScanName(e.name, v, NameDue, Name);
    ScanValuePart(e.value, t);
  }

  lemma {:induction false} WrittenScans(es: seq<Extension>, cr: bool, p: State)
    requires (forall e <- es :: ValidExtension(e)) && (p.Digits? || p.Name? || p.Value?)
    ensures Scan(Written(es, cr), p) == Stop(Done, |Written(es, cr)|)
    decreases |es|
  {
    if es == [] {
      assert Scan([Lf], AfterCr) == Stop(Done, 1);
      assert [Cr, Lf][1..] == [Lf];
    } else {
      ScanExtension(es[0], Written(es[1..], cr), p);
      WrittenScans(es[1..], cr, if es[0].value.Some? then Value else Name);
    }
  }

  // and the other way round: what the automaton takes has been written so

  /** The rest of a line behind digits, a name or a value that ends here. */
  lemma {:induction false} ReadLineEnd(t: seq<byte>, p: State) returns (es: seq<Extension>, cr: bool)
    requires t != [] && Scan(t, p) == Stop(Done, |t|)
    requires (p.Digits? && !IsHex(t[0])) || (p.Name? && !Token(t[0]) && t[0] != 61) || (p.Value? && !Token(t[0]))
    ensures t == Written(es, cr) && forall e <- es :: ValidExtension(e)
    decreases |t|, 0
  {
    if t[0] == 59 {
      var name, value;
      name, value, es, cr := ReadName(t[1..], NameDue);
      WrittenMore(t, Extension(name, value), es, cr);
      es := [Extension(name, value)] + es;
    } else {
      es, cr := [], t[0] == Cr;
      LineEndOnly(t, p);
    }
  }

  lemma WrittenMore(t: seq<byte>, e: Extension, es: seq<Extension>, cr: bool)
    requires t != [] && t[0] == 59 && t[1..] == e.name + ValuePart(e.value) + Written(es, cr)
    ensures t == Written([e] + es, cr)
  {
    assert t == [59] + t[1..];
    assert ([e] + es)[1..] == es;
  }

  lemma LineEndOnly(t: seq<byte>, p: State)
    requires t != [] && Scan(t, p) == Stop(Done, |t|) && Step(p, t[0]) == AtLineEnd(t[0])
    ensures t == Written([], t[0] == Cr)
  {
    if t[0] == Cr {
      assert t[1..] != [] && t[1] == Lf;
      assert t == [Cr, Lf];
    } else {
      assert t == [Lf];
    }
  }

  lemma FirstByte(t: seq<byte>, a: seq<byte>, b: seq<byte>, c: seq<byte>)
    requires t != [] && t[1..] == a + b + c
    ensures t == [t[0]] + a + b + c && (a == [] ==> t == a + ([t[0]] + b) + c)
  {
    assert t == [t[0]] + t[1..];
  }

  /** The rest of a line inside a name, or before one. */
  lemma {:induction false} ReadName(t: seq<byte>, p: State)
    returns (name: seq<byte>, value: Option<seq<byte>>, es: seq<Extension>, cr: bool)
    requires (p.NameDue? || p.Name?) && Scan(t, p) == Stop(Done, |t|)
    ensures t == name + ValuePart(value) + Written(es, cr)
    ensures Tokens(name) && (p.NameDue? ==> name != [])
    ensures (value.Some? ==> IsToken(value.value)) && forall e <- es :: ValidExtension(e)
    decreases |t|, 1
  {
    var b := t[0];
    if Token(b) {
      var n;
      n, value, es, cr := ReadName(t[1..], Name);
      name := [b] + n;
      FirstByte(t, n, ValuePart(value), Written(es, cr));
    } else if b == 61 {
      var v;
      v, es, cr := ReadValue(t[1..], ValueDue);
      assert t[1..] == [] + v + Written(es, cr);
      name, value := [], Some(v);
      FirstByte(t, [], v, Written(es, cr));
    } else {
      es, cr := ReadLineEnd(t, p);
      name, value := [], None;
    }
  }

  lemma {:induction false} ReadValue(t: seq<byte>, p: State) returns (v: seq<byte>, es: seq<Extension>, cr: bool)
    requires (p.ValueDue? || p.Value?) && Scan(t, p) == Stop(Done, |t|)
    ensures t == v + Written(es, cr)
    ensures Tokens(v) && (p.ValueDue? ==> v != [])
    ensures forall e <- es :: ValidExtension(e)
    decreases |t|, 1
  {
    var b := t[0];
    if Token(b) {
      v, es, cr := ReadValue(t[1..], Value);
      assert t == [b] + t[1..];
      v := [b] + v;
    } else {
      es, cr := ReadLineEnd(t, p);
      v := [];
    }
  }

  /** The bytes are extensions followed by a line end. */
  ghost predicate WrittenTail(t: seq<byte>) {
    exists es, cr :: t == Written(es, cr) && forall e <- es :: ValidExtension(e)
  }

  /** The automaton takes as the rest of a size line exactly what the grammar allows: extensions, each a name
      and perhaps a value, and a line end with or without a CR. */
  lemma TailExactly(t: seq<byte>)
    ensures Tail(t) <==> WrittenTail(t)
  {
    if Tail(t) {
      var es, cr := ReadLineEnd(t, Digits);
    }
    if WrittenTail(t) {
      var es, cr :| t == Written(es, cr) && forall e <- es :: ValidExtension(e);
      WrittenScans(es, cr, Digits);
    }
  }

  lemma {:induction false} ScanCut(s: seq<byte>, p: State)
    requires Scan(s, p).state.Done? && !p.Done?
    ensures var used := Scan(s, p).used; Scan(s[..used], p) == Stop(Done, used)
  {
    var q, used := Step(p, s[0]), Scan(s, p).used;
    assert s[..used][1..] == s[1..][..used - 1];
    if !q.Done? && !q.Bad? && !q.Alien? {
      ScanCut(s[1..], q);
    }
  }

  lemma {:induction false} LeadingHexIsPrefix(s: seq<byte>)
    ensures var d := LeadingHex(s); d <= s && (d < s ==> !IsHex(s[|d|]))
  {
    if s != [] && IsHex(s[0]) {
      LeadingHexIsPrefix(s[1..]);
    }
  }

  lemma {:induction false} ProtoNeverDone(s: seq<byte>, n: nat)
    ensures !Scan(s, Proto(n)).state.Done?
  {
    if s != [] && Step(Proto(n), s[0]).Proto? {
      ProtoNeverDone(s[1..], n + 1);
    }
  }

  /** Whatever size the parser reports, it has eaten digits of that value and a whole rest of the line. */
  lemma SizeMeans(s: seq<byte>) returns (d: seq<byte>, t: seq<byte>)
    requires Execute(s).Size?
    ensures d != [] && AllHex(d) && WrittenTail(t)
    ensures d + t <= s && Execute(s) == Size(Hex(d), |d + t|)
  {
    d := LeadingHex(s);
    LeadingHexIsPrefix(s);
    if d == [] && s[0] == 72 {
      ProtoNeverDone(s[1..], 1);
    }
    var rest := s[|d|..];
    assert s == d + rest;
    ScanFromStart(d, rest);
    ScanDigits(d, rest);
    t := rest[..Scan(rest, Digits).used];
    ScanCut(rest, Digits);
    TailExactly(t);
  }

  /** A response head is recognised by its first five bytes. */
  lemma HeadExactly(s: seq<byte>)
    ensures Execute(s) == Head <==> |s| >= 5 && forall i :: 0 <= i < 5 ==> s[i] as char == "HTTP/"[i]
  {
    var name := "HTTP/";
    assert name[0] == 'H' && name[1] == 'T' && name[2] == 'T' && name[3] == 'P' && name[4] == '/';
    if s != [] && s[0] == 72 {
      ProtoScan(s, 1);
    } else if s != [] && IsHex(s[0]) {
      LineStates(s[1..], Digits);
    }
  }

  /** From the n-th byte of "HTTP/" on. */
  lemma {:induction false} ProtoScan(s: seq<byte>, n: nat)
    requires 1 <= n <= 4 && n <= |s|
    ensures Scan(s[n..], Proto(n)).state.Alien? <==>
      |s| >= 5 && forall i: nat :: n <= i < 5 ==> s[i] as char == "HTTP/"[i]
    decreases 5 - n
  {
    var name := "HTTP/";
    assert name[1] == 'T' && name[2] == 'T' && name[3] == 'P' && name[4] == '/';
    if n < |s| {
      assert s[n..][1..] == s[n + 1..];
      if n < 4 && s[n] as char == name[n] {
        ProtoScan(s, n + 1);
      }
    }
  }

  predicate OfLine(p: State) {
    p.Digits? || p.NameDue? || p.Name? || p.ValueDue? || p.Value? || p.AfterCr?
  }

  lemma {:induction false} LineStates(s: seq<byte>, p: State)
    requires OfLine(p)
    ensures var q := Scan(s, p).state; OfLine(q) || q.Done? || q.Bad?
  {
    if s != [] && OfLine(Step(p, s[0])) {
      LineStates(s[1..], Step(p, s[0]));
    }
  }

  lemma {:induction false} ScanThrough(s: seq<byte>, t: seq<byte>, p: State)
    requires var q := Scan(s, p).state; !q.Done? && !q.Bad? && !q.Alien?
    ensures Scan(s + t, p).state == Scan(t, Scan(s, p).state).state
  {
    if s == [] {
      assert s + t == t;
    } else {
      assert (s + t)[1..] == s[1..] + t;
      ScanThrough(s[1..], t, Step(p, s[0]));
    }
  }

  /** Every state that is not final can still come to an end. */
  lemma Completes(p: State) returns (t: seq<byte>)
    requires p.Start? || OfLine(p) || (p.Proto? && 1 <= p.n <= 4)
    ensures Scan(t, p).state.Done? || Scan(t, p).state.Alien?
  {
    if p.Proto? {
      t := ['H' as int, 'T' as int, 'T' as int, 'P' as int, '/' as int];
      ProtoScan(t, p.n);
      t := t[p.n..];
    } else {
      t := if p.Start? then [48, Lf] else if p.NameDue? || p.ValueDue? then [97, Lf] else [Lf];
      assert [48, Lf][1..] == [Lf] && [97, Lf][1..] == [Lf];
    }
  }

  lemma {:induction false} ProtoStates(s: seq<byte>, n: nat)
    requires 1 <= n <= 4
    ensures var q := Scan(s, Proto(n)).state; q.Bad? || q.Alien? || (q.Proto? && 1 <= q.n <= 4)
  {
    if s != [] && Step(Proto(n), s[0]).Proto? {
      ProtoStates(s[1..], n + 1);
    }
  }

  /** A feed is refused exactly when nothing could follow it that makes it a size line or a head. */
  lemma ErrorExactly(s: seq<byte>)
    ensures Execute(s) == Error <==> forall t :: !Execute(s + t).Size? && !Execute(s + t).Head?
  {
    assert s + [] == s;
    var q := Scan(s, Start).state;
    if Execute(s) == Error {
      forall t ensures Execute(s + t) == Error {
        ScanOn(s, t, Start);
      }
    } else if Execute(s) == More {
      if s != [] && IsHex(s[0]) {
        LineStates(s[1..], Digits);
      } else if s != [] && s[0] == 72 {
        ProtoStates(s[1..], 1);
      }
      var t := Completes(q);
      ScanThrough(s, t, Start);
      assert Execute(s + t).Size? || Execute(s + t).Head?;
    }
  }

  // ----- the digits

  function DigitChar(n: nat, upper: bool): byte
    requires n < 16
  {
    (if upper then UpperHex[n] else LowerHex[n]) as int
  }

  /** v in hexadecimal digits of either case. */
  function Print(v: nat, upper: bool): seq<byte> {
    if v < 16 then [DigitChar(v, upper)] else Print(v / 16, upper) + [DigitChar(v % 16, upper)]
  }

  lemma DigitCharValue(n: nat, upper: bool)
    requires n < 16
    ensures IsHex(DigitChar(n, upper)) && HexValue(DigitChar(n, upper)) == n
  {
    DigitsRead(DigitChar(n, upper), n);
  }

  /** Numbers are read as they are written, in either case. */
  lemma {:induction false} HexOfPrint(v: nat, upper: bool)
    ensures AllHex(Print(v, upper)) && Hex(Print(v, upper)) == v
  {
    DigitCharValue(v % 16, upper);
    if v >= 16 {
      HexOfPrint(v / 16, upper);
      HexLast(Print(v / 16, upper), DigitChar(v % 16, upper));
    } else {
      HexLast([], DigitChar(v, upper));
      assert [] + [DigitChar(v, upper)] == Print(v, upper);
    }
  }
}
