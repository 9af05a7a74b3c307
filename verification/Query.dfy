/** Query parameters: the PARSE_PARAM loop of src/http/http.cc and the string it undoes. */
module Query {
  import opened Base
  import opened Bytes
  import Url

  const Equals: byte := 61
  const Amp: byte := 38

  // Keys compare as C strings without regard to ASCII case

  function UpToNul(k: seq<byte>): seq<byte> {
    if k == [] || k[0] == 0 then [] else [k[0]] + UpToNul(k[1..])
  }

  function Lower(k: seq<byte>): seq<byte> {
    if k == [] then [] else [if 65 <= k[0] <= 90 then k[0] + 32 else k[0]] + Lower(k[1..])
  }

  /** Two keys are equivalent to the map's order exactly when they fold alike. */
  function Fold(k: seq<byte>): seq<byte> {
    Lower(UpToNul(k))
  }

  datatype Param = Param(key: seq<byte>, value: seq<byte>)

  type Params = map<seq<byte>, Param>

  /** map::insert: the first entry stays. */
  function Insert(m: Params, p: Param): Params {
    if Fold(p.key) in m then m else m[Fold(p.key) := p]
  }

  function InsertAll(m: Params, ps: seq<Param>): Params
    decreases |ps|
  {
    if ps == [] then m else InsertAll(Insert(m, ps[0]), ps[1..])
  }

  /** string::find. */
  function Find(s: seq<byte>, c: byte, from: nat): (r: Option<nat>)
    ensures r.Some? ==> from <= r.value < |s| && s[r.value] == c
    decreases if from < |s| then |s| - from else 0
  {
    if from >= |s| then None else if s[from] == c then Some(from) else Find(s, c, from + 1)
  }

  lemma {:induction false} FindFirst(s: seq<byte>, c: byte, from: nat, k: nat)
    requires from <= k < |s| && s[k] == c && c !in s[from..k]
    ensures Find(s, c, from) == Some(k)
    decreases k - from
  {
    if from < k {
      assert s[from] == s[from..k][0];
      assert s[from + 1..k] == s[from..k][1..];
      FindFirst(s, c, from + 1, k);
    }
  }

  lemma {:induction false} FindNothing(s: seq<byte>, c: byte, from: nat)
    requires from <= |s| && c !in s[from..]
    ensures Find(s, c, from) == None
    decreases |s| - from
  {
    if from < |s| {
      assert s[from] == s[from..][0];
      assert s[from + 1..] == s[from..][1..];
      FindNothing(s, c, from + 1);
    }
  }

  /** The key=value pieces of a query from pos on. */
  function Pieces(s: seq<byte>, pos: nat): seq<Param>
    requires pos <= |s|
    decreases |s| - pos
  {
    match Find(s, Equals, pos)
    case None => []
    case Some(key) =>
      match Find(s, Amp, key)
      case None => [Piece(s, pos, key, |s|)]
      case Some(amp) => [Piece(s, pos, key, amp)] + Pieces(s, amp + 1)
  }

  /** One piece: the key as it stands, the value decoded. */
  function Piece(s: seq<byte>, pos: nat, key: nat, end: nat): Param
    requires pos <= key < end <= |s|
  {
    Param(s[pos..key], Url.Decode(s[key + 1..end], true))
  }

  lemma PiecesLast(s: seq<byte>, pos: nat, key: nat)
    requires pos <= |s| && Find(s, Equals, pos) == Some(key) && Find(s, Amp, key) == None
    ensures Pieces(s, pos) == [Piece(s, pos, key, |s|)] + []
  {}

  lemma PiecesMore(s: seq<byte>, pos: nat, key: nat, amp: nat, next: nat, p: Param)
    requires pos <= |s| && Find(s, Equals, pos) == Some(key) && Find(s, Amp, key) == Some(amp)
    requires key < amp && next == amp + 1 && p == Piece(s, pos, key, amp)
    ensures Pieces(s, pos) == [p] + Pieces(s, next)
  {}

  lemma InsertFront(m: Params, p: Param, ps: seq<Param>)
    ensures InsertAll(m, [p] + ps) == InsertAll(Insert(m, p), ps)
    ensures [p] + [] == [p]
  {
    assert ([p] + ps)[1..] == ps;
  }

  /** One turn of the loop: the pair found from pos on, if any, and where the next may start. */
  method NextPair(str: seq<byte>, pos: nat) returns (p: Option<Param>, next: Option<nat>)
    requires pos <= |str|
    ensures p.None? ==> Pieces(str, pos) == []
    ensures p.Some? && next.None? ==> Pieces(str, pos) == [p.value] + []
    ensures p.Some? && next.Some? ==>
      pos < next.value <= |str| && Pieces(str, pos) == [p.value] + Pieces(str, next.value)
  {
    var eq := Find(str, Equals, pos);
    if eq.None? {
      return None, None;
    }
    var key := eq.value;
    var amp := Find(str, Amp, key);
    if amp.None? {
      var v := Url.UrlDecode(str[key + 1..], true);
      PiecesLast(str, pos, key);
      assert str[key + 1..] == str[key + 1..|str|];
      return Some(Param(str[pos..key], v)), None;
    }
    var v := Url.UrlDecode(str[key + 1..amp.value], true);
    p, next := Some(Param(str[pos..key], v)), Some(amp.value + 1);
    PiecesMore(str, pos, key, amp.value, next.value, p.value);
  }

  /** The loop. */
  method ParseParams(str: seq<byte>, before: Params) returns (m: Params)
    ensures m == InsertAll(before, Pieces(str, 0))
  {
    m := before;
    var pos: nat := 0;
    ghost var todo, goal := Pieces(str, 0), InsertAll(before, Pieces(str, 0));
    while true
      invariant pos <= |str| && todo == Pieces(str, pos) && InsertAll(m, todo) == goal
      decreases |str| - pos
    {
      var p, next := NextPair(str, pos);
      if p.None? {
        break;
      }
      todo := if next.Some? then Pieces(str, next.value) else [];
      InsertFront(m, p.value, todo);
      m := Insert(m, p.value);
      if next.None? {
        break;
      }
      pos := next.value;
    }
  }

  /** A request, as far as its query goes. */
  class Request {
    var query: seq<byte>
    var params: Params
    var flag: nat

    constructor (query: seq<byte>)
      ensures this.query == query && params == map[] && flag == 0
    {
      this.query, params, flag := query, map[], 0;
    }

    /** initQueryParam: parses once; the low bit of the flag remembers. */
    method InitQueryParam()
      modifies this`params, this`flag
      ensures flag % 2 == 1 && flag / 2 == old(flag) / 2
      ensures params == if old(flag) % 2 == 1 then old(params) else InsertAll(old(params), Pieces(query, 0))
    {
      if flag % 2 == 1 {
        return;
      }
      params := ParseParams(query, params);
      flag := flag + 1;
    }
  }

  // The printer

  /** k1=v1&k2=v2... with encoded values. */
  ghost function Print(ps: seq<Param>, plus: bool): seq<byte> {
    if ps == [] then []
    else
      var one := ps[0].key + [Equals] + Url.Encode(ps[0].value, plus);
      if |ps| == 1 then one else one + [Amp] + Print(ps[1..], plus)
  }

  ghost predicate Keys(ps: seq<Param>) {
    forall p <- ps :: Equals !in p.key
  }

  lemma NoAmp(v: seq<byte>, plus: bool)
    ensures Amp !in Url.Encode(v, plus)
  {
    if Amp in Url.Encode(v, plus) {
      Url.EncodeAlphabet(v, plus, Amp);
    }
  }

  /** One printed pair, between what comes before and what comes after: nothing, or an '&' and more. */
  lemma OnePiece(s: seq<byte>, pos: nat, k: seq<byte>, e: seq<byte>, after: seq<byte>, key: nat, end: nat)
    requires pos <= |s| && s[pos..] == k + [Equals] + e + after && key == pos + |k| && end == key + 1 + |e|
    requires Equals !in k && Amp !in e && (after == [] || after[0] == Amp)
    ensures end <= |s| && s[end..] == after
    ensures Find(s, Equals, pos) == Some(key) && Find(s, Amp, key) == (if after == [] then None else Some(end))
    ensures Piece(s, pos, key, end) == Param(k, Url.Decode(e, true))
  {
    AfterKey(s, s[pos..], pos, k, e, after, key, end);
    assert Amp !in [Equals] + e;
    FindFirst(s, Equals, pos, key);
    if after == [] {
      FindNothing(s, Amp, key);
    } else {
      assert s[end] == s[end..][0];
      FindFirst(s, Amp, key, end);
    }
  }

  lemma AfterKey(s: seq<byte>, t: seq<byte>, pos: nat, k: seq<byte>, e: seq<byte>, after: seq<byte>, key: nat, end: nat)
    requires pos <= |s| && t == s[pos..] && t == k + [Equals] + e + after && key == pos + |k| && end == key + 1 + |e|
    ensures end <= |s| && s[pos..key] == k && s[key] == Equals
    ensures s[key + 1..end] == e && s[end..] == after
    ensures s[key..end] == [Equals] + e
    ensures after == [] ==> s[key..] == [Equals] + e
  {
    assert s[pos..key] == t[..|k|];
    assert s[key..] == t[|k|..] == [Equals] + e + after;
    assert s[key + 1..] == s[key..][1..] == e + after;
    assert s[key + 1..end] == s[key + 1..][..|e|];
    assert s[end..] == s[key + 1..][|e|..];
    assert s[key..end] == s[key..][..1 + |e|];
  }

  lemma LastFound(s: seq<byte>, pos: nat, k: seq<byte>, e: seq<byte>, p: Param)
    requires pos <= |s| && s[pos..] == k + [Equals] + e
    requires Equals !in k && Amp !in e && p == Param(k, Url.Decode(e, true))
    ensures Pieces(s, pos) == [p] + []
  {
    assert s[pos..] == k + [Equals] + e + [];
    OnePiece(s, pos, k, e, [], pos + |k|, |s|);
    PiecesLast(s, pos, pos + |k|);
  }

  lemma MoreFound(s: seq<byte>, pos: nat, k: seq<byte>, e: seq<byte>, after: seq<byte>, p: Param, next: nat)
    requires pos <= |s| && s[pos..] == k + [Equals] + e + after && after != [] && after[0] == Amp
    requires Equals !in k && Amp !in e && p == Param(k, Url.Decode(e, true)) && next == pos + |k| + 1 + |e| + 1
    ensures next <= |s| && s[next..] == after[1..] && Pieces(s, pos) == [p] + Pieces(s, next)
  {
    var key, amp := pos + |k|, next - 1;
    OnePiece(s, pos, k, e, after, key, amp);
    assert s[next..] == s[amp..][1..];
    PiecesMore(s, pos, key, amp, next, p);
  }

  lemma PrintMore(ps: seq<Param>, plus: bool)
    requires |ps| > 1
    ensures Print(ps, plus) == ps[0].key + [Equals] + Url.Encode(ps[0].value, plus) + ([Amp] + Print(ps[1..], plus))
    ensures ([Amp] + Print(ps[1..], plus))[1..] == Print(ps[1..], plus)
  {}

  lemma HeadTail(all: seq<Param>, rest: seq<Param>, ps: seq<Param>)
    requires ps != [] && all == [ps[0]] + rest && rest == ps[1..]
    ensures all == ps
  {}

  /** Parsing a printed list from where it starts gives the list. */
  lemma {:induction false} PiecesOfPrint(s: seq<byte>, pos: nat, ps: seq<Param>, plus: bool)
    requires Keys(ps) && pos <= |s| && s[pos..] == Print(ps, plus)
    ensures Pieces(s, pos) == ps
    decreases |ps|
  {
    if ps == [] {
      FindNothing(s, Equals, pos);
    } else {
      var k, e := ps[0].key, Url.Encode(ps[0].value, plus);
      NoAmp(ps[0].value, plus);
      Url.DecodeOfEncode(ps[0].value, plus, true);
      if |ps| == 1 {
        LastFound(s, pos, k, e, ps[0]);
        HeadTail(Pieces(s, pos), [], ps);
      } else {
        var after := [Amp] + Print(ps[1..], plus);
        PrintMore(ps, plus);
        var next := pos + |k| + 1 + |e| + 1;
        MoreFound(s, pos, k, e, after, ps[0], next);
        PiecesOfPrint(s, next, ps[1..], plus);
        HeadTail(Pieces(s, pos), Pieces(s, next), ps);
      }
    }
  }

  ghost predicate FirstAt(ps: seq<Param>, f: seq<byte>, i: nat)
    requires i < |ps|
  {
    Fold(ps[i].key) == f && forall j :: 0 <= j < i ==> Fold(ps[j].key) != f
  }

  /** The first of the pairs whose key folds to f, if any. */
  ghost function First(ps: seq<Param>, f: seq<byte>): (r: Option<Param>)
    ensures r.Some? <==> exists i :: 0 <= i < |ps| && Fold(ps[i].key) == f
    ensures r.Some? ==> exists i :: 0 <= i < |ps| && ps[i] == r.value && FirstAt(ps, f, i)
  {
    if ps == [] then None
    else if Fold(ps[0].key) == f then Some(ps[0])
    else
      FirstLater(ps, f);
      First(ps[1..], f)
  }

  /** Leaving out a first pair with another key. */
  lemma FirstLater(ps: seq<Param>, f: seq<byte>)
    requires ps != [] && Fold(ps[0].key) != f
    ensures (exists i :: 0 <= i < |ps| && Fold(ps[i].key) == f) <==>
      (exists i :: 0 <= i < |ps[1..]| && Fold(ps[1..][i].key) == f)
    ensures forall i :: 0 <= i < |ps[1..]| && FirstAt(ps[1..], f, i) ==>
      ps[i + 1] == ps[1..][i] && FirstAt(ps, f, i + 1)
  {
    var later := ps[1..];
    if i :| 0 <= i < |ps| && Fold(ps[i].key) == f {
      assert later[i - 1] == ps[i];
    }
    forall i | 0 <= i < |later| && FirstAt(later, f, i)
      ensures ps[i + 1] == later[i] && FirstAt(ps, f, i + 1)
    {
      forall j | 0 <= j < i + 1
        ensures Fold(ps[j].key) != f
      {
        assert j > 0 ==> ps[j] == later[j - 1];
      }
    }
  }

  /** Inserting in turn keeps what was there and, of each new key, the first. */
  lemma {:induction false} InsertAllFirst(m: Params, ps: seq<Param>, f: seq<byte>)
    ensures f in InsertAll(m, ps) <==> f in m || First(ps, f).Some?
    ensures f in m ==> InsertAll(m, ps)[f] == m[f]
    ensures f !in m && First(ps, f).Some? ==> InsertAll(m, ps)[f] == First(ps, f).value
    decreases |ps|
  {
    if ps != [] {
      InsertAllFirst(Insert(m, ps[0]), ps[1..], f);
    }
  }

  /** Any list of pairs with '='-free keys, printed with either encoding and parsed into an empty
      map: a key is found, without regard to case, exactly when some pair has it, and it has the
      value of the first such pair, whatever bytes the values hold. */
  lemma ParseOfPrint(ps: seq<Param>, plus: bool, k: seq<byte>)
    requires Keys(ps)
    ensures var m := InsertAll(map[], Pieces(Print(ps, plus), 0));
      && (Fold(k) in m <==> exists i :: 0 <= i < |ps| && Fold(ps[i].key) == Fold(k))
      && (Fold(k) in m ==> Some(m[Fold(k)]) == First(ps, Fold(k)))
  {
    PiecesOfPrint(Print(ps, plus), 0, ps, plus);
    InsertAllFirst(map[], ps, Fold(k));
  }

  /** Without NUL bytes the folding is plain lower case. */
  lemma {:induction false} FoldPlain(k: seq<byte>)
    requires 0 !in k
    ensures Fold(k) == Lower(k)
  {
    if k != [] {
      FoldPlain(k[1..]);
      assert UpToNul(k[1..]) == UpToNul(k)[1..];
    }
  }

  /** The same byte, or the same ASCII letter in the other case. */
  predicate SameLetter(a: byte, b: byte) {
    var x, y := a as char, b as char;
    x == y || ('A' <= x <= 'Z' && y == x + 32 as char) || ('A' <= y <= 'Z' && x == y + 32 as char)
  }

  lemma {:induction false} LowerExactly(a: seq<byte>, b: seq<byte>)
    ensures Lower(a) == Lower(b) <==> |a| == |b| && forall i :: 0 <= i < |a| ==> SameLetter(a[i], b[i])
  {
    if a != [] && b != [] {
      var a', b' := a[1..], b[1..];
      LowerExactly(a', b');
      assert Lower(a) == Lower(b) <==> Lower(a)[0] == Lower(b)[0] && Lower(a') == Lower(b') by {
        assert Lower(a)[1..] == Lower(a') && Lower(b)[1..] == Lower(b');
      }
      assert forall i :: 0 <= i < |a'| ==> a'[i] == a[i + 1];
      assert forall i :: 0 <= i < |b'| ==> b'[i] == b[i + 1];
      if Lower(a) == Lower(b) {
        forall i | 0 <= i < |a| ensures SameLetter(a[i], b[i]) {
          assert i > 0 ==> a[i] == a'[i - 1] && b[i] == b'[i - 1];
        }
      }
    }
  }

  /** Keys without NUL are one key of the map exactly when they have the same length and differ at most
      in the case of ASCII letters. */
  lemma FoldExactly(a: seq<byte>, b: seq<byte>)
    requires 0 !in a && 0 !in b
    ensures Fold(a) == Fold(b) <==> |a| == |b| && forall i :: 0 <= i < |a| ==> SameLetter(a[i], b[i])
  {
    FoldPlain(a);
    FoldPlain(b);
    LowerExactly(a, b);
  }

  /** A NUL ends a key: what follows it does not tell keys apart. */
  lemma FoldCut(k: seq<byte>, j: nat)
    requires j < |k| && k[j] == 0
    ensures Fold(k) == Fold(k[..j])
  {
    UpToNulCut(k, j);
  }

  lemma {:induction false} UpToNulCut(k: seq<byte>, j: nat)
    requires j < |k| && k[j] == 0
    ensures UpToNul(k) == UpToNul(k[..j])
  {
    if j > 0 && k[0] != 0 {
      assert k[..j][1..] == k[1..][..j - 1];
      UpToNulCut(k[1..], j - 1);
    }
  }

  /** What any query means, piece by piece: without '=' nothing is found; a key ends at the first '=', its
      value at the first '&' behind that or at the end, and the search goes on behind the '&'. */
  lemma PiecesMean(s: seq<byte>, pos: nat, k: seq<byte>, v: seq<byte>, more: seq<byte>)
    requires pos <= |s| && Equals !in k && Amp !in v
    ensures s[pos..] == k ==> Pieces(s, pos) == []
    ensures s[pos..] == k + [Equals] + v ==> Pieces(s, pos) == [Param(k, Url.Decode(v, true))]
    ensures var next := pos + |k| + |v| + 2;
      s[pos..] == k + [Equals] + v + ([Amp] + more) ==>
        next <= |s| && s[next..] == more && Pieces(s, pos) == [Param(k, Url.Decode(v, true))] + Pieces(s, next)
  {
    var p, after := Param(k, Url.Decode(v, true)), [Amp] + more;
    if s[pos..] == k {
      FindNothing(s, Equals, pos);
    }
    if s[pos..] == k + [Equals] + v {
      LastFound(s, pos, k, v, p);
    }
    if s[pos..] == k + [Equals] + v + after {
      MoreFound(s, pos, k, v, after, p, pos + |k| + 1 + |v| + 1);
      assert after[1..] == more;
    }
  }
}
