/**
 JSON values, their compact text (what JSON.stringify prints) and a reader for that
 text (the part of JSON.parse the bridge traffic needs), with the round trip.
 */
module Json {
  import opened Prelude
  import opened Decimal

  datatype Value =
    | Null
    | Bool(b: bool)
    | Num(n: int)
    | Str(s: string)
    | Arr(elems: seq<Value>)
    | Obj(members: seq<Member>)

  datatype Member = Member(key: string, value: Value)

  // ---- Objects as ordered lists of members with distinct keys ----

  ghost predicate DistinctKeys(ms: seq<Member>) {
    forall i, j :: 0 <= i < j < |ms| ==> ms[i].key != ms[j].key
  }

  /** Every object inside v has distinct keys, as any JavaScript object does. */
  ghost predicate WellFormed(v: Value) {
    match v
    case Arr(es) => forall i :: 0 <= i < |es| ==> WellFormed(es[i])
    case Obj(ms) => DistinctKeys(ms) && forall i :: 0 <= i < |ms| ==> WellFormed(ms[i].value)
    case _ => true
  }

  function Get(ms: seq<Member>, key: string): Option<Value> {
    if ms == [] then None
    else if ms[0].key == key then Some(ms[0].value)
    else Get(ms[1..], key)
  }

  /** Assign a property: an existing key keeps its place and takes the new value. */
  function Put(ms: seq<Member>, m: Member): seq<Member> {
    if ms == [] then [m]
    else if ms[0].key == m.key then [m] + ms[1..]
    else [ms[0]] + Put(ms[1..], m)
  }

  function PutAll(acc: seq<Member>, ms: seq<Member>): seq<Member>
    decreases |ms|
  {
    if ms == [] then acc else PutAll(Put(acc, ms[0]), ms[1..])
  }

  lemma {:induction false} PutFresh(ms: seq<Member>, m: Member)
    requires forall i :: 0 <= i < |ms| ==> ms[i].key != m.key
    ensures Put(ms, m) == ms + [m]
  {
    if ms != [] { PutFresh(ms[1..], m); }
  }

  lemma {:induction false} PutAllDistinct(acc: seq<Member>, ms: seq<Member>)
    requires DistinctKeys(acc + ms)
    ensures PutAll(acc, ms) == acc + ms
    decreases |ms|
  {
    if ms == [] {
      assert acc + ms == acc;
    } else {
      forall i | 0 <= i < |acc| ensures acc[i].key != ms[0].key {
        assert (acc + ms)[i] == acc[i] && (acc + ms)[|acc|] == ms[0];
      }
      PutFresh(acc, ms[0]);
      assert (acc + [ms[0]]) + ms[1..] == acc + ms;
      PutAllDistinct(acc + [ms[0]], ms[1..]);
    }
  }

  // ---- Printing ----

  function HexDigit(d: nat): char
    requires d < 16
  {
    if d < 10 then '0' + d as char else 'a' + (d - 10) as char
  }

  function EscapeChar(c: char): string {
    if c == '\"' then "\\\""
    else if c == '\\' then "\\\\"
    else if c == '\U{8}' then "\\b"
    else if c == '\U{C}' then "\\f"
    else if c == '\n' then "\\n"
    else if c == '\r' then "\\r"
    else if c == '\t' then "\\t"
    else if c < ' ' then "\\u00" + [HexDigit(c as int / 16), HexDigit(c as int % 16)]
    else [c]
  }

  function Escape(s: string): string {
    if s == "" then "" else EscapeChar(s[0]) + Escape(s[1..])
  }

  function Quote(s: string): string {
    "\"" + Escape(s) + "\""
  }

  function Stringify(v: Value): string
    decreases v
  {
    match v
    case Null => "null"
    case Bool(b) => if b then "true" else "false"
    case Num(n) => IntText(n)
    case Str(s) => Quote(s)
    case Arr(es) => if es == [] then "[]" else "[" + ElemsText(es) + "]"
    case Obj(ms) => if ms == [] then "{}" else "{" + MembersText(ms) + "}"
  }

  function ElemsText(es: seq<Value>): string
    requires es != []
    decreases es
  {
    Stringify(es[0]) + if |es| == 1 then "" else "," + ElemsText(es[1..])
  }

  function MemberText(m: Member): string
    decreases m
  {
    Quote(m.key) + ":" + Stringify(m.value)
  }

  function MembersText(ms: seq<Member>): string
    requires ms != []
    decreases ms
  {
    MemberText(ms[0]) + if |ms| == 1 then "" else "," + MembersText(ms[1..])
  }

  // ---- Reading ----

  function HexValue(c: char): Option<nat> {
    if '0' <= c <= '9' then Some(c as int - '0' as int)
    else if 'a' <= c <= 'f' then Some(c as int - 'a' as int + 10)
    else if 'A' <= c <= 'F' then Some(c as int - 'A' as int + 10)
    else None
  }

  /** The character of a four-digit escape; surrogate code units are outside this model. */
  function ReadHex4(t: string): Option<char>
    requires |t| >= 4
  {
    var a :- HexValue(t[0]);
    var b :- HexValue(t[1]);
    var c :- HexValue(t[2]);
    var d :- HexValue(t[3]);
    var n := a * 4096 + b * 256 + c * 16 + d;
    if 0 <= n < 0xD800 || 0xE000 <= n < 0x10000 then Some(n as char) else None
  }

  function SimpleEscape(c: char): Option<char> {
    if c == '\"' || c == '\\' || c == '/' then Some(c)
    else if c == 'b' then Some('\U{8}')
    else if c == 'f' then Some('\U{C}')
    else if c == 'n' then Some('\n')
    else if c == 'r' then Some('\r')
    else if c == 't' then Some('\t')
    else None
  }

  /** One character of a string literal and the text after it. */
  function ReadChar(t: string): (r: Option<(char, string)>)
    ensures r.Some? ==> |r.value.1| < |t|
  {
    if t == "" || t[0] < ' ' || t[0] == '\"' then None
    else if t[0] != '\\' then Some((t[0], t[1..]))
    else if |t| >= 6 && t[1] == 'u' then
      var c :- ReadHex4(t[2..]);
      Some((c, t[6..]))
    else if |t| >= 2 then
      var c :- SimpleEscape(t[1]);
      Some((c, t[2..]))
    else None
  }

  /** The rest of a string literal whose opening quote has been read. */
  function ReadString(t: string): (r: Option<(string, string)>)
    ensures r.Some? ==> |r.value.1| < |t|
    decreases |t|
  {
    if t != "" && t[0] == '\"' then Some(("", t[1..]))
    else
      var (c, t1) :- ReadChar(t);
      var (s, t2) :- ReadString(t1);
      Some(([c] + s, t2))
  }

  function DigitRun(t: string): (k: nat)
    ensures k <= |t| && AllDigits(t[..k])
    ensures k < |t| ==> !IsDigit(t[k])
  {
    if t == "" || !IsDigit(t[0]) then 0
    else
      var k := DigitRun(t[1..]);
      assert t[..k + 1] == [t[0]] + t[1..][..k];
      k + 1
  }

  predicate ContinuesNumber(t: string) {
    t != "" && (IsDigit(t[0]) || t[0] == '.' || t[0] == 'e' || t[0] == 'E')
  }

  function ReadNat(t: string): (r: Option<(nat, string)>)
    ensures r.Some? ==> |r.value.1| < |t|
  {
    var k := DigitRun(t);
    if k == 0 || (t[0] == '0' && k > 1) || ContinuesNumber(t[k..]) then None
    else Some((NatValue(t[..k]), t[k..]))
  }

  function ReadNumber(t: string): (r: Option<(Value, string)>)
    ensures r.Some? ==> |r.value.1| < |t|
  {
    if t != "" && t[0] == '-' then
      var (n, rest) :- ReadNat(t[1..]);
      var m: int := n;
      Some((Num(-m), rest))
    else
      var (n, rest) :- ReadNat(t);
      Some((Num(n), rest))
  }

  function ReadValue(t: string): (r: Option<(Value, string)>)
    ensures r.Some? ==> |r.value.1| < |t|
    decreases |t|, 0
  {
    if t == "" then None
    else if t[0] == '{' then
      if |t| >= 2 && t[1] == '}' then Some((Obj([]), t[2..]))
      else
        var (ms, rest) :- ReadMembers(t[1..]);
        Some((Obj(PutAll([], ms)), rest))
    else if t[0] == '[' then
      if |t| >= 2 && t[1] == ']' then Some((Arr([]), t[2..]))
      else
        var (es, rest) :- ReadElems(t[1..]);
        Some((Arr(es), rest))
    else if t[0] == '\"' then
      var (s, rest) :- ReadString(t[1..]);
      Some((Str(s), rest))
    else if "null" <= t then Some((Null, t[4..]))
    else if "true" <= t then Some((Bool(true), t[4..]))
    else if "false" <= t then Some((Bool(false), t[5..]))
    else ReadNumber(t)
  }

  /** One or more elements up to and including the closing bracket. */
  function ReadElems(t: string): (r: Option<(seq<Value>, string)>)
    ensures r.Some? ==> |r.value.1| < |t|
    decreases |t|, 1
  {
    var (v, t1) :- ReadValue(t);
    if t1 == "" then None
    else if t1[0] == ']' then Some(([v], t1[1..]))
    else if t1[0] != ',' then None
    else
      var (vs, rest) :- ReadElems(t1[1..]);
      Some(([v] + vs, rest))
  }

  function ReadMember(t: string): (r: Option<(Member, string)>)
    ensures r.Some? ==> |r.value.1| < |t|
    decreases |t|, 1
  {
    if t == "" || t[0] != '\"' then None
    else
      var (key, t1) :- ReadString(t[1..]);
      if t1 == "" || t1[0] != ':' then None
      else
        var (v, rest) :- ReadValue(t1[1..]);
        Some((Member(key, v), rest))
  }

  /** One or more members up to and including the closing brace. */
  function ReadMembers(t: string): (r: Option<(seq<Member>, string)>)
    ensures r.Some? ==> |r.value.1| < |t|
    decreases |t|, 2
  {
    var (m, t1) :- ReadMember(t);
    if t1 == "" then None
    else if t1[0] == '}' then Some(([m], t1[1..]))
    else if t1[0] != ',' then None
    else
      var (ms, rest) :- ReadMembers(t1[1..]);
      Some(([m] + ms, rest))
  }

  function Parse(t: string): Option<Value> {
    var (v, rest) :- ReadValue(t);
    if rest == "" then Some(v) else None
  }

  // ---- What an escape says ----

  /** The character is the hexadecimal digit `d`, in lower or upper case. */
  predicate DigitIs(c: char, d: nat) {
    d < 16 && (c == "0123456789abcdef"[d] || c == "0123456789ABCDEF"[d])
  }

  lemma {:induction false} HexValueExactly(c: char, d: nat)
    ensures HexValue(c) == Some(d) <==> DigitIs(c, d)
  {
    var low, high := "0123456789abcdef", "0123456789ABCDEF";
    assert low[0] == '0' && low[1] == '1' && low[2] == '2' && low[3] == '3' && low[4] == '4' && low[5] == '5';
    assert low[6] == '6' && low[7] == '7' && low[8] == '8' && low[9] == '9' && low[10] == 'a' && low[11] == 'b';
    assert low[12] == 'c' && low[13] == 'd' && low[14] == 'e' && low[15] == 'f';
    assert forall i :: 0 <= i < 10 ==> high[i] == low[i];
    assert high[10] == 'A' && high[11] == 'B' && high[12] == 'C' && high[13] == 'D' && high[14] == 'E';
    assert high[15] == 'F';
  }

  predicate Surrogate(n: nat) {
    0xD800 <= n < 0xE000
  }

  /** Four hexadecimal digits name a code unit, most significant first; a surrogate is not read. */
  lemma {:induction false} EscapeRead(t: string, a: nat, b: nat, c: nat, d: nat)
    requires |t| >= 6 && t[0] == '\\' && t[1] == 'u'
    requires DigitIs(t[2], a) && DigitIs(t[3], b) && DigitIs(t[4], c) && DigitIs(t[5], d)
    ensures var n := ((a * 16 + b) * 16 + c) * 16 + d;
            ReadChar(t) == if Surrogate(n) then None else Some((n as char, t[6..]))
  {
    HexValueExactly(t[2], a);
    HexValueExactly(t[3], b);
    HexValueExactly(t[4], c);
    HexValueExactly(t[5], d);
  }

  /** Other characters behind the escape do not count as digits. */
  lemma {:induction false} NotAnEscape(t: string, i: nat)
    requires |t| >= 6 && t[0] == '\\' && t[1] == 'u' && 2 <= i < 6 && forall d :: !DigitIs(t[i], d)
    ensures ReadChar(t) == None
  {
    if HexValue(t[i]).Some? { HexValueExactly(t[i], HexValue(t[i]).value); }
    assert t[2..][i - 2] == t[i];
  }

  // ---- An object's text ends where the object does ----

  /** Reading from `t` left `rest`: unless all was read, both end in the same character. */
  ghost predicate SameEnd(t: string, rest: string) {
    rest != "" ==> t != "" && t[|t| - 1] == rest[|rest| - 1]
  }

  lemma {:induction false} ReadStringEnd(t: string)
    ensures ReadString(t).Some? ==> SameEnd(t, ReadString(t).value.1)
    decreases |t|
  {
    if !(t != "" && t[0] == '\"') && ReadChar(t).Some? {
      assert SameEnd(t, ReadChar(t).value.1);
      ReadStringEnd(ReadChar(t).value.1);
    }
  }

  lemma {:induction false} ReadNumberEnd(t: string)
    ensures ReadNumber(t).Some? ==> SameEnd(t, ReadNumber(t).value.1)
  {
  }

  lemma {:induction false} ReadValueEnd(t: string)
    ensures ReadValue(t).Some? ==> SameEnd(t, ReadValue(t).value.1)
    decreases |t|, 0
  {
    if t != "" {
      if t[0] == '{' {
        ReadMembersEnd(t[1..]);
      } else if t[0] == '[' {
        ReadElemsEnd(t[1..]);
      } else if t[0] == '\"' {
        ReadStringEnd(t[1..]);
      } else {
        ReadNumberEnd(t);
      }
    }
  }

  lemma {:induction false} ReadElemsEnd(t: string)
    ensures ReadElems(t).Some? ==> SameEnd(t, ReadElems(t).value.1)
    decreases |t|, 1
  {
    ReadValueEnd(t);
    var v := ReadValue(t);
    if v.Some? && v.value.1 != "" { ReadElemsEnd(v.value.1[1..]); }
  }

  lemma {:induction false} ReadMemberEnd(t: string)
    ensures ReadMember(t).Some? ==> SameEnd(t, ReadMember(t).value.1)
    decreases |t|, 1
  {
    if t != "" {
      ReadStringEnd(t[1..]);
      var key := ReadString(t[1..]);
      if key.Some? && key.value.1 != "" { ReadValueEnd(key.value.1[1..]); }
    }
  }

  lemma {:induction false} ReadMembersEnd(t: string)
    ensures ReadMembers(t).Some? ==> SameEnd(t, ReadMembers(t).value.1)
    ensures ReadMembers(t).Some? && ReadMembers(t).value.1 == "" ==> t != "" && t[|t| - 1] == '}'
    decreases |t|, 2
  {
    ReadMemberEnd(t);
    var m := ReadMember(t);
    if m.Some? && m.value.1 != "" { ReadMembersEnd(m.value.1[1..]); }
  }

  /** Text that opens with a brace is JSON only if it closes with one. */
  lemma {:induction false} ObjectTextCloses(t: string)
    requires t != "" && t[0] == '{' && Parse(t).Some?
    ensures t[|t| - 1] == '}'
  {
    if !(|t| >= 2 && t[1] == '}') { ReadMembersEnd(t[1..]); }
  }

  // ---- Round trip ----

  lemma {:induction false} ReadEscapedChar(c: char, rest: string)
    ensures ReadChar(EscapeChar(c) + rest) == Some((c, rest))
    ensures EscapeChar(c) != "" && EscapeChar(c)[0] != '\"' && EscapeChar(c)[0] >= ' '
  {
    var t := EscapeChar(c) + rest;
    if c >= ' ' && c != '\"' && c != '\\' {
      assert t[1..] == rest;
    } else if |EscapeChar(c)| == 2 {
      assert t[2..] == rest;
    } else {
      assert t[6..] == rest;
      assert t[2..][..4] == ['0', '0', HexDigit(c as int / 16), HexDigit(c as int % 16)];
      assert t[2..][0] == '0' && t[2..][1] == '0';
      assert HexValue(t[2..][2]) == Some(c as int / 16);
      assert HexValue(t[2..][3]) == Some(c as int % 16);
      assert ReadHex4(t[2..]) == Some(c);
    }
  }

  lemma {:induction false} ReadNextChar(t: string, c: char, t1: string, s: string, rest: string)
    requires t != "" && t[0] != '\"' && ReadChar(t) == Some((c, t1)) && ReadString(t1) == Some((s, rest))
    ensures ReadString(t) == Some(([c] + s, rest))
  {
  }

  lemma {:induction false} ReadQuoted(s: string, rest: string)
    ensures ReadString(Escape(s) + "\"" + rest) == Some((s, rest))
  {
    if s == "" {
      assert (Escape(s) + "\"" + rest)[1..] == rest;
    } else {
      var t := Escape(s[1..]) + "\"" + rest;
      ReadEscapedChar(s[0], t);
      ReadQuoted(s[1..], rest);
      ReadNextChar(EscapeChar(s[0]) + t, s[0], t, s[1..], rest);
      EscapeStep(s, rest);
    }
  }

  lemma {:induction false} EscapeStep(s: string, rest: string)
    requires s != ""
    ensures Escape(s) + "\"" + rest == EscapeChar(s[0]) + (Escape(s[1..]) + "\"" + rest)
    ensures [s[0]] + s[1..] == s
  {
    Regroup(EscapeChar(s[0]), Escape(s[1..]), "\"", rest);
  }

  lemma {:induction false} Regroup(a: string, b: string, c: string, d: string)
    ensures ((a + b) + c) + d == a + ((b + c) + d)
  {
  }

  lemma {:induction false} DigitRunOf(d: string, rest: string)
    requires AllDigits(d) && (rest == "" || !IsDigit(rest[0]))
    ensures DigitRun(d + rest) == |d|
  {
    if d == "" {
      assert d + rest == rest;
    } else {
      DigitRunOf(d[1..], rest);
      assert (d + rest)[1..] == d[1..] + rest;
    }
  }

  lemma {:induction false} ReadDigits(d: string, rest: string)
    requires AllDigits(d) && d != "" && (d[0] == '0' ==> |d| == 1) && !ContinuesNumber(rest)
    ensures ReadNat(d + rest) == Some((NatValue(d), rest))
  {
    DigitRunOf(d, rest);
    assert (d + rest)[..|d|] == d && (d + rest)[|d|..] == rest;
  }

  lemma {:induction false} ReadNatText(n: nat, rest: string)
    requires !ContinuesNumber(rest)
    ensures ReadNat(NatText(n) + rest) == Some((n, rest))
  {
    ReadDigits(NatText(n), rest);
    NatTextValue(n);
  }

  lemma {:induction false} ReadSigned(d: string, n: int, rest: string)
    requires n >= 0 && ReadNat(d + rest) == Some((n, rest))
    ensures ReadNumber(("-" + d) + rest) == Some((Num(-n), rest))
  {
    assert (("-" + d) + rest)[1..] == d + rest;
  }

  lemma {:induction false} ReadUnsigned(d: string, n: nat, rest: string)
    requires d != "" && d[0] != '-' && ReadNat(d + rest) == Some((n, rest))
    ensures ReadNumber(d + rest) == Some((Num(n), rest))
  {
  }

  lemma {:induction false} ReadIntText(n: int, rest: string)
    requires !ContinuesNumber(rest)
    ensures ReadNumber(IntText(n) + rest) == Some((Num(n), rest))
  {
    var k := if n < 0 then -n else n;
    ReadNatText(k, rest);
    assert IsDigit(NatText(k)[0]);
    if n < 0 {
      ReadSigned(NatText(k), k, rest);
    } else {
      ReadUnsigned(NatText(k), k, rest);
    }
  }

  lemma {:induction false} ReadsNumber(t: string)
    requires t != "" && (t[0] == '-' || IsDigit(t[0]))
    ensures ReadValue(t) == ReadNumber(t)
  {
    assert "null"[0] == 'n' && "true"[0] == 't' && "false"[0] == 'f';
  }

  lemma {:induction false} ReadsKeyword(v: Value, rest: string)
    requires v.Null? || v.Bool?
    ensures ReadValue(Stringify(v) + rest) == Some((v, rest))
  {
    var k := Stringify(v);
    var t := k + rest;
    assert t[..|k|] == k && t[|k|..] == rest;
    assert t[0] == k[0];
    assert "null"[0] == 'n' && "true"[0] == 't' && "false"[0] == 'f';
  }

  lemma {:induction false} ReadStringified(v: Value, rest: string)
    requires WellFormed(v) && !ContinuesNumber(rest)
    ensures ReadValue(Stringify(v) + rest) == Some((v, rest))
    decreases v, 0
  {
    var t := Stringify(v) + rest;
    match v
    case Null => ReadsKeyword(v, rest);
    case Bool(b) => ReadsKeyword(v, rest);
    case Num(n) =>
      assert t[0] == IntText(n)[0];
      ReadsNumber(t);
      ReadIntText(n, rest);
    case Str(s) =>
      assert t[1..] == Escape(s) + "\"" + rest;
      ReadQuoted(s, rest);
    case Arr(es) => ReadArr(es, rest);
    case Obj(ms) => ReadObj(ms, rest);
  }

  lemma {:induction false} ReadArr(es: seq<Value>, rest: string)
    requires forall i :: 0 <= i < |es| ==> WellFormed(es[i])
    ensures ReadValue(Stringify(Arr(es)) + rest) == Some((Arr(es), rest))
    decreases es, 2
  {
    var t := Stringify(Arr(es)) + rest;
    if es == [] {
      assert t[2..] == rest;
    } else {
      assert t[1..] == ElemsText(es) + "]" + rest;
      ElemsTextStart(es);
      assert t[1] == ElemsText(es)[0];
      ReadElemsText(es, rest);
    }
  }

  lemma {:induction false} ReadObj(ms: seq<Member>, rest: string)
    requires DistinctKeys(ms) && forall i :: 0 <= i < |ms| ==> WellFormed(ms[i].value)
    ensures ReadValue(Stringify(Obj(ms)) + rest) == Some((Obj(ms), rest))
    decreases ms, 3
  {
    var t := Stringify(Obj(ms)) + rest;
    if ms == [] {
      assert t[2..] == rest;
    } else {
      assert t[1..] == MembersText(ms) + "}" + rest;
      assert t[1] == '\"';
      ReadMembersText(ms, rest);
      assert [] + ms == ms;
      PutAllDistinct([], ms);
    }
  }

  lemma {:induction false} StringifyStart(v: Value)
    ensures Stringify(v) != "" && Stringify(v)[0] !in {']', '}', ',', ' ', '\n', '\r'}
  {
    if v.Num? && v.n >= 0 {
      assert IsDigit(NatText(v.n)[0]);
    }
  }

  lemma {:induction false} ElemsTextStart(es: seq<Value>)
    requires es != []
    ensures ElemsText(es) != "" && ElemsText(es)[0] != ']'
  {
    StringifyStart(es[0]);
  }

  lemma {:induction false} ReadElemsText(es: seq<Value>, rest: string)
    requires es != [] && forall i :: 0 <= i < |es| ==> WellFormed(es[i])
    ensures ReadElems(ElemsText(es) + "]" + rest) == Some((es, rest))
    decreases es, 1
  {
    var t := ElemsText(es) + "]" + rest;
    if |es| == 1 {
      var t1 := "]" + rest;
      assert t == Stringify(es[0]) + t1;
      ReadStringified(es[0], t1);
      assert t1[1..] == rest && [es[0]] == es;
    } else {
      var t2 := ElemsText(es[1..]) + "]" + rest;
      var t1 := "," + t2;
      JoinedText(Stringify(es[0]), ElemsText(es[1..]), "]", rest);
      ReadStringified(es[0], t1);
      ReadElemsText(es[1..], rest);
      assert t1[1..] == t2 && [es[0]] + es[1..] == es;
    }
  }

  lemma {:induction false} ReadMemberParts(t: string, key: string, t2: string, v: Value, rest: string)
    requires ReadValue(t2) == Some((v, rest)) && t == Quote(key) + (":" + t2)
    ensures ReadMember(t) == Some((Member(key, v), rest))
  {
    assert t[1..] == Escape(key) + "\"" + (":" + t2);
    ReadQuoted(key, ":" + t2);
    assert (":" + t2)[1..] == t2;
  }

  lemma {:induction false} ReadMemberText(m: Member, rest: string)
    requires WellFormed(m.value) && !ContinuesNumber(rest)
    ensures ReadMember(MemberText(m) + rest) == Some((m, rest))
    decreases m, 1
  {
    ReadStringified(m.value, rest);
    assert MemberText(m) + rest == Quote(m.key) + (":" + (Stringify(m.value) + rest));
    ReadMemberParts(MemberText(m) + rest, m.key, Stringify(m.value) + rest, m.value, rest);
  }

  lemma {:induction false} ReadLastMember(t: string, m: Member, rest: string)
    requires ReadMember(t) == Some((m, "}" + rest))
    ensures ReadMembers(t) == Some(([m], rest))
  {
    assert ("}" + rest)[1..] == rest;
  }

  lemma {:induction false} ReadFirstMember(t: string, m: Member, t2: string, ms: seq<Member>, rest: string)
    requires ReadMember(t) == Some((m, "," + t2)) && ReadMembers(t2) == Some((ms, rest))
    ensures ReadMembers(t) == Some(([m] + ms, rest))
  {
    assert ("," + t2)[1..] == t2;
  }

  lemma {:induction false} JoinedText(first: string, others: string, close: string, rest: string)
    ensures ((first + ("," + others)) + close) + rest == first + ("," + ((others + close) + rest))
  {
  }

  lemma {:induction false} ReadMembersText(ms: seq<Member>, rest: string)
    requires ms != [] && forall i :: 0 <= i < |ms| ==> WellFormed(ms[i].value)
    ensures ReadMembers(MembersText(ms) + "}" + rest) == Some((ms, rest))
    decreases ms, 2
  {
    if |ms| == 1 {
      ReadMemberText(ms[0], "}" + rest);
      assert MembersText(ms) + "}" + rest == MemberText(ms[0]) + ("}" + rest);
      ReadLastMember(MembersText(ms) + "}" + rest, ms[0], rest);
      assert [ms[0]] == ms;
    } else {
      ReadMembersText(ms[1..], rest);
      ReadMemberText(ms[0], "," + ((MembersText(ms[1..]) + "}") + rest));
      ReadMembersCons(ms, rest);
    }
  }

  lemma {:induction false} ReadMembersCons(ms: seq<Member>, rest: string)
    requires |ms| > 1
    requires var t2 := (MembersText(ms[1..]) + "}") + rest;
      ReadMembers(t2) == Some((ms[1..], rest)) && ReadMember(MemberText(ms[0]) + ("," + t2)) == Some((ms[0], "," + t2))
    ensures ReadMembers(MembersText(ms) + "}" + rest) == Some((ms, rest))
  {
    var t2 := (MembersText(ms[1..]) + "}") + rest;
    ReadFirstMember(MemberText(ms[0]) + ("," + t2), ms[0], t2, ms[1..], rest);
    JoinedText(MemberText(ms[0]), MembersText(ms[1..]), "}", rest);
    assert [ms[0]] + ms[1..] == ms;
  }

  /** JSON.parse undoes JSON.stringify on every value. */
  lemma {:induction false} ParseStringify(v: Value)
    requires WellFormed(v)
    ensures Parse(Stringify(v)) == Some(v)
  {
    ReadStringified(v, "");
    assert Stringify(v) + "" == Stringify(v);
  }

  /** Printing is injective. */
  lemma {:induction false} StringifyInjective(v: Value, w: Value)
    requires WellFormed(v) && WellFormed(w) && Stringify(v) == Stringify(w)
    ensures v == w
  {
    ParseStringify(v);
    ParseStringify(w);
  }
}
