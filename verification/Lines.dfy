/** Newline-separated text: JavaScript's trimming and the split of a stream into lines. */
module Lines {

  predicate NoNewline(s: string) {
    forall i :: 0 <= i < |s| ==> s[i] != '\n'
  }

  /** Index of the first newline, or -1. */
  function IndexOfNewline(s: string): (k: int)
    ensures -1 <= k < |s|
    ensures k >= 0 ==> s[k] == '\n' && forall i :: 0 <= i < k ==> s[i] != '\n'
    ensures k == -1 <==> NoNewline(s)
  {
    if s == "" then -1
    else if s[0] == '\n' then 0
    else
      var k := IndexOfNewline(s[1..]);
      assert forall i :: 0 < i < |s| ==> s[i] == s[1..][i - 1];
      if k < 0 then -1 else k + 1
  }

  /** Remove one trailing carriage return. */
  function StripCr(s: string): string {
    if s != "" && s[|s| - 1] == '\r' then s[..|s| - 1] else s
  }

  /** The white space and line terminators that String.prototype.trim removes. */
  predicate IsSpace(c: char) {
    var u := c as int;
    || 9 <= u <= 13 || u == 32 || u == 0xA0 || u == 0x1680 || 0x2000 <= u <= 0x200A
    || u == 0x2028 || u == 0x2029 || u == 0x202F || u == 0x205F || u == 0x3000 || u == 0xFEFF
  }

  function Trim(s: string): (t: string)
    ensures |t| <= |s|
    ensures t == "" || (!IsSpace(t[0]) && !IsSpace(t[|t| - 1]))
    decreases |s|
  {
    if s == "" then ""
    else if IsSpace(s[0]) then Trim(s[1..])
    else if IsSpace(s[|s| - 1]) then Trim(s[..|s| - 1])
    else s
  }

  /** The code points of white space and line terminators, sections 12.2 and 12.3 of ECMA-262. */
  const SPACES: set<int> :=
    {9, 10, 11, 12, 13, 32, 0xA0, 0x1680, 0x2000, 0x2001, 0x2002, 0x2003, 0x2004, 0x2005, 0x2006, 0x2007, 0x2008,
     0x2009, 0x200A, 0x2028, 0x2029, 0x202F, 0x205F, 0x3000, 0xFEFF}

  lemma {:induction false} SpacesExactly(c: char)
    ensures IsSpace(c) <==> c as int in SPACES
  {
  }

  ghost predicate AllSpace(s: string) {
    forall i :: 0 <= i < |s| ==> IsSpace(s[i])
  }

  /** A text with white space around a part of it. */
  ghost predicate Surrounded(s: string, before: string, part: string, behind: string) {
    s == before + part + behind && AllSpace(before) && AllSpace(behind)
  }

  lemma {:induction false} MoreBefore(s: string, before: string, part: string, behind: string)
    requires s != "" && IsSpace(s[0]) && Surrounded(s[1..], before, part, behind)
    ensures Surrounded(s, [s[0]] + before, part, behind)
  {
    assert s == [s[0]] + s[1..];
  }

  lemma {:induction false} MoreBehind(s: string, before: string, part: string, behind: string)
    requires s != "" && IsSpace(s[|s| - 1]) && Surrounded(s[..|s| - 1], before, part, behind)
    ensures Surrounded(s, before, part, behind + [s[|s| - 1]])
  {
    assert s == s[..|s| - 1] + [s[|s| - 1]];
  }

  /** Trimming cuts white space off both ends, all of it and nothing else. */
  lemma {:induction false} TrimExactly(s: string) returns (before: string, behind: string)
    ensures Surrounded(s, before, Trim(s), behind)
    decreases |s|
  {
    before, behind := "", "";
    if s != "" {
      if IsSpace(s[0]) {
        before, behind := TrimExactly(s[1..]);
        MoreBefore(s, before, Trim(s), behind);
        before := [s[0]] + before;
      } else if IsSpace(s[|s| - 1]) {
        before, behind := TrimExactly(s[..|s| - 1]);
        MoreBehind(s, before, Trim(s), behind);
        behind := behind + [s[|s| - 1]];
      }
    }
  }

  lemma {:induction false} TrimTrims(s: string)
    ensures Trim(Trim(s)) == Trim(s)
    decreases |s|
  {
    if s != "" {
      if IsSpace(s[0]) { TrimTrims(s[1..]); }
      else if IsSpace(s[|s| - 1]) { TrimTrims(s[..|s| - 1]); }
    }
  }

  lemma {:induction false} TrimStripped(s: string)
    ensures Trim(StripCr(s)) == Trim(s)
    decreases |s|
  {
    if s != "" && s[|s| - 1] == '\r' {
      if IsSpace(s[0]) {
        TrimStripped(s[1..]);
        if |s| > 1 { assert s[..|s| - 1][1..] == s[1..][..|s[1..]| - 1]; }
      }
    }
  }

  // ---- A stream is terminated lines followed by an unterminated tail ----

  /** The lines, each followed by a newline. */
  function Terminated(raws: seq<string>): string {
    if raws == [] then "" else raws[0] + "\n" + Terminated(raws[1..])
  }

  ghost predicate AllNoNewline(raws: seq<string>) {
    forall i :: 0 <= i < |raws| ==> NoNewline(raws[i])
  }

  function RawLines(s: string): (raws: seq<string>)
    ensures AllNoNewline(raws)
    decreases |s|
  {
    var k := IndexOfNewline(s);
    if k < 0 then []
    else
      ConsNoNewline(s[..k], RawLines(s[k + 1..]));
      [s[..k]] + RawLines(s[k + 1..])
  }

  lemma {:induction false} ConsNoNewline(raw: string, raws: seq<string>)
    requires NoNewline(raw) && AllNoNewline(raws)
    ensures AllNoNewline([raw] + raws)
  {
  }

  function RawTail(s: string): (tail: string)
    ensures NoNewline(tail)
    decreases |s|
  {
    var k := IndexOfNewline(s);
    if k < 0 then s else RawTail(s[k + 1..])
  }

  lemma {:induction false} SplitJoins(s: string)
    ensures Terminated(RawLines(s)) + RawTail(s) == s
    decreases |s|
  {
    var k := IndexOfNewline(s);
    if k < 0 {
      assert "" + s == s;
    } else {
      var rest := s[k + 1..];
      SplitJoins(rest);
      JoinFirst(s[..k], RawLines(rest), RawTail(rest));
      CutSelf(s, k);
    }
  }

  lemma {:induction false} CutSelf(s: string, k: nat)
    requires k < |s| && s[k] == '\n'
    ensures (s[..k] + "\n") + s[k + 1..] == s
  {
  }

  lemma {:induction false} JoinFirst(raw: string, raws: seq<string>, tail: string)
    ensures Terminated([raw] + raws) + tail == (raw + "\n") + (Terminated(raws) + tail)
  {
    TerminatedCons(raw, raws);
    Assoc(raw + "\n", Terminated(raws), tail);
  }

  lemma {:induction false} TerminatedCons(raw: string, rest: seq<string>)
    ensures Terminated([raw] + rest) == (raw + "\n") + Terminated(rest)
    ensures Terminated([raw]) == raw + "\n"
  {
    assert ([raw] + rest)[1..] == rest;
    assert [raw][1..] == [];
  }

  lemma {:induction false} CutAtNewline(dropped: string, buffer: string, k: nat)
    requires k < |buffer| && buffer[k] == '\n'
    ensures dropped + buffer == ((dropped + buffer[..k]) + "\n") + buffer[k + 1..]
    ensures dropped == "" ==> dropped + buffer == buffer && dropped + buffer[..k] == buffer[..k]
  {
  }

  lemma {:induction false} FirstNewlineAt(raw: string, rest: string)
    requires NoNewline(raw)
    ensures IndexOfNewline(raw + "\n" + rest) == |raw|
  {
    var s := raw + "\n" + rest;
    assert s[|raw|] == '\n';
    assert forall i :: 0 <= i < |raw| ==> s[i] == raw[i];
  }

  /** The split is the only one. */
  lemma {:induction false} SplitUnique(raws: seq<string>, tail: string)
    requires AllNoNewline(raws) && NoNewline(tail)
    ensures RawLines(Terminated(raws) + tail) == raws && RawTail(Terminated(raws) + tail) == tail
  {
    var s := Terminated(raws) + tail;
    if raws == [] {
      assert s == tail;
    } else {
      var rest := Terminated(raws[1..]) + tail;
      assert s == raws[0] + "\n" + rest;
      FirstNewlineAt(raws[0], rest);
      assert s[..|raws[0]|] == raws[0] && s[|raws[0]| + 1..] == rest;
      SplitUnique(raws[1..], tail);
    }
  }

  lemma {:induction false} TerminatedAppend(raws: seq<string>, more: seq<string>)
    ensures Terminated(raws + more) == Terminated(raws) + Terminated(more)
  {
    if raws == [] {
      assert raws + more == more;
    } else {
      TerminatedAppend(raws[1..], more);
      assert (raws + more)[1..] == raws[1..] + more;
      Assoc(raws[0] + "\n", Terminated(raws[1..]), Terminated(more));
    }
  }

  lemma {:induction false} Assoc<T>(a: seq<T>, b: seq<T>, c: seq<T>)
    ensures (a + b) + c == a + (b + c)
  {
  }

  function Concat(chunks: seq<string>): string {
    if chunks == [] then "" else chunks[0] + Concat(chunks[1..])
  }
}
