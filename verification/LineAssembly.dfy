/**
 Byte-by-byte line assembly into a fixed buffer, as each firmware does it, against the
 split of the whole stream at newlines.
 */
module LineAssembly {
  import opened Prelude
  import opened Lines

  /** The text with carriage returns removed. */
  function Kept(s: string): (k: string)
    ensures |k| <= |s|
  {
    if s == "" then ""
    else Kept(s[..|s| - 1]) + if s[|s| - 1] == '\r' then "" else [s[|s| - 1]]
  }

  /** Buffer contents, overflow flag, lines handed on, and errors sent. */
  datatype Assembler = Assembler(kept: string, overflow: bool, dispatched: seq<string>, errors: nat)

  const EMPTY := Assembler("", false, [], 0)

  // ---- The two byte steps ----

  /** The Uno bridge keeps up to `room` characters and silently drops longer lines. */
  function UnoByte(a: Assembler, c: char, room: nat): Assembler {
    if c == '\n' then
      Assembler("", false, if a.overflow then a.dispatched else a.dispatched + [a.kept], a.errors)
    else if c != '\r' && !a.overflow then
      if |a.kept| < room then a.(kept := a.kept + [c]) else a.(overflow := true)
    else a
  }

  /** The ESP32 bridge reports a line as soon as a byte follows a full buffer. */
  function EspByte(a: Assembler, c: char, room: nat): Assembler {
    if c == '\n' then
      Assembler("", false, if a.overflow then a.dispatched else a.dispatched + [a.kept], a.errors)
    else if a.overflow then a
    else if |a.kept| >= room then a.(kept := "", overflow := true, errors := a.errors + 1)
    else if c != '\r' then a.(kept := a.kept + [c])
    else a
  }

  function UnoBytes(stream: string, room: nat): Assembler {
    if stream == "" then EMPTY
    else UnoByte(UnoBytes(stream[..|stream| - 1], room), stream[|stream| - 1], room)
  }

  function EspBytes(stream: string, room: nat): Assembler {
    if stream == "" then EMPTY
    else EspByte(EspBytes(stream[..|stream| - 1], room), stream[|stream| - 1], room)
  }

  // ---- What the whole stream says ----

  function UnoLines(raws: seq<string>, room: nat): seq<string> {
    if raws == [] then []
    else
      var raw := raws[|raws| - 1];
      UnoLines(raws[..|raws| - 1], room) + if |Kept(raw)| <= room then [Kept(raw)] else []
  }

  /** Some byte follows the one that filled the buffer. */
  ghost predicate Overruns(raw: string, room: nat) {
    exists i :: 0 <= i < |raw| && |Kept(raw[..i])| == room
  }

  ghost function EspLines(raws: seq<string>, room: nat): seq<string> {
    if raws == [] then []
    else
      var raw := raws[|raws| - 1];
      EspLines(raws[..|raws| - 1], room) + if Overruns(raw, room) then [] else [Kept(raw)]
  }

  ghost function OverrunCount(raws: seq<string>, room: nat): nat {
    if raws == [] then 0
    else OverrunCount(raws[..|raws| - 1], room) + if Overruns(raws[|raws| - 1], room) then 1 else 0
  }

  /** What the lines say, for a reader that may reject some. */
  function ReadAll<C>(lines: seq<string>, read: string -> Option<C>): seq<C> {
    if lines == [] then []
    else
      var c := read(lines[|lines| - 1]);
      ReadAll(lines[..|lines| - 1], read) + if c.Some? then [c.value] else []
  }

  // ---- Splitting grows with the stream ----

  lemma {:induction false} SplitSnoc(stream: string, c: char)
    ensures c == '\n' ==>
      RawLines(stream + [c]) == RawLines(stream) + [RawTail(stream)] && RawTail(stream + [c]) == ""
    ensures c != '\n' ==>
      RawLines(stream + [c]) == RawLines(stream) && RawTail(stream + [c]) == RawTail(stream) + [c]
  {
    var raws, tail := RawLines(stream), RawTail(stream);
    SplitJoins(stream);
    Assoc(Terminated(raws), tail, [c]);
    if c == '\n' {
      TerminatedAppend(raws, [tail]);
      TerminatedCons(tail, []);
      assert Terminated(raws + [tail]) + "" == Terminated(raws + [tail]);
      SplitUnique(raws + [tail], "");
    } else {
      SplitUnique(raws, tail + [c]);
    }
  }

  lemma {:induction false} KeptSnoc(s: string, c: char)
    ensures Kept(s + [c]) == Kept(s) + if c == '\r' then "" else [c]
  {
    assert (s + [c])[..|s|] == s;
  }

  // ---- The Uno assembler ----

  lemma {:induction false} UnoLinesSnoc(raws: seq<string>, raw: string, room: nat)
    ensures UnoLines(raws + [raw], room) ==
            UnoLines(raws, room) + if |Kept(raw)| <= room then [Kept(raw)] else []
  {
    assert (raws + [raw])[..|raws|] == raws;
  }

  lemma {:induction false} UnoRefinesSplit(stream: string, room: nat)
    ensures UnoBytes(stream, room).dispatched == UnoLines(RawLines(stream), room)
    ensures UnoBytes(stream, room).overflow <==> |Kept(RawTail(stream))| > room
    ensures !UnoBytes(stream, room).overflow ==> UnoBytes(stream, room).kept == Kept(RawTail(stream))
    ensures |UnoBytes(stream, room).kept| <= room
    decreases |stream|
  {
    if stream != "" {
      var init, c := stream[..|stream| - 1], stream[|stream| - 1];
      assert stream == init + [c];
      UnoRefinesSplit(init, room);
      SplitSnoc(init, c);
      KeptSnoc(RawTail(init), c);
      UnoLinesSnoc(RawLines(init), RawTail(init), room);
      assert UnoLines(RawLines(init), room) + [] == UnoLines(RawLines(init), room);
    }
  }

  // ---- The ESP32 assembler ----

  lemma {:induction false} KeptPrefix(s: string, i: nat)
    requires i <= |s|
    ensures |Kept(s[..i])| <= |Kept(s)|
    decreases |s|
  {
    if i < |s| {
      var init := s[..|s| - 1];
      assert init[..i] == s[..i];
      KeptPrefix(init, i);
    } else {
      assert s[..i] == s;
    }
  }

  lemma {:induction false} OverrunsSnoc(s: string, c: char, room: nat)
    ensures Overruns(s + [c], room) <==> Overruns(s, room) || |Kept(s)| == room
  {
    var t := s + [c];
    if Overruns(s, room) {
      var i :| 0 <= i < |s| && |Kept(s[..i])| == room;
      assert t[..i] == s[..i];
    }
    if |Kept(s)| == room {
      assert t[..|s|] == s;
    }
    if Overruns(t, room) {
      var i :| 0 <= i < |t| && |Kept(t[..i])| == room;
      assert t[..i] == s[..i];
      assert s[..|s|] == s;
    }
  }

  lemma {:induction false} NotOverrunFits(s: string, room: nat)
    requires !Overruns(s, room)
    ensures |Kept(s)| <= room
    decreases |s|
  {
    if s != "" {
      var init := s[..|s| - 1];
      assert s == init + [s[|s| - 1]];
      OverrunsSnoc(init, s[|s| - 1], room);
      NotOverrunFits(init, room);
    }
  }

  lemma {:induction false} EspStepOnNewline(a: Assembler, raws: seq<string>, tail: string, room: nat)
    requires a.dispatched == EspLines(raws, room)
    requires a.overflow <==> Overruns(tail, room)
    requires !a.overflow ==> a.kept == Kept(tail)
    ensures EspByte(a, '\n', room).dispatched == EspLines(raws + [tail], room)
    ensures OverrunCount(raws + [tail], room) == OverrunCount(raws, room) + if Overruns(tail, room) then 1 else 0
  {
    assert (raws + [tail])[..|raws|] == raws;
    assert EspLines(raws, room) + [] == EspLines(raws, room);
  }

  /**
   For every stream: the lines handed on are the newline-terminated ones, carriage
   returns removed, less those where a byte follows the last buffer place; each of
   those, finished or not, gets exactly one error; and the buffer never overfills.
   */
  lemma {:induction false} EspRefinesSplit(stream: string, room: nat)
    ensures EspBytes(stream, room).dispatched == EspLines(RawLines(stream), room)
    ensures EspBytes(stream, room).errors ==
            OverrunCount(RawLines(stream), room) + if Overruns(RawTail(stream), room) then 1 else 0
    ensures EspBytes(stream, room).overflow <==> Overruns(RawTail(stream), room)
    ensures !EspBytes(stream, room).overflow ==> EspBytes(stream, room).kept == Kept(RawTail(stream))
    ensures EspBytes(stream, room).overflow ==> EspBytes(stream, room).kept == ""
    ensures |EspBytes(stream, room).kept| <= room
    decreases |stream|
  {
    if stream != "" {
      var init, c := stream[..|stream| - 1], stream[|stream| - 1];
      var a, tail := EspBytes(init, room), RawTail(init);
      assert stream == init + [c];
      EspRefinesSplit(init, room);
      SplitSnoc(init, c);
      if c == '\n' {
        EspStepOnNewline(a, RawLines(init), tail, room);
      } else {
        OverrunsSnoc(tail, c, room);
        KeptSnoc(tail, c);
        if !a.overflow { NotOverrunFits(tail, room); }
        NotOverrunOverfull(tail, room);
      }
    }
  }

  lemma {:induction false} NotOverrunOverfull(s: string, room: nat)
    ensures |Kept(s)| > room ==> Overruns(s, room)
  {
    if !Overruns(s, room) { NotOverrunFits(s, room); }
  }
}
