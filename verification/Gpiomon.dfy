/**
 The edge stream of a gpiomon process: chunks of its output in, one accepted event per edge
 out, edges too close to the last accepted one on their line counted as debounced.
 */
module Gpiomon {
  import opened Prelude
  import opened Lines

  /** A recognised output line; some formats name the line instead of giving its offset. */
  datatype Edge = Edge(offset: Option<nat>, rising: bool)

  datatype Event = Event(offset: nat, rising: bool, at: int)

  /**
   What the watch was started with, how its output lines read once trimmed, and the clock:
   reading `n` is taken for the n-th line that names a watched offset.
   */
  datatype Setup = Setup(offsets: seq<nat>, debounceMs: int, parse: string -> Option<Edge>, clock: nat -> int)

  datatype Watch = Watch(last: map<nat, int>, events: seq<Event>, debounced: nat, unrecognized: nat)

  const IDLE := Watch(map[], [], 0, 0)

  predicate Blank(line: string) {
    Trim(line) == ""
  }

  /** The watched edge a line reports, if it does. */
  function Recognize(line: string, setup: Setup): Option<Edge> {
    var edge := setup.parse(Trim(line));
    if edge.None? || edge.value.offset.None? || edge.value.offset.value !in setup.offsets then None else edge
  }

  function HandleLine(w: Watch, line: string, setup: Setup): Watch {
    if Blank(line) then w
    else if Recognize(line, setup).None? then w.(unrecognized := w.unrecognized + 1)
    else
      var edge := Recognize(line, setup).value;
      var offset := edge.offset.value;
      var now := setup.clock(|w.events| + w.debounced);
      if setup.debounceMs > 0 && offset in w.last && now - w.last[offset] < setup.debounceMs then
        w.(debounced := w.debounced + 1)
      else w.(last := w.last[offset := now], events := w.events + [Event(offset, edge.rising, now)])
  }

  function HandleAll(w: Watch, lines: seq<string>, setup: Setup): Watch {
    if lines == [] then w else HandleLine(HandleAll(w, lines[..|lines| - 1], setup), lines[|lines| - 1], setup)
  }

  lemma {:induction false} HandleSnoc(w: Watch, lines: seq<string>, line: string, setup: Setup)
    ensures HandleAll(w, lines + [line], setup) == HandleLine(HandleAll(w, lines, setup), line, setup)
  {
    assert (lines + [line])[..|lines|] == lines;
  }

  function StripAll(raws: seq<string>): (r: seq<string>)
    ensures |r| == |raws| && forall i :: 0 <= i < |raws| ==> r[i] == StripCr(raws[i])
  {
    if raws == [] then [] else StripAll(raws[..|raws| - 1]) + [StripCr(raws[|raws| - 1])]
  }

  lemma {:induction false} StripSnoc(raws: seq<string>, raw: string)
    ensures StripAll(raws + [raw]) == StripAll(raws) + [StripCr(raw)]
  {
    assert (raws + [raw])[..|raws|] == raws;
  }

  /** The lines a finished stream consists of: its terminated lines, and what is left unless that is blank. */
  function StreamLines(stream: string): seq<string> {
    var tail := Trim(RawTail(stream));
    StripAll(RawLines(stream)) + if tail == "" then [] else [tail]
  }

  // ---- The watch object ----

  class GpioLineWatch {
    const setup: Setup
    var lastAccepted: map<nat, int>
    var events: seq<Event>
    var debouncedCount: nat
    var unrecognizedCount: nat

    function View(): Watch
      reads this
    {
      Watch(lastAccepted, events, debouncedCount, unrecognizedCount)
    }

    constructor (setup: Setup)
      ensures this.setup == setup && View() == IDLE
    {
      this.setup := setup;
      lastAccepted, events, debouncedCount, unrecognizedCount := map[], [], 0, 0;
    }

    method Handle(line: string)
      modifies this
      ensures View() == HandleLine(old(View()), line, setup)
    {
      if Blank(line) { return; }
      var recognized := Recognize(line, setup);
      if recognized.None? {
        unrecognizedCount := unrecognizedCount + 1;
        return;
      }
      var edge := recognized.value;
      var offset := edge.offset.value;
      var now := setup.clock(|events| + debouncedCount);
      if setup.debounceMs > 0 && offset in lastAccepted && now - lastAccepted[offset] < setup.debounceMs {
        debouncedCount := debouncedCount + 1;
        return;
      }
      lastAccepted := lastAccepted[offset := now];
      events := events + [Event(offset, edge.rising, now)];
    }

    /** However the output is cut into chunks, the lines of the whole stream are handled, each once and in order. */
    method Consume(chunks: seq<string>)
      modifies this
      ensures View() == HandleAll(old(View()), StreamLines(Concat(chunks)), setup)
    {
      ghost var start := View();
      var buffer := "";
      ghost var done: seq<string>, stream := [], "";
      for i := 0 to |chunks|
        invariant stream == Concat(chunks[..i]) && Progress(done, buffer, stream) && NoNewline(buffer)
        invariant View() == HandleAll(start, StripAll(done), setup)
      {
        ProgressMore(done, buffer, stream, chunks[i]);
        ConcatSnoc(chunks, i);
        buffer := buffer + chunks[i];
        stream := stream + chunks[i];
        while true
          invariant Progress(done, buffer, stream)
          invariant View() == HandleAll(start, StripAll(done), setup)
          decreases |buffer|
        {
          var newline := IndexOfNewline(buffer);
          if newline < 0 { break; }
          var raw := buffer[..newline];
          ProgressLine(done, buffer, stream, newline);
          StripSnoc(done, raw);
          HandleSnoc(start, StripAll(done), StripCr(raw), setup);
          buffer := buffer[newline + 1..];
          Handle(StripCr(raw));
          done := done + [raw];
        }
      }
      assert chunks[..|chunks|] == chunks;
      SplitUnique(done, buffer);
      var remainder := Trim(buffer);
      if remainder != "" {
        HandleSnoc(start, StripAll(done), remainder, setup);
        Handle(remainder);
      } else {
        assert StripAll(done) + [] == StripAll(done);
      }
    }
  }

  /** The stream so far is the lines done and what is still buffered. */
  ghost predicate Progress(done: seq<string>, buffer: string, stream: string) {
    AllNoNewline(done) && Terminated(done) + buffer == stream
  }

  lemma {:induction false} ProgressMore(done: seq<string>, buffer: string, stream: string, chunk: string)
    requires Progress(done, buffer, stream)
    ensures Progress(done, buffer + chunk, stream + chunk)
  {
    Assoc(Terminated(done), buffer, chunk);
  }

  lemma {:induction false} ProgressLine(done: seq<string>, buffer: string, stream: string, k: nat)
    requires Progress(done, buffer, stream) && k < |buffer| && IndexOfNewline(buffer) == k
    ensures Progress(done + [buffer[..k]], buffer[k + 1..], stream)
  {
    var raw, rest := buffer[..k], buffer[k + 1..];
    TerminatedAppend(done, [raw]);
    TerminatedCons(raw, []);
    CutAtNewline("", buffer, k);
    Assoc(Terminated(done), raw + "\n", rest);
  }

  lemma {:induction false} ConcatSnoc(chunks: seq<string>, i: nat)
    requires i < |chunks|
    ensures Concat(chunks[..i + 1]) == Concat(chunks[..i]) + chunks[i]
    decreases i
  {
    if i == 0 {
      assert chunks[..1] == [chunks[0]] && [chunks[0]][1..] == [];
    } else {
      ConcatSnoc(chunks[1..], i - 1);
      assert chunks[..i + 1][1..] == chunks[1..][..i] && chunks[..i][1..] == chunks[1..][..i - 1];
      Assoc(chunks[0], Concat(chunks[1..][..i - 1]), chunks[i]);
    }
  }

  // ---- What the counters and the events mean ----

  function NonBlank(lines: seq<string>): nat {
    if lines == [] then 0 else NonBlank(lines[..|lines| - 1]) + if Trim(lines[|lines| - 1]) == "" then 0 else 1
  }

  /** The edges the lines report on watched offsets, in order. */
  function Edges(lines: seq<string>, setup: Setup): seq<(nat, bool)> {
    if lines == [] then []
    else
      Edges(lines[..|lines| - 1], setup) + EdgeOn(Trim(lines[|lines| - 1]), setup)
  }

  /** The edge that trimmed text reports, if it reads as one on a watched offset. */
  function EdgeOn(text: string, setup: Setup): seq<(nat, bool)> {
    match setup.parse(text)
    case Some(Edge(Some(offset), rising)) => if text != "" && offset in setup.offsets then [(offset, rising)] else []
    case _ => []
  }

  /**
   Events, debounced edges and unrecognised lines add up to the non-blank lines, and the first
   two to the edges reported.
   */
  lemma {:induction false} CountersAddUp(lines: seq<string>, setup: Setup)
    ensures var w := HandleAll(IDLE, lines, setup);
            && |w.events| + w.debounced + w.unrecognized == NonBlank(lines)
            && |w.events| + w.debounced == |Edges(lines, setup)|
    decreases |lines|
  {
    if lines != [] { CountersAddUp(lines[..|lines| - 1], setup); }
  }

  /** The last accepted time of each line is that of its latest event, and the events keep their distance. */
  ghost predicate Spaced(w: Watch, debounceMs: int) {
    && (forall i :: 0 <= i < |w.events| ==>
        w.events[i].offset in w.last && w.events[i].at <= w.last[w.events[i].offset])
    && (forall i, j :: 0 <= i < j < |w.events| && w.events[i].offset == w.events[j].offset ==>
          w.events[j].at - w.events[i].at >= debounceMs)
  }

  /**
   Accepted events on one line are at least the debounce interval apart, whatever the clock
   does, and every one of them is on a watched line.
   */
  lemma {:induction false} EventsKeepDistance(lines: seq<string>, setup: Setup)
    requires setup.debounceMs > 0
    ensures Spaced(HandleAll(IDLE, lines, setup), setup.debounceMs)
    ensures forall i :: 0 <= i < |HandleAll(IDLE, lines, setup).events| ==>
              HandleAll(IDLE, lines, setup).events[i].offset in setup.offsets
    decreases |lines|
  {
    if lines != [] { EventsKeepDistance(lines[..|lines| - 1], setup); }
  }

  /** Without an interval every reported edge becomes an event, in order, stamped with its own clock reading. */
  lemma {:induction false} NothingDebounced(lines: seq<string>, setup: Setup)
    requires setup.debounceMs <= 0
    ensures var w, edges := HandleAll(IDLE, lines, setup), Edges(lines, setup);
            && w.debounced == 0 && |w.events| == |edges|
            && forall i :: 0 <= i < |edges| ==> w.events[i] == Event(edges[i].0, edges[i].1, setup.clock(i))
    decreases |lines|
  {
    if lines != [] { NothingDebounced(lines[..|lines| - 1], setup); }
  }

  /** An edge counts when it is the first on its line, or comes no sooner than the interval after the last that did. */
  predicate FarEnough(last: Option<int>, now: int, debounceMs: int) {
    debounceMs <= 0 || last.None? || now >= last.value + debounceMs
  }

  /** When the last edge that counts came on one line. */
  function LastCounted(edges: seq<(nat, bool)>, setup: Setup, offset: nat): Option<int> {
    if edges == [] then None
    else
      var n := |edges| - 1;
      var before := LastCounted(edges[..n], setup, offset);
      if edges[n].0 == offset &&
           FarEnough(before, setup.clock(n), setup.debounceMs) then Some(setup.clock(n)) else before
  }

  /** The edges that count, each with its clock reading. */
  function Counted(edges: seq<(nat, bool)>, setup: Setup): seq<Event> {
    if edges == [] then []
    else
      var n := |edges| - 1;
      var (offset, rising) := edges[n];
      Counted(edges[..n], setup) +
      if FarEnough(LastCounted(edges[..n], setup, offset), setup.clock(n), setup.debounceMs)
      then [Event(offset, rising, setup.clock(n))] else []
  }

  /** The events are exactly the edges that count, line by line, and the debounced ones are the others. */
  lemma {:induction false} EventsAreTheCountedEdges(lines: seq<string>, setup: Setup)
    ensures var w, edges := HandleAll(IDLE, lines, setup), Edges(lines, setup);
            && w.events == Counted(edges, setup) && w.debounced == |edges| - |w.events|
            && forall offset: nat ::
                 LastCounted(edges, setup, offset) == if offset in w.last then Some(w.last[offset]) else None
    decreases |lines|
  {
    if lines != [] {
      var init, last := lines[..|lines| - 1], lines[|lines| - 1];
      EventsAreTheCountedEdges(init, setup);
      CountersAddUp(init, setup);
      var edges, more := Edges(init, setup), EdgeOn(Trim(last), setup);
      if more == [] {
        assert Edges(lines, setup) == edges;
      } else {
        assert Edges(lines, setup) == edges + more && (edges + more)[..|edges|] == edges;
      }
    }
  }

  // ---- The end of the stream ----

  /** Only the trimmed text of a line matters. */
  lemma {:induction false} HandleTrimmed(w: Watch, s: string, t: string, setup: Setup)
    requires Trim(s) == Trim(t)
    ensures HandleLine(w, s, setup) == HandleLine(w, t, setup)
  {
  }

  /** It makes no difference whether the last line of the stream is terminated. */
  lemma {:induction false} FinalNewlineIrrelevant(stream: string, setup: Setup)
    ensures HandleAll(IDLE, StreamLines(stream), setup) == HandleAll(IDLE, StreamLines(stream + "\n"), setup)
  {
    var raws, tail := RawLines(stream), RawTail(stream);
    var lines := StripAll(raws);
    SplitJoins(stream);
    TerminatedAppend(raws, [tail]);
    TerminatedCons(tail, []);
    Assoc(Terminated(raws), tail, "\n");
    assert Terminated(raws + [tail]) + "" == stream + "\n";
    SplitUnique(raws + [tail], "");
    StripSnoc(raws, tail);
    assert StreamLines(stream + "\n") == lines + [StripCr(tail)];
    HandleSnoc(IDLE, lines, StripCr(tail), setup);
    TrimStripped(tail);
    TrimTrims(tail);
    HandleTrimmed(HandleAll(IDLE, lines, setup), StripCr(tail), Trim(tail), setup);
    if Trim(tail) == "" {
      assert StreamLines(stream) == lines;
    } else {
      HandleSnoc(IDLE, lines, Trim(tail), setup);
    }
  }
}
