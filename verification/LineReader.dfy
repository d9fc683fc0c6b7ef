/**
 The streaming line reader: chunks of text in, lines of at most `max` characters
 out, longer lines discarded without ever being buffered whole.
 */
module LineReader {
  import opened Lines

  /** What the reader keeps between chunks, what it has yielded and the oversize lengths it has reported. */
  datatype Reader = Reader(buffer: string, discarding: bool, lines: seq<string>, reports: seq<nat>)

  const START := Reader("", false, [], [])

  // ---- Chunk by chunk ----

  /** Take one complete line off the buffer. */
  function TakeLine(r: Reader, max: nat): (r': Reader)
    requires IndexOfNewline(r.buffer) >= 0
    ensures |r'.buffer| < |r.buffer|
  {
    var k := IndexOfNewline(r.buffer);
    var line := StripCr(r.buffer[..k]);
    var rest := r.buffer[k + 1..];
    if !r.discarding && |line| <= max && |line| > 0 then Reader(rest, false, r.lines + [line], r.reports)
    else if |line| > max then Reader(rest, false, r.lines, r.reports + [|line|])
    else Reader(rest, false, r.lines, r.reports)
  }

  function Drain(r: Reader, max: nat): (r': Reader)
    ensures NoNewline(r'.buffer)
    decreases |r.buffer|
  {
    if IndexOfNewline(r.buffer) < 0 then r else Drain(TakeLine(r, max), max)
  }

  function Feed(r: Reader, chunk: string, max: nat): (r': Reader)
    ensures |r'.buffer| <= max && NoNewline(r'.buffer)
  {
    var d := Drain(r.(buffer := r.buffer + chunk), max);
    if |d.buffer| > max then Reader("", true, d.lines, d.reports + [|d.buffer|]) else d
  }

  function FeedAll(r: Reader, chunks: seq<string>, max: nat): Reader
    decreases |chunks|
  {
    if chunks == [] then r else FeedAll(Feed(r, chunks[0], max), chunks[1..], max)
  }

  function Finish(r: Reader, max: nat): Reader {
    var leftover := Trim(StripCr(r.buffer));
    if !r.discarding && 0 < |leftover| <= max then r.(lines := r.lines + [leftover])
    else if |leftover| > max then r.(reports := r.reports + [|leftover|])
    else r
  }

  function ReadAll(chunks: seq<string>, max: nat): Reader {
    Finish(FeedAll(START, chunks, max), max)
  }

  lemma {:induction false} FeedAllSnoc(r: Reader, chunks: seq<string>, chunk: string, max: nat)
    ensures FeedAll(r, chunks + [chunk], max) == Feed(FeedAll(r, chunks, max), chunk, max)
    decreases |chunks|
  {
    if chunks == [] {
      assert chunks + [chunk] == [chunk];
    } else {
      assert (chunks + [chunk])[1..] == chunks[1..] + [chunk];
      FeedAllSnoc(Feed(r, chunks[0], max), chunks[1..], chunk, max);
    }
  }

  lemma {:induction false} FeedAllStep(chunks: seq<string>, c: nat, max: nat)
    requires c < |chunks|
    ensures FeedAll(START, chunks[..c + 1], max) == Feed(FeedAll(START, chunks[..c], max), chunks[c], max)
  {
    assert chunks[..c + 1] == chunks[..c] + [chunks[c]];
    FeedAllSnoc(START, chunks[..c], chunks[c], max);
  }

  lemma {:induction false} FeedAllWhole(chunks: seq<string>, max: nat)
    ensures FeedAll(START, chunks[..|chunks|], max) == FeedAll(START, chunks, max)
  {
    assert chunks[..|chunks|] == chunks;
  }

  /** The reader itself: nested loops over chunks and newlines. */
  method ReadLines(chunks: seq<string>, max: nat) returns (lines: seq<string>, reports: seq<nat>)
    ensures lines == ReadAll(chunks, max).lines && reports == ReadAll(chunks, max).reports
  {
    var buffer, discarding := "", false;
    lines, reports := [], [];
    for c := 0 to |chunks|
      invariant Reader(buffer, discarding, lines, reports) == FeedAll(START, chunks[..c], max)
    {
      ghost var before := Reader(buffer, discarding, lines, reports);
      FeedAllStep(chunks, c, max);
      buffer := buffer + chunks[c];
      ghost var full := before.(buffer := buffer);
      var newlineAt := IndexOfNewline(buffer);
      while newlineAt >= 0
        invariant newlineAt == IndexOfNewline(buffer)
        invariant Drain(Reader(buffer, discarding, lines, reports), max) == Drain(full, max)
        decreases |buffer|
      {
        var line := StripCr(buffer[..newlineAt]);
        buffer := buffer[newlineAt + 1..];
        if !discarding && |line| <= max && |line| > 0 {
          lines := lines + [line];
        } else if |line| > max {
          reports := reports + [|line|];
        }
        discarding := false;
        newlineAt := IndexOfNewline(buffer);
      }
      assert Reader(buffer, discarding, lines, reports) == Drain(full, max);
      if |buffer| > max {
        reports := reports + [|buffer|];
        buffer := "";
        discarding := true;
      }
    }
    FeedAllWhole(chunks, max);
    assert Reader(buffer, discarding, lines, reports) == FeedAll(START, chunks, max);
    var leftover := Trim(StripCr(buffer));
    if !discarding && |leftover| > 0 && |leftover| <= max {
      lines := lines + [leftover];
    } else if |leftover| > max {
      reports := reports + [|leftover|];
    }
  }

  // ---- What the whole stream says ----

  predicate Fits(raw: string, max: nat) {
    0 < |StripCr(raw)| <= max
  }

  /** One character over the limit, and that character is a carriage return. */
  predicate OnTheEdge(raw: string, max: nat) {
    0 < max && |raw| == max + 1 && raw[max] == '\r'
  }

  /** The lines that fit, in order. */
  function Fitting(raws: seq<string>, max: nat): seq<string> {
    if raws == [] then []
    else (if Fits(raws[0], max) then [StripCr(raws[0])] else []) + Fitting(raws[1..], max)
  }

  function Oversize(raws: seq<string>, max: nat): nat {
    if raws == [] then 0
    else (if |StripCr(raws[0])| > max then 1 else 0) + Oversize(raws[1..], max)
  }

  /** A chunk ends after this many characters of the stream. */
  ghost predicate CutAt(chunks: seq<string>, at: nat) {
    exists c :: 0 <= c <= |chunks| && |Concat(chunks[..c])| == at
  }

  /** This line after the others is on the edge, and a chunk ends between its carriage return and its newline. */
  ghost predicate CutOnEdge(before: seq<string>, raw: string, chunks: seq<string>, max: nat) {
    OnTheEdge(raw, max) && CutAt(chunks, |Terminated(before)| + |raw|)
  }

  /** The lines that fit, in order, without those on the edge that are cut there. */
  ghost function Surviving(raws: seq<string>, chunks: seq<string>, max: nat): seq<string>
    decreases |raws|
  {
    if raws == [] then []
    else
      var last, init := raws[|raws| - 1], raws[..|raws| - 1];
      Surviving(init, chunks, max) +
      if Fits(last, max) && !CutOnEdge(init, last, chunks, max) then [StripCr(last)] else []
  }

  /** The unterminated tail is trimmed and yielded at the end when it is short enough. */
  function TailLine(tail: string, max: nat): seq<string> {
    if |tail| <= max && Trim(StripCr(tail)) != "" then [Trim(StripCr(tail))] else []
  }

  // ---- What is reported ----

  /**
   Of a line that starts after `start` characters, with `n` of its characters in: where the part
   still kept begins. All that is kept is dropped where a chunk ends with more than the limit.
   */
  ghost function KeptFrom(chunks: seq<string>, start: nat, n: nat, max: nat): (k: nat)
    ensures k <= n
  {
    if n == 0 then 0
    else
      var k := KeptFrom(chunks, start, n - 1, max);
      if CutAt(chunks, start + n) && n - k > max then n else k
  }

  /** The lengths dropped that way. */
  ghost function Drops(chunks: seq<string>, start: nat, n: nat, max: nat): seq<nat> {
    if n == 0 then []
    else
      var k := KeptFrom(chunks, start, n - 1, max);
      Drops(chunks, start, n - 1, max) + if CutAt(chunks, start + n) && n - k > max then [n - k] else []
  }

  /** A line reports each part dropped, and what is left of it at its newline if that is too long as well. */
  ghost function LineReports(raw: string, chunks: seq<string>, start: nat, max: nat): seq<nat> {
    var rest := StripCr(raw[KeptFrom(chunks, start, |raw|, max)..]);
    Drops(chunks, start, |raw|, max) + if |rest| > max then [|rest|] else []
  }

  ghost function Reported(raws: seq<string>, chunks: seq<string>, max: nat): seq<nat>
    decreases |raws|
  {
    if raws == [] then []
    else
      var last, init := raws[|raws| - 1], raws[..|raws| - 1];
      Reported(init, chunks, max) + LineReports(last, chunks, |Terminated(init)|, max)
  }

  /** Nothing more is dropped of a line while no chunk ends past the limit. */
  lemma {:induction false} Settles(chunks: seq<string>, start: nat, k: nat, n: nat, max: nat)
    requires k <= n && KeptFrom(chunks, start, k, max) == k && |Concat(chunks)| <= start + k + max
    ensures KeptFrom(chunks, start, n, max) == k && Drops(chunks, start, n, max) == Drops(chunks, start, k, max)
  {
    if k < n {
      Settles(chunks, start, k, n - 1, max);
      if CutAt(chunks, start + n) { CutsInStream(chunks, start + n); }
    }
  }

  lemma {:induction false} SameCuts(chunks: seq<string>, more: seq<string>, start: nat, n: nat, max: nat)
    requires forall at: nat :: at <= start + n ==> (CutAt(chunks, at) <==> CutAt(more, at))
    ensures KeptFrom(more, start, n, max) == KeptFrom(chunks, start, n, max)
    ensures Drops(more, start, n, max) == Drops(chunks, start, n, max)
  {
    if n > 0 {
      assert CutAt(chunks, start + n) <==> CutAt(more, start + n);
      SameCuts(chunks, more, start, n - 1, max);
    }
  }

  /** A chunk that ends later drops nothing of the first `n` characters. */
  lemma {:induction false} LaterDrop(chunks: seq<string>, chunk: string, start: nat, n: nat, max: nat)
    requires start + n < |Concat(chunks + [chunk])| || CutAt(chunks, start + n)
    ensures KeptFrom(chunks + [chunk], start, n, max) == KeptFrom(chunks, start, n, max)
    ensures Drops(chunks + [chunk], start, n, max) == Drops(chunks, start, n, max)
  {
    ConcatSnoc(chunks, chunk);
    if CutAt(chunks, start + n) { CutsInStream(chunks, start + n); }
    forall at: nat | at <= start + n ensures CutAt(chunks, at) <==> CutAt(chunks + [chunk], at) {
      CutSnoc(chunks, chunk, at);
    }
    SameCuts(chunks, chunks + [chunk], start, n, max);
  }

  lemma {:induction false} LaterReports(raws: seq<string>, chunks: seq<string>, chunk: string, max: nat)
    requires |Terminated(raws)| <= |Concat(chunks + [chunk])|
    ensures Reported(raws, chunks + [chunk], max) == Reported(raws, chunks, max)
    decreases |raws|
  {
    if raws != [] {
      var init, last := raws[..|raws| - 1], raws[|raws| - 1];
      assert raws == init + [last];
      TerminatedSnoc(init, last);
      LaterReports(init, chunks, chunk, max);
      LaterDrop(chunks, chunk, |Terminated(init)|, |last|, max);
    }
  }

  lemma {:induction false} ReportedSnoc(raws: seq<string>, raw: string, chunks: seq<string>, max: nat)
    ensures Reported(raws + [raw], chunks, max) ==
            Reported(raws, chunks, max) + LineReports(raw, chunks, |Terminated(raws)|, max)
  {
    assert (raws + [raw])[..|raws|] == raws;
  }

  ghost predicate AllOver(reports: seq<nat>, max: nat) {
    forall i :: 0 <= i < |reports| ==> reports[i] > max
  }

  lemma {:induction false} DropsOver(chunks: seq<string>, start: nat, n: nat, max: nat)
    ensures AllOver(Drops(chunks, start, n, max), max)
    ensures KeptFrom(chunks, start, n, max) > 0 ==> Drops(chunks, start, n, max) != []
  {
    if n > 0 { DropsOver(chunks, start, n - 1, max); }
  }

  /** Every report is of more than the limit, and every oversize line is reported at least once. */
  lemma {:induction false} ReportsCover(raws: seq<string>, chunks: seq<string>, max: nat)
    ensures AllOver(Reported(raws, chunks, max), max) && |Reported(raws, chunks, max)| >= Oversize(raws, max)
    decreases |raws|
  {
    if raws != [] {
      var init, last := raws[..|raws| - 1], raws[|raws| - 1];
      assert raws == init + [last];
      ReportsCover(init, chunks, max);
      OversizeAppend(init, last, max);
      DropsOver(chunks, |Terminated(init)|, |last|, max);
      assert last[0..] == last;
    }
  }

  // ---- The invariant between chunks ----

  /**
   The text so far is the terminated lines, then a dropped fragment longer than the
   limit (when discarding), then the buffer.
   */
  ghost predicate Covers(r: Reader, raws: seq<string>, dropped: string, stream: string, max: nat) {
    && stream == Terminated(raws) + (dropped + r.buffer)
    && AllNoNewline(raws) && NoNewline(dropped)
    && if r.discarding then |dropped| > max else dropped == ""
  }

  /**
   The lines are those surviving the chunks taken in whole, which end at most `max` characters
   past what is dropped of the unfinished line; a dropped fragment ends where one of them does.
   */
  ghost predicate Accounts(r: Reader, raws: seq<string>, dropped: string, chunks: seq<string>, max: nat) {
    && r.lines == Surviving(raws, chunks, max)
    && |Concat(chunks)| <= |Terminated(raws)| + |dropped| + max
    && (r.discarding ==> CutAt(chunks, |Terminated(raws)| + |dropped|))
    && KeptFrom(chunks, |Terminated(raws)|, |dropped|, max) == |dropped|
    && r.reports == Reported(raws, chunks, max) + Drops(chunks, |Terminated(raws)|, |dropped|, max)
  }

  ghost predicate Tracks(r: Reader, raws: seq<string>, dropped: string, chunks: seq<string>, stream: string, max: nat) {
    Covers(r, raws, dropped, stream, max) && Accounts(r, raws, dropped, chunks, max)
  }

  // ---- Cuts ----

  lemma {:induction false} ConcatSnoc(chunks: seq<string>, chunk: string)
    ensures Concat(chunks + [chunk]) == Concat(chunks) + chunk
  {
    if chunks == [] {
      assert chunks + [chunk] == [chunk] && [chunk][1..] == [];
      assert chunk + "" == "" + chunk;
    } else {
      ConcatSnoc(chunks[1..], chunk);
      assert (chunks + [chunk])[1..] == chunks[1..] + [chunk];
      Assoc(chunks[0], Concat(chunks[1..]), chunk);
    }
  }

  lemma {:induction false} CutSnoc(chunks: seq<string>, chunk: string, at: nat)
    ensures CutAt(chunks + [chunk], at) <==> CutAt(chunks, at) || at == |Concat(chunks + [chunk])|
  {
    var more := chunks + [chunk];
    assert more[..|more|] == more;
    forall c | 0 <= c <= |chunks| ensures more[..c] == chunks[..c] {
    }
    if CutAt(chunks, at) {
      var c :| 0 <= c <= |chunks| && |Concat(chunks[..c])| == at;
      assert |Concat(more[..c])| == at;
    }
  }

  /** No chunk ends past the end of the stream. */
  lemma {:induction false} CutsInStream(chunks: seq<string>, at: nat)
    requires CutAt(chunks, at)
    ensures at <= |Concat(chunks)|
    decreases |chunks|
  {
    if chunks != [] {
      var init, last := chunks[..|chunks| - 1], chunks[|chunks| - 1];
      assert chunks == init + [last];
      ConcatSnoc(init, last);
      CutSnoc(init, last, at);
      if CutAt(init, at) { CutsInStream(init, at); }
    }
  }

  lemma {:induction false} TerminatedSnoc(raws: seq<string>, raw: string)
    ensures |Terminated(raws + [raw])| == |Terminated(raws)| + |raw| + 1
  {
    TerminatedAppend(raws, [raw]);
    TerminatedCons(raw, []);
  }

  lemma {:induction false} SurvivingSnoc(raws: seq<string>, raw: string, chunks: seq<string>, max: nat)
    ensures Surviving(raws + [raw], chunks, max) ==
            Surviving(raws, chunks, max) +
            if Fits(raw, max) && !CutOnEdge(raws, raw, chunks, max) then [StripCr(raw)] else []
  {
    assert (raws + [raw])[..|raws|] == raws;
  }

  /** A chunk that ends after the lines cuts none of them. */
  lemma {:induction false} LaterCut(raws: seq<string>, chunks: seq<string>, chunk: string, max: nat)
    requires |Terminated(raws)| <= |Concat(chunks + [chunk])|
    ensures Surviving(raws, chunks + [chunk], max) == Surviving(raws, chunks, max)
    decreases |raws|
  {
    if raws != [] {
      var init, last := raws[..|raws| - 1], raws[|raws| - 1];
      assert raws == init + [last];
      TerminatedSnoc(init, last);
      LaterCut(init, chunks, chunk, max);
      CutSnoc(chunks, chunk, |Terminated(init)| + |last|);
    }
  }

  lemma {:induction false} OversizeAppend(raws: seq<string>, raw: string, max: nat)
    ensures Oversize(raws + [raw], max) == Oversize(raws, max) + if |StripCr(raw)| > max then 1 else 0
  {
    if raws == [] {
      assert raws + [raw] == [raw] && [raw][1..] == [];
    } else {
      OversizeAppend(raws[1..], raw, max);
      assert (raws + [raw])[1..] == raws[1..] + [raw];
    }
  }

  lemma {:induction false} LongLineFitsOnlyOnTheEdge(raw: string, max: nat)
    requires |raw| > max && Fits(raw, max)
    ensures OnTheEdge(raw, max)
  {
  }

  lemma {:induction false} TakeLineCovers(r: Reader, raws: seq<string>, dropped: string, stream: string, max: nat)
    requires Covers(r, raws, dropped, stream, max) && IndexOfNewline(r.buffer) >= 0
    ensures Covers(TakeLine(r, max), raws + [dropped + r.buffer[..IndexOfNewline(r.buffer)]], "", stream, max)
  {
    TakeLineText(raws, dropped, r.buffer, IndexOfNewline(r.buffer));
  }

  lemma {:induction false} TakeLineText(raws: seq<string>, dropped: string, buffer: string, k: nat)
    requires k < |buffer| && buffer[k] == '\n'
    ensures Terminated(raws) + (dropped + buffer) == Terminated(raws + [dropped + buffer[..k]]) + ("" + buffer[k + 1..])
  {
    var raw, rest := dropped + buffer[..k], buffer[k + 1..];
    TerminatedAppend(raws, [raw]);
    TerminatedCons(raw, []);
    CutAtNewline(dropped, buffer, k);
    Assoc(Terminated(raws), raw + "\n", rest);
    assert "" + rest == rest;
  }

  lemma {:induction false} TakeLineAccounts(r: Reader, raws: seq<string>, dropped: string, chunks: seq<string>,
                                            max: nat)
    requires Accounts(r, raws, dropped, chunks, max) && IndexOfNewline(r.buffer) >= 0
    requires if r.discarding then |dropped| > max else dropped == ""
    ensures Accounts(TakeLine(r, max), raws + [dropped + r.buffer[..IndexOfNewline(r.buffer)]], "", chunks, max)
  {
    var part := r.buffer[..IndexOfNewline(r.buffer)];
    var raw := dropped + part;
    TerminatedSnoc(raws, raw);
    SurvivingSnoc(raws, raw, chunks, max);
    TakeLineReports(r, raws, dropped, chunks, max);
    if r.discarding {
      DroppedLine(raws, dropped, part, chunks, max);
    } else {
      assert raw == part;
      WholeLine(raws, raw, chunks, max);
    }
  }

  lemma {:induction false} TakeLineReports(r: Reader, raws: seq<string>, dropped: string, chunks: seq<string>,
                                           max: nat)
    requires Accounts(r, raws, dropped, chunks, max) && IndexOfNewline(r.buffer) >= 0
    ensures var raw := dropped + r.buffer[..IndexOfNewline(r.buffer)];
            TakeLine(r, max).reports == Reported(raws + [raw], chunks, max)
  {
    var part := r.buffer[..IndexOfNewline(r.buffer)];
    var raw := dropped + part;
    ReportedSnoc(raws, raw, chunks, max);
    Settles(chunks, |Terminated(raws)|, |dropped|, |raw|, max);
    assert raw[|dropped|..] == part;
    var done, drops := Reported(raws, chunks, max), Drops(chunks, |Terminated(raws)|, |dropped|, max);
    var rest := StripCr(part);
    Assoc(done, drops, if |rest| > max then [|rest|] else []);
    assert (done + drops) + [] == done + drops;
  }

  /** A line of which a fragment was dropped fits only on the edge, cut there. */
  lemma {:induction false} DroppedLine(raws: seq<string>, dropped: string, part: string, chunks: seq<string>, max: nat)
    requires |dropped| > max && CutAt(chunks, |Terminated(raws)| + |dropped|)
    ensures Fits(dropped + part, max) ==> CutOnEdge(raws, dropped + part, chunks, max)
  {
    if Fits(dropped + part, max) {
      LongLineFitsOnlyOnTheEdge(dropped + part, max);
      assert part == "";
    }
  }

  /** A line that no chunk reaches past the limit is not cut on the edge. */
  lemma {:induction false} WholeLine(raws: seq<string>, raw: string, chunks: seq<string>, max: nat)
    requires |Concat(chunks)| <= |Terminated(raws)| + max
    ensures !CutOnEdge(raws, raw, chunks, max)
  {
    if CutOnEdge(raws, raw, chunks, max) { CutsInStream(chunks, |Terminated(raws)| + |raw|); }
  }

  lemma {:induction false} DrainTracks(r: Reader, raws: seq<string>, dropped: string, chunks: seq<string>,
                                       stream: string, max: nat)
    returns (raws': seq<string>, dropped': string)
    requires Tracks(r, raws, dropped, chunks, stream, max)
    ensures Tracks(Drain(r, max), raws', dropped', chunks, stream, max)
    decreases |r.buffer|
  {
    if IndexOfNewline(r.buffer) < 0 {
      raws', dropped' := raws, dropped;
    } else {
      TakeLineCovers(r, raws, dropped, stream, max);
      TakeLineAccounts(r, raws, dropped, chunks, max);
      raws', dropped' :=
        DrainTracks(TakeLine(r, max), raws + [dropped + r.buffer[..IndexOfNewline(r.buffer)]], "", chunks, stream, max);
    }
  }

  lemma {:induction false} DiscardCovers(d: Reader, raws: seq<string>, dropped: string, stream: string, max: nat)
    requires Covers(d, raws, dropped, stream, max) && NoNewline(d.buffer) && |d.buffer| > max
    ensures Covers(Reader("", true, d.lines, d.reports + [|d.buffer|]), raws, dropped + d.buffer, stream, max)
  {
    assert (dropped + d.buffer) + "" == dropped + d.buffer;
  }

  /** Once the whole chunk is taken in, it counts among those that cut. */
  lemma {:induction false} ChunkTaken(d: Reader, raws: seq<string>, dropped: string, chunks: seq<string>, chunk: string,
                                      max: nat)
    requires Tracks(d, raws, dropped, chunks, Concat(chunks + [chunk]), max) && |d.buffer| <= max
    ensures Tracks(d, raws, dropped, chunks + [chunk], Concat(chunks + [chunk]), max)
  {
    LaterCut(raws, chunks, chunk, max);
    LaterReports(raws, chunks, chunk, max);
    CutSnoc(chunks, chunk, |Terminated(raws)| + |dropped|);
    if dropped != "" { LaterDrop(chunks, chunk, |Terminated(raws)|, |dropped|, max); }
  }

  lemma {:induction false} ChunkDropped(d: Reader, raws: seq<string>, dropped: string, chunks: seq<string>,
                                        chunk: string, max: nat)
    requires Tracks(d, raws, dropped, chunks, Concat(chunks + [chunk]), max) && NoNewline(d.buffer) && |d.buffer| > max
    ensures Tracks(Reader("", true, d.lines, d.reports + [|d.buffer|]), raws, dropped + d.buffer, chunks + [chunk],
                   Concat(chunks + [chunk]), max)
  {
    DiscardCovers(d, raws, dropped, Concat(chunks + [chunk]), max);
    DiscardAccounts(d, raws, dropped, chunks, chunk, max);
  }

  lemma {:induction false} DiscardAccounts(d: Reader, raws: seq<string>, dropped: string, chunks: seq<string>,
                                           chunk: string, max: nat)
    requires Accounts(d, raws, dropped, chunks, max) && |d.buffer| > max
    requires |Concat(chunks + [chunk])| == |Terminated(raws)| + |dropped| + |d.buffer|
    ensures Accounts(Reader("", true, d.lines, d.reports + [|d.buffer|]), raws, dropped + d.buffer, chunks + [chunk],
                     max)
  {
    LaterCut(raws, chunks, chunk, max);
    LaterReports(raws, chunks, chunk, max);
    CutSnoc(chunks, chunk, |Terminated(raws)| + |dropped + d.buffer|);
    DropHere(raws, dropped, d.buffer, chunks, chunk, max);
    Assoc(Reported(raws, chunks, max), Drops(chunks, |Terminated(raws)|, |dropped|, max), [|d.buffer|]);
  }

  lemma {:induction false} DropHere(raws: seq<string>, dropped: string, buffer: string, chunks: seq<string>,
                                    chunk: string, max: nat)
    requires |Concat(chunks + [chunk])| == |Terminated(raws)| + |dropped| + |buffer| && |buffer| > max
    requires |Concat(chunks)| <= |Terminated(raws)| + |dropped| + max
    requires KeptFrom(chunks, |Terminated(raws)|, |dropped|, max) == |dropped|
    ensures var start, n := |Terminated(raws)|, |dropped| + |buffer|;
            && KeptFrom(chunks + [chunk], start, n, max) == n
            && Drops(chunks + [chunk], start, n, max) == Drops(chunks, start, |dropped|, max) + [|buffer|]
  {
    var start, n := |Terminated(raws)|, |dropped| + |buffer|;
    CutSnoc(chunks, chunk, start + n);
    LaterDrop(chunks, chunk, start, n - 1, max);
    Settles(chunks, start, |dropped|, n - 1, max);
  }

  lemma {:induction false} FeedTracks(r: Reader, raws: seq<string>, dropped: string, chunks: seq<string>, chunk: string,
                                      max: nat)
    returns (raws': seq<string>, dropped': string)
    requires Tracks(r, raws, dropped, chunks, Concat(chunks), max)
    ensures Tracks(Feed(r, chunk, max), raws', dropped', chunks + [chunk], Concat(chunks + [chunk]), max)
  {
    var full := r.(buffer := r.buffer + chunk);
    Assoc(dropped, r.buffer, chunk);
    Assoc(Terminated(raws), dropped + r.buffer, chunk);
    ConcatSnoc(chunks, chunk);
    raws', dropped' := DrainTracks(full, raws, dropped, chunks, Concat(chunks + [chunk]), max);
    var d := Drain(full, max);
    if |d.buffer| > max {
      ChunkDropped(d, raws', dropped', chunks, chunk, max);
      dropped' := dropped' + d.buffer;
    } else {
      ChunkTaken(d, raws', dropped', chunks, chunk, max);
    }
  }

  lemma {:induction false} FeedAllTracks(chunks: seq<string>, max: nat)
    returns (raws: seq<string>, dropped: string)
    ensures Tracks(FeedAll(START, chunks, max), raws, dropped, chunks, Concat(chunks), max)
    ensures |FeedAll(START, chunks, max).buffer| <= max && NoNewline(FeedAll(START, chunks, max).buffer)
    decreases |chunks|
  {
    if chunks == [] {
      raws, dropped := [], "";
    } else {
      var init, last := chunks[..|chunks| - 1], chunks[|chunks| - 1];
      assert chunks == init + [last];
      raws, dropped := FeedAllTracks(init, max);
      FeedAllSnoc(START, init, last, max);
      raws, dropped := FeedTracks(FeedAll(START, init, max), raws, dropped, init, last, max);
    }
  }

  // ---- Main results ----

  /** The memory kept between chunks never exceeds the limit. */
  lemma {:induction false} BufferBounded(chunks: seq<string>, max: nat)
    ensures |FeedAll(START, chunks, max).buffer| <= max
  {
    var raws, dropped := FeedAllTracks(chunks, max);
  }

  /**
   What is read, for every chunking: the lines of the stream that fit, in order, without those
   on the edge cut between carriage return and newline, then the trimmed tail. And what is
   reported: the parts dropped and rests of lines too long, each of more than the limit; every
   oversize line is reported, an unterminated one included.
   */
  lemma {:induction false} ReadExactly(chunks: seq<string>, max: nat)
    ensures ReadAll(chunks, max).lines ==
            Surviving(RawLines(Concat(chunks)), chunks, max) + TailLine(RawTail(Concat(chunks)), max)
    ensures var raws, tail := RawLines(Concat(chunks)), RawTail(Concat(chunks));
            ReadAll(chunks, max).reports ==
            Reported(raws, chunks, max) + Drops(chunks, |Terminated(raws)|, |tail|, max)
    ensures AllOver(ReadAll(chunks, max).reports, max)
    ensures |ReadAll(chunks, max).reports| >=
            Oversize(RawLines(Concat(chunks)), max) + if |RawTail(Concat(chunks))| > max then 1 else 0
  {
    var raws, dropped := FeedAllTracks(chunks, max);
    var r := FeedAll(START, chunks, max);
    var tail := dropped + r.buffer;
    SplitUnique(raws, tail);
    FinishYields(r, dropped, max);
    Settles(chunks, |Terminated(raws)|, |dropped|, |tail|, max);
    ReportsCover(raws, chunks, max);
    DropsOver(chunks, |Terminated(raws)|, |tail|, max);
  }

  lemma {:induction false} FinishYields(r: Reader, dropped: string, max: nat)
    requires |r.buffer| <= max && if r.discarding then |dropped| > max else dropped == ""
    ensures Finish(r, max).lines == r.lines + TailLine(dropped + r.buffer, max)
    ensures Finish(r, max).reports == r.reports
  {
    assert "" + r.buffer == r.buffer;
  }

  /** Where no line on the edge is cut there, every line that fits survives. */
  lemma {:induction false} UncutSurvive(raws: seq<string>, chunks: seq<string>, max: nat)
    requires forall i :: 0 <= i < |raws| ==> !CutOnEdge(raws[..i], raws[i], chunks, max)
    ensures Surviving(raws, chunks, max) == Fitting(raws, max)
    decreases |raws|
  {
    if raws != [] {
      var init := raws[..|raws| - 1];
      forall i | 0 <= i < |init| ensures !CutOnEdge(init[..i], init[i], chunks, max) {
        assert init[..i] == raws[..i];
      }
      UncutSurvive(init, chunks, max);
      FittingSnoc(raws, max);
    }
  }

  lemma {:induction false} FittingSnoc(raws: seq<string>, max: nat)
    requires raws != []
    ensures var last, init := raws[|raws| - 1], raws[..|raws| - 1];
            Fitting(raws, max) == if Fits(last, max) then Fitting(init, max) + [StripCr(last)] else Fitting(init, max)
  {
    var last, init := raws[|raws| - 1], raws[..|raws| - 1];
    assert raws == init + [last];
    FittingAppend(init, [last], max);
    FittingOne(last, max);
  }

  lemma {:induction false} FittingOne(raw: string, max: nat)
    ensures Fitting([raw], max) == if Fits(raw, max) then [StripCr(raw)] else []
  {
    assert [raw][1..] == [];
  }

  lemma {:induction false} FittingAppend(raws: seq<string>, more: seq<string>, max: nat)
    ensures Fitting(raws + more, max) == Fitting(raws, max) + Fitting(more, max)
  {
    if raws == [] {
      assert raws + more == more;
    } else {
      FittingAppend(raws[1..], more, max);
      assert (raws + more)[1..] == raws[1..] + more;
      Assoc(if Fits(raws[0], max) then [StripCr(raws[0])] else [], Fitting(raws[1..], max), Fitting(more, max));
    }
  }

  /** The lines one would expect from the stream alone. */
  function SplitAndFilter(stream: string, max: nat): seq<string> {
    Fitting(RawLines(stream), max) + TailLine(RawTail(stream), max)
  }

  ghost predicate EdgeFree(stream: string, max: nat) {
    forall i :: 0 <= i < |RawLines(stream)| ==> !OnTheEdge(RawLines(stream)[i], max)
  }

  lemma {:induction false} EdgeFreeRefinesSplit(chunks: seq<string>, max: nat)
    requires EdgeFree(Concat(chunks), max)
    ensures ReadAll(chunks, max).lines == SplitAndFilter(Concat(chunks), max)
  {
    ReadExactly(chunks, max);
    UncutSurvive(RawLines(Concat(chunks)), chunks, max);
  }

  lemma {:induction false} LineEndsInside(raws: seq<string>, i: nat)
    requires i < |raws|
    ensures |Terminated(raws[..i])| + |raws[i]| < |Terminated(raws)|
  {
    TerminatedSnoc(raws[..i], raws[i]);
    assert raws[..i] + [raws[i]] == raws[..i + 1] && raws[..i + 1] + raws[i + 1..] == raws;
    TerminatedAppend(raws[..i + 1], raws[i + 1..]);
  }

  /** One chunk ends nowhere but at the ends of the stream. */
  lemma {:induction false} CutOfOne(stream: string, at: nat)
    requires CutAt([stream], at)
    ensures at == 0 || at == |stream|
  {
    var c :| 0 <= c <= |[stream]| && |Concat([stream][..c])| == at;
    if c == 0 { assert [stream][..0] == []; } else { assert [stream][..1] == [stream]; }
    ConcatOne(stream);
  }

  /** The lengths of the lines that are too long, in order. */
  function Lengths(raws: seq<string>, max: nat): seq<nat> {
    if raws == [] then []
    else
      var last := |StripCr(raws[|raws| - 1])|;
      Lengths(raws[..|raws| - 1], max) + if last > max then [last] else []
  }

  lemma {:induction false} NothingDropped(chunks: seq<string>, start: nat, n: nat, max: nat)
    requires forall at: nat :: start < at <= start + n ==> !CutAt(chunks, at)
    ensures KeptFrom(chunks, start, n, max) == 0 && Drops(chunks, start, n, max) == []
  {
    if n > 0 { NothingDropped(chunks, start, n - 1, max); }
  }

  lemma {:induction false} OnePieceReports(raws: seq<string>, stream: string, max: nat)
    requires |Terminated(raws)| <= |stream|
    ensures Reported(raws, [stream], max) == Lengths(raws, max)
    decreases |raws|
  {
    if raws != [] {
      var init, last := raws[..|raws| - 1], raws[|raws| - 1];
      assert raws == init + [last];
      TerminatedSnoc(init, last);
      OnePieceReports(init, stream, max);
      var start := |Terminated(init)|;
      forall at: nat | start < at <= start + |last| ensures !CutAt([stream], at) {
        if CutAt([stream], at) { CutOfOne(stream, at); }
      }
      NothingDropped([stream], start, |last|, max);
      assert last[0..] == last;
    }
  }

  lemma {:induction false} OnePieceTail(stream: string, start: nat, n: nat, max: nat)
    requires start + n == |stream|
    ensures Drops([stream], start, n, max) == if n > max then [n] else []
  {
    if n > 0 {
      forall at: nat | start < at <= start + (n - 1) ensures !CutAt([stream], at) {
        if CutAt([stream], at) { CutOfOne(stream, at); }
      }
      NothingDropped([stream], start, n - 1, max);
      ConcatOne(stream);
      assert [stream][..1] == [stream];
      assert CutAt([stream], start + n);
    }
  }

  /**
   In one piece, every line that fits comes out, also those on the edge, and every other one that
   is too long is reported once, with its length.
   */
  lemma {:induction false} OnePiece(stream: string, max: nat)
    ensures ReadAll([stream], max).lines == SplitAndFilter(stream, max)
    ensures ReadAll([stream], max).reports ==
            Lengths(RawLines(stream), max) + if |RawTail(stream)| > max then [|RawTail(stream)|] else []
  {
    var raws := RawLines(stream);
    ConcatOne(stream);
    SplitJoins(stream);
    OnePieceReports(raws, stream, max);
    OnePieceTail(stream, |Terminated(raws)|, |RawTail(stream)|, max);
    ReadExactly([stream], max);
    forall i | 0 <= i < |raws| ensures !CutOnEdge(raws[..i], raws[i], [stream], max) {
      LineEndsInside(raws, i);
      if CutOnEdge(raws[..i], raws[i], [stream], max) { CutOfOne(stream, |Terminated(raws[..i])| + |raws[i]|); }
    }
    UncutSurvive(raws, [stream], max);
  }

  /** A line on the edge is lost exactly when a chunk ends between its carriage return and its newline. */
  lemma {:induction false} WholeIffUncut(chunks: seq<string>, max: nat)
    ensures var raws := RawLines(Concat(chunks));
            ReadAll(chunks, max).lines == SplitAndFilter(Concat(chunks), max) <==>
            forall i :: 0 <= i < |raws| ==> !CutOnEdge(raws[..i], raws[i], chunks, max)
  {
    var raws := RawLines(Concat(chunks));
    ReadExactly(chunks, max);
    if i :| 0 <= i < |raws| && CutOnEdge(raws[..i], raws[i], chunks, max) {
      OneLost(raws, chunks, i, max);
    } else {
      UncutSurvive(raws, chunks, max);
    }
  }

  lemma {:induction false} LastCounts(raws: seq<string>, chunks: seq<string>, max: nat)
    requires raws != []
    ensures var init := raws[..|raws| - 1];
            var lost := (|Fitting(raws, max)| - |Surviving(raws, chunks, max)|)
                        - (|Fitting(init, max)| - |Surviving(init, chunks, max)|);
            if CutOnEdge(init, raws[|raws| - 1], chunks, max) then lost == 1 else lost == 0
  {
    FittingSnoc(raws, max);
  }

  lemma {:induction false} OneLost(raws: seq<string>, chunks: seq<string>, i: nat, max: nat)
    requires i < |raws| && CutOnEdge(raws[..i], raws[i], chunks, max)
    ensures |Surviving(raws, chunks, max)| < |Fitting(raws, max)|
    decreases |raws|
  {
    var init := raws[..|raws| - 1];
    LastCounts(raws, chunks, max);
    if i < |init| {
      assert init[..i] == raws[..i];
      OneLost(init, chunks, i, max);
    } else {
      NoMoreThanFit(init, chunks, max);
    }
  }

  lemma {:induction false} NoMoreThanFit(raws: seq<string>, chunks: seq<string>, max: nat)
    ensures |Surviving(raws, chunks, max)| <= |Fitting(raws, max)|
    decreases |raws|
  {
    if raws != [] {
      LastCounts(raws, chunks, max);
      NoMoreThanFit(raws[..|raws| - 1], chunks, max);
    }
  }

  ghost predicate ChunkingIrrelevant(stream: string, max: nat) {
    forall cs: seq<string>, ds: seq<string> :: Concat(cs) == stream && Concat(ds) == stream ==>
      ReadAll(cs, max).lines == ReadAll(ds, max).lines
  }

  /** The lines read depend only on the stream exactly when no line sits on the edge. */
  lemma {:induction false} ChunkingIrrelevantIffEdgeFree(stream: string, max: nat)
    ensures ChunkingIrrelevant(stream, max) <==> EdgeFree(stream, max)
  {
    if EdgeFree(stream, max) {
      forall cs: seq<string>, ds: seq<string> | Concat(cs) == stream && Concat(ds) == stream
        ensures ReadAll(cs, max).lines == ReadAll(ds, max).lines
      {
        EdgeFreeAgrees(stream, cs, ds, max);
      }
    } else {
      var cut := EdgeDisagrees(stream, max);
      ConcatOne(stream);
      assert ReadAll([stream], max).lines != ReadAll(cut, max).lines;
    }
  }

  lemma {:induction false} EdgeFreeAgrees(stream: string, cs: seq<string>, ds: seq<string>, max: nat)
    requires EdgeFree(stream, max) && Concat(cs) == stream && Concat(ds) == stream
    ensures ReadAll(cs, max).lines == ReadAll(ds, max).lines
  {
    EdgeFreeRefinesSplit(cs, max);
    EdgeFreeRefinesSplit(ds, max);
  }

  lemma {:induction false} EdgeDisagrees(stream: string, max: nat) returns (cut: seq<string>)
    requires !EdgeFree(stream, max)
    ensures Concat(cut) == stream && ReadAll(cut, max).lines != ReadAll([stream], max).lines
  {
    var raws := RawLines(stream);
    var i :| 0 <= i < |raws| && OnTheEdge(raws[i], max);
    var at := |Terminated(raws[..i])| + |raws[i]|;
    SplitJoins(stream);
    LineEndsInside(raws, i);
    cut := [stream[..at], stream[at..]];
    TwoPieces(stream, at);
    assert CutOnEdge(raws[..i], raws[i], cut, max);
    WholeIffUncut(cut, max);
    OnePiece(stream, max);
  }

  lemma {:induction false} ConcatOne(stream: string)
    ensures Concat([stream]) == stream
  {
    assert [stream][1..] == [];
    assert stream + "" == stream;
  }

  lemma {:induction false} TwoPieces(stream: string, at: nat)
    requires at <= |stream|
    ensures Concat([stream[..at], stream[at..]]) == stream && CutAt([stream[..at], stream[at..]], at)
  {
    var cut := [stream[..at], stream[at..]];
    ConcatOne(stream[..at]);
    ConcatOne(stream[at..]);
    assert cut[1..] == [stream[at..]] && cut[..1] == [stream[..at]];
    assert |Concat(cut[..1])| == at;
    assert stream[..at] + stream[at..] == stream;
  }
}
