/** End to end: messages encoded, mixed with noise, cut anywhere, read and decoded. */
module Framing {
  import opened Json
  import opened Lines
  import opened LineReader
  import opened Protocol

  /** What a device writes: a protocol frame, ended with or without a carriage return, or a line of something else. */
  datatype Item = Frame(m: Message, cr: bool) | Noise(text: string)

  function Raw(item: Item): string {
    match item
    case Frame(m, cr) => Text(m) + if cr then "\r" else ""
    case Noise(text) => text
  }

  function Raws(items: seq<Item>): (raws: seq<string>)
    ensures |raws| == |items| && forall i :: 0 <= i < |items| ==> raws[i] == Raw(items[i])
  {
    seq(|items|, i requires 0 <= i < |items| => Raw(items[i]))
  }

  /**
   Text that is no JSON object by its first or last character alone: blank lines, boot logs,
   and frames that lost their beginning or their end.
   */
  predicate NoObject(text: string) {
    var t := Trim(text);
    t == "" || t[0] != '{' || t[|t| - 1] != '}'
  }

  ghost predicate ValidItem(item: Item) {
    match item
    case Frame(m, _) => ValidPayload(m)
    case Noise(text) => NoNewline(text) && NoObject(text)
  }

  lemma {:induction false} NoObjectNoMessage(text: string)
    requires NoObject(text)
    ensures !DecodeLine(text).Decoded? && !DecodeLine(StripCr(text)).Decoded?
    ensures !DecodeLine(Trim(StripCr(text))).Decoded?
  {
    var t := Trim(text);
    TrimStripped(text);
    TrimStripped(StripCr(text));
    TrimTrims(text);
    TrimStripped(t);
    if t != "" && t[0] == '{' && Parse(t).Some? { ObjectTextCloses(t); }
  }

  /** The messages the read loop acts on. */
  function Received(lines: seq<string>): seq<Message> {
    if lines == [] then []
    else
      var d := DecodeLine(lines[|lines| - 1]);
      Received(lines[..|lines| - 1]) + if d.Decoded? then [d.value] else []
  }

  predicate Deliverable(m: Message, max: nat) {
    HasId(m) && |Text(m)| <= max
  }

  /**
   This item after the others is a message with an id that fits on a line, and if it is exactly
   as long as a line may be, no chunk ends between its carriage return and its newline.
   */
  ghost predicate Arrives(before: seq<Item>, item: Item, chunks: seq<string>, max: nat) {
    item.Frame? && Deliverable(item.m, max) && !CutOnEdge(Raws(before), Raw(item), chunks, max)
  }

  ghost function Delivered(items: seq<Item>, chunks: seq<string>, max: nat): seq<Message>
    decreases |items|
  {
    if items == [] then []
    else
      var init, last := items[..|items| - 1], items[|items| - 1];
      Delivered(init, chunks, max) + if Arrives(init, last, chunks, max) then [last.m] else []
  }

  lemma {:induction false} ReceivedAppend(lines: seq<string>, line: string)
    ensures Received(lines + [line]) ==
            Received(lines) + if DecodeLine(line).Decoded? then [DecodeLine(line).value] else []
  {
    assert (lines + [line])[..|lines|] == lines;
  }

  lemma {:induction false} LineOfFrame(m: Message, cr: bool, max: nat)
    requires ValidPayload(m)
    ensures var raw := Raw(Frame(m, cr));
            && NoNewline(raw) && StripCr(raw) == Text(m)
            && (Fits(raw, max) <==> |Text(m)| <= max)
            && (OnTheEdge(raw, max) <==> cr && |Text(m)| == max)
            && (DecodeLine(StripCr(raw)).Decoded? <==> HasId(m))
            && (HasId(m) ==> DecodeLine(StripCr(raw)) == Decoded(m))
  {
    TextShape(m);
    DecodeText(m);
    StringifyNoNewline(Obj(Members(m)));
    assert Text(m) + "" == Text(m);
    assert cr ==> Raw(Frame(m, cr))[..|Text(m)|] == Text(m);
  }

  lemma {:induction false} LineOfItem(item: Item, max: nat)
    requires ValidItem(item)
    ensures NoNewline(Raw(item))
    ensures DecodeLine(StripCr(Raw(item))).Decoded? <==> item.Frame? && HasId(item.m)
    ensures item.Frame? && HasId(item.m) ==> DecodeLine(StripCr(Raw(item))) == Decoded(item.m)
    ensures item.Frame? ==> (Fits(Raw(item), max) <==> |Text(item.m)| <= max)
  {
    if item.Frame? {
      LineOfFrame(item.m, item.cr, max);
    } else {
      NoObjectNoMessage(item.text);
    }
  }

  ghost predicate AllValid(items: seq<Item>) {
    items == [] || (AllValid(items[..|items| - 1]) && ValidItem(items[|items| - 1]))
  }

  lemma {:induction false} AllValidOf(items: seq<Item>)
    requires forall i :: 0 <= i < |items| ==> ValidItem(items[i])
    ensures AllValid(items)
  {
    if items != [] {
      var init := items[..|items| - 1];
      assert forall i :: 0 <= i < |init| ==> init[i] == items[i];
      AllValidOf(init);
    }
  }

  lemma {:induction false} RawsSnoc(items: seq<Item>)
    requires items != []
    ensures var n := |items| - 1;
            Raws(items) == Raws(items[..n]) + [Raw(items[n])]
  {
  }

  /** Decoding the surviving lines gives the messages that arrive. */
  lemma {:induction false} SurvivingReceived(items: seq<Item>, chunks: seq<string>, max: nat)
    requires AllValid(items)
    ensures Received(Surviving(Raws(items), chunks, max)) == Delivered(items, chunks, max)
    decreases |items|
  {
    if items != [] {
      SurvivingReceived(items[..|items| - 1], chunks, max);
      LastReceived(items, chunks, max);
    }
  }

  lemma {:induction false} LastReceived(items: seq<Item>, chunks: seq<string>, max: nat)
    requires items != [] && ValidItem(items[|items| - 1])
    ensures var init, last := items[..|items| - 1], items[|items| - 1];
            Received(Surviving(Raws(items), chunks, max)) ==
            Received(Surviving(Raws(init), chunks, max)) + if Arrives(init, last, chunks, max) then [last.m] else []
  {
    var init, last := items[..|items| - 1], items[|items| - 1];
    RawsSnoc(items);
    SurvivingSnoc(Raws(init), Raw(last), chunks, max);
    ItemReceived(init, last, chunks, max);
  }

  lemma {:induction false} ItemReceived(before: seq<Item>, item: Item, chunks: seq<string>, max: nat)
    requires ValidItem(item)
    ensures var lines := Surviving(Raws(before), chunks, max);
            var survives := Fits(Raw(item), max) && !CutOnEdge(Raws(before), Raw(item), chunks, max);
            Received(lines + if survives then [StripCr(Raw(item))] else []) ==
            Received(lines) + if Arrives(before, item, chunks, max) then [item.m] else []
  {
    var lines := Surviving(Raws(before), chunks, max);
    LineOfItem(item, max);
    ReceivedAppend(lines, StripCr(Raw(item)));
    assert lines + [] == lines;
  }

  /**
   Cut the stream anywhere: what the read loop receives is exactly the messages that carry an
   id and fit on a line, in order, less those as long as a line may be that are cut between
   their carriage return and their newline; noise and longer frames leave no trace.
   */
  lemma {:induction false} EndToEnd(items: seq<Item>, tail: string, chunks: seq<string>, max: nat)
    requires forall i :: 0 <= i < |items| ==> ValidItem(items[i])
    requires NoNewline(tail) && NoObject(tail)
    requires Concat(chunks) == Terminated(Raws(items)) + tail
    ensures Received(ReadAll(chunks, max).lines) == Delivered(items, chunks, max)
  {
    var raws := Raws(items);
    forall i | 0 <= i < |raws| ensures NoNewline(raws[i]) {
      LineOfItem(items[i], max);
    }
    SplitUnique(raws, tail);
    ReadExactly(chunks, max);
    AllValidOf(items);
    SurvivingReceived(items, chunks, max);
    TailReceived(Surviving(raws, chunks, max), tail, max);
  }

  /** A message shorter than a line may be, or ended without a carriage return, arrives however the stream is cut. */
  lemma {:induction false} ShortFrameArrives(before: seq<Item>, item: Item, chunks: seq<string>, max: nat)
    requires ValidItem(item) && item.Frame? && Deliverable(item.m, max) && (item.cr ==> |Text(item.m)| < max)
    ensures Arrives(before, item, chunks, max)
  {
    LineOfFrame(item.m, item.cr, max);
  }

  lemma {:induction false} TailReceived(out: seq<string>, tail: string, max: nat)
    requires NoObject(tail)
    ensures Received(out + TailLine(tail, max)) == Received(out)
  {
    if TailLine(tail, max) == [] {
      assert out + [] == out;
    } else {
      NoObjectNoMessage(tail);
      ReceivedAppend(out, Trim(StripCr(tail)));
    }
  }

  /** The messages as a device prints them, each ended the same way. */
  function Printed(ms: seq<Message>, cr: bool): (items: seq<Item>)
    ensures |items| == |ms| && forall i :: 0 <= i < |ms| ==> items[i] == Frame(ms[i], cr)
  {
    seq(|ms|, i requires 0 <= i < |ms| => Frame(ms[i], cr))
  }

  ghost predicate AllShort(ms: seq<Message>, cr: bool, max: nat) {
    forall i :: 0 <= i < |ms| ==> ValidPayload(ms[i]) && Deliverable(ms[i], max) && (cr ==> |Text(ms[i])| < max)
  }

  lemma {:induction false} PrintedSnoc(ms: seq<Message>, cr: bool)
    requires ms != []
    ensures var n := |ms| - 1;
            Printed(ms, cr) == Printed(ms[..n], cr) + [Frame(ms[n], cr)] && ms == ms[..n] + [ms[n]]
  {
  }

  lemma {:induction false} DeliveredSnoc(items: seq<Item>, item: Item, chunks: seq<string>, max: nat)
    ensures Delivered(items + [item], chunks, max) ==
            Delivered(items, chunks, max) + if Arrives(items, item, chunks, max) then [item.m] else []
  {
    assert (items + [item])[..|items|] == items;
  }

  lemma {:induction false} PrintedDelivered(ms: seq<Message>, cr: bool, chunks: seq<string>, max: nat)
    requires AllShort(ms, cr, max)
    ensures Delivered(Printed(ms, cr), chunks, max) == ms
    decreases |ms|
  {
    if ms != [] {
      var n := |ms| - 1;
      PrintedDelivered(ms[..n], cr, chunks, max);
      PrintedSnoc(ms, cr);
      DeliveredSnoc(Printed(ms[..n], cr), Frame(ms[n], cr), chunks, max);
      ShortFrameArrives(Printed(ms[..n], cr), Frame(ms[n], cr), chunks, max);
    }
  }

  /**
   Messages that fit, or are shorter than the limit when lines end in carriage return and
   newline, all arrive in order however the stream is cut.
   */
  lemma {:induction false} PrintedArrive(ms: seq<Message>, cr: bool, chunks: seq<string>, max: nat)
    requires AllShort(ms, cr, max) && Concat(chunks) == Terminated(Raws(Printed(ms, cr)))
    ensures Received(ReadAll(chunks, max).lines) == ms
  {
    assert Concat(chunks) + "" == Concat(chunks);
    EndToEnd(Printed(ms, cr), "", chunks, max);
    PrintedDelivered(ms, cr, chunks, max);
  }

  function EncodeAll(ms: seq<Message>): string {
    if ms == [] then "" else Encode(ms[0]) + EncodeAll(ms[1..])
  }

  lemma {:induction false} EncodeAllTerminated(ms: seq<Message>, items: seq<Item>)
    requires |items| == |ms| && forall i :: 0 <= i < |ms| ==> items[i] == Frame(ms[i], false)
    ensures EncodeAll(ms) == Terminated(Raws(items))
  {
    if ms != [] {
      EncodeAllTerminated(ms[1..], items[1..]);
      assert Raws(items)[1..] == Raws(items[1..]);
    }
  }

  /** The whole stack is the identity on sendable messages. */
  lemma {:induction false} RoundTrip(ms: seq<Message>, chunks: seq<string>)
    requires forall i :: 0 <= i < |ms| ==> ValidPayload(ms[i]) && Deliverable(ms[i], MAX_LINE)
    requires Concat(chunks) == EncodeAll(ms)
    ensures Received(ReadAll(chunks, MAX_LINE).lines) == ms
  {
    EncodeAllTerminated(ms, Printed(ms, false));
    PrintedArrive(ms, false, chunks, MAX_LINE);
  }
}
