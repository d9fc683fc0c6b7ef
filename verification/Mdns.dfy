/**
 The DNS name codec of the mDNS plugin (sections 4.1.2 and 4.1.4 of RFC 1035, used as in
 RFC 6762): query encoding, label and pointer walking, and the answer cursor.
 */
module Mdns {
  import opened Prelude

  type Octet = n: nat | n < 256
  type Label = seq<Octet>

  const HEADER := 12
  const MAX_STEPS := 64
  const JUMP_BITS: nat := 0xC0
  const DOT: Octet := 46

  // ---- Names and labels ----

  /** The labels of a dotted name, empty ones included. */
  function SplitDots(name: seq<Octet>): (labels: seq<Label>)
    ensures labels != []
  {
    if name == [] then [[]]
    else
      var rest := SplitDots(name[1..]);
      if name[0] == DOT then [[]] + rest else [[name[0]] + rest[0]] + rest[1..]
  }

  function NonEmpty(labels: seq<Label>): (r: seq<Label>)
    ensures forall i :: 0 <= i < |r| ==> r[i] != []
  {
    if labels == [] then []
    else if labels[0] == [] then NonEmpty(labels[1..])
    else [labels[0]] + NonEmpty(labels[1..])
  }

  function LabelsOf(name: seq<Octet>): seq<Label> {
    NonEmpty(SplitDots(name))
  }

  function JoinDots(labels: seq<Label>): seq<Octet> {
    if labels == [] then []
    else if |labels| == 1 then labels[0]
    else labels[0] + [DOT] + JoinDots(labels[1..])
  }

  // ---- Encoding ----

  /** A length octet keeps the length modulo 256. */
  function EncodeLabels(labels: seq<Label>): seq<Octet> {
    if labels == [] then [] else [|labels[0]| % 256] + labels[0] + EncodeLabels(labels[1..])
  }

  function EncodeName(labels: seq<Label>): seq<Octet> {
    EncodeLabels(labels) + [0]
  }

  function QueryHeader(): seq<Octet> {
    [0x12, 0x34, 0, 0, 0, 1, 0, 0, 0, 0, 0, 0]
  }

  function EncodeQuery(name: seq<Octet>): seq<Octet> {
    QueryHeader() + EncodeName(LabelsOf(name)) + [0, 12, 0, 1]
  }

  lemma {:induction false} Regroup(a: seq<Octet>, b: seq<Octet>, c: seq<Octet>)
    ensures a + (b + c) == (a + b) + c
  {
  }

  lemma {:induction false} EncodeLabelsSnoc(labels: seq<Label>, one: Label)
    ensures EncodeLabels(labels + [one]) == EncodeLabels(labels) + ([|one| % 256] + one)
  {
    if labels == [] {
      assert labels + [one] == [one] && [one][1..] == [];
    } else {
      EncodeLabelsSnoc(labels[1..], one);
      assert (labels + [one])[1..] == labels[1..] + [one];
      Regroup([|labels[0]| % 256] + labels[0], EncodeLabels(labels[1..]), [|one| % 256] + one);
    }
  }

  lemma {:induction false} EncodeLabelsStep(labels: seq<Label>, i: nat)
    requires i < |labels|
    ensures EncodeLabels(labels[..i + 1]) == EncodeLabels(labels[..i]) + ([|labels[i]| % 256] + labels[i])
  {
    EncodeLabelsSnoc(labels[..i], labels[i]);
    assert labels[..i + 1] == labels[..i] + [labels[i]];
  }

  lemma {:induction false} EncodeLabelsWhole(labels: seq<Label>)
    ensures EncodeLabels(labels[..|labels|]) == EncodeLabels(labels)
  {
    assert labels[..|labels|] == labels;
  }

  method BuildQuery(name: seq<Octet>) returns (packet: seq<Octet>)
    ensures packet == EncodeQuery(name)
  {
    var labels := LabelsOf(name);
    var parts: seq<Octet> := [];
    for i := 0 to |labels|
      invariant parts == EncodeLabels(labels[..i])
    {
      EncodeLabelsStep(labels, i);
      parts := parts + ([|labels[i]| % 256] + labels[i]);
    }
    EncodeLabelsWhole(labels);
    var question := parts + [0];
    packet := QueryHeader() + question + [0, 12, 0, 1];
  }

  // ---- Walking a packet ----

  predicate IsPointer(length: Octet) {
    length >= JUMP_BITS
  }

  /** The offset a pointer names; a missing second octet reads as zero. */
  function Target(packet: seq<Octet>, cursor: nat): nat
    requires cursor < |packet| && IsPointer(packet[cursor])
  {
    (packet[cursor] - JUMP_BITS) * 256 + if cursor + 1 < |packet| then packet[cursor + 1] else 0
  }

  /** The bytes of a label, cut short by the end of the packet. */
  function Slice(packet: seq<Octet>, start: nat, length: nat): Label {
    if start >= |packet| then []
    else if start + length <= |packet| then packet[start..start + length]
    else packet[start..]
  }

  datatype Read = Read(labels: seq<Label>, offset: nat)

  /** The reader from here on: where it stands, where the record continues, whether it has jumped. */
  function ReadFrom(packet: seq<Octet>, cursor: nat, offset: nat, jumped: bool, steps: nat, labels: seq<Label>): Read
    requires steps <= MAX_STEPS + 1
    decreases MAX_STEPS + 1 - steps, |packet|
  {
    if cursor >= |packet| || steps > MAX_STEPS then Read(labels, offset)
    else if packet[cursor] == 0 then Read(labels, if jumped then offset else cursor + 1)
    else if IsPointer(packet[cursor]) then
      ReadFrom(packet, Target(packet, cursor), if jumped then offset else cursor + 2, true, steps + 1, labels)
    else
      var length := packet[cursor];
      ReadFrom(packet, cursor + 1 + length, offset, jumped, steps + 1, labels + [Slice(packet, cursor + 1, length)])
  }

  function ReadName(packet: seq<Octet>, offset: nat): Read {
    ReadFrom(packet, offset, offset, false, 0, [])
  }

  /** Where skipping leaves the cursor, and whether it succeeds. */
  function SkipFrom(packet: seq<Octet>, offset: nat, steps: nat): (nat, bool)
    requires steps <= MAX_STEPS + 1
    decreases MAX_STEPS + 1 - steps, |packet|
  {
    if offset >= |packet| || steps > MAX_STEPS then (offset, false)
    else if packet[offset] == 0 then (offset + 1, true)
    else if IsPointer(packet[offset]) then (offset + 2, true)
    else SkipFrom(packet, offset + 1 + packet[offset], steps + 1)
  }

  datatype Answer = Answer(name: seq<Octet>, kind: nat)

  function Word(packet: seq<Octet>, at: nat): nat
    requires at + 1 < |packet|
  {
    var high: nat := packet[at];
    high * 256 + packet[at + 1]
  }

  /** One answer record; None when a fixed field lies past the end, where the buffer read throws. */
  function ReadAnswer(packet: seq<Octet>, offset: nat): Option<(Answer, nat)> {
    var r := ReadName(packet, offset);
    if r.offset + 10 > |packet| then None
    else Some((Answer(JoinDots(r.labels), Word(packet, r.offset)), r.offset + 10 + Word(packet, r.offset + 8)))
  }

  function ReadAnswers(packet: seq<Octet>, offset: nat, count: nat): Option<seq<Answer>>
    decreases count
  {
    if count == 0 || offset + 10 > |packet| then Some([])
    else
      var (a, next) :- ReadAnswer(packet, offset);
      var rest :- ReadAnswers(packet, next, count - 1);
      Some([a] + rest)
  }

  function SkipQuestions(packet: seq<Octet>, offset: nat, count: nat): (nat, bool)
    decreases count
  {
    if count == 0 then (offset, true)
    else
      var (next, ok) := SkipFrom(packet, offset, 0);
      if !ok then (next, false) else SkipQuestions(packet, next + 4, count - 1)
  }

  function ParseResponse(packet: seq<Octet>): Option<seq<Answer>> {
    if |packet| < HEADER then Some([])
    else
      var (offset, ok) := SkipQuestions(packet, HEADER, Word(packet, 4));
      if !ok then Some([]) else ReadAnswers(packet, offset, Word(packet, 6))
  }

  /** The parser: three loops over one shared offset. */
  class Parser {
    const packet: seq<Octet>
    var offset: nat

    constructor (packet: seq<Octet>)
      ensures this.packet == packet && offset == HEADER
    {
      this.packet := packet;
      offset := HEADER;
    }

    method SkipName() returns (ok: bool)
      modifies this`offset
      ensures (offset, ok) == SkipFrom(packet, old(offset), 0)
    {
      var guard := 0;
      while true
        invariant guard <= MAX_STEPS + 1
        invariant SkipFrom(packet, offset, guard) == SkipFrom(packet, old(offset), 0)
        decreases MAX_STEPS + 1 - guard
      {
        if offset >= |packet| || guard > MAX_STEPS { return false; }
        var length := packet[offset];
        if length == 0 {
          offset := offset + 1;
          return true;
        }
        if IsPointer(length) {
          offset := offset + 2;
          return true;
        }
        offset := offset + 1 + length;
        guard := guard + 1;
      }
    }

    method ReadNameHere() returns (labels: seq<Label>)
      modifies this`offset
      ensures Read(labels, offset) == ReadName(packet, old(offset))
    {
      labels := [];
      var cursor: nat, jumped, guard := offset, false, 0;
      while true
        invariant guard <= MAX_STEPS + 1
        invariant ReadFrom(packet, cursor, offset, jumped, guard, labels) == ReadName(packet, old(offset))
        decreases MAX_STEPS + 1 - guard
      {
        if cursor >= |packet| || guard > MAX_STEPS { break; }
        var length := packet[cursor];
        if length == 0 {
          if !jumped { offset := cursor + 1; }
          break;
        }
        if IsPointer(length) {
          var pointer: nat := Target(packet, cursor);
          if !jumped { offset := cursor + 2; }
          cursor := pointer;
          jumped := true;
          guard := guard + 1;
          continue;
        }
        labels := labels + [Slice(packet, cursor + 1, length)];
        cursor := cursor + 1 + length;
        guard := guard + 1;
      }
    }

    method SkipAllQuestions(count: nat) returns (ok: bool)
      modifies this`offset
      ensures (offset, ok) == SkipQuestions(packet, old(offset), count)
    {
      var left := count;
      while left > 0
        invariant SkipQuestions(packet, offset, left) == SkipQuestions(packet, old(offset), count)
      {
        ghost var next, found := SkipQuestionsStep(packet, offset, left);
        ok := SkipName();
        assert offset == next && ok == found;
        if !ok { return; }
        offset := offset + 4;
        left := left - 1;
      }
      ok := true;
    }

    /** None stands for the range error that a read past the end throws. */
    method ReadAnswerHere() returns (a: Option<Answer>)
      modifies this`offset
      ensures a.None? <==> ReadAnswer(packet, old(offset)).None?
      ensures a.Some? ==> ReadAnswer(packet, old(offset)).value == (a.value, offset)
    {
      var labels := ReadNameHere();
      if offset + 10 > |packet| { return None; }
      var kind := Word(packet, offset);
      offset := offset + 10;
      var dataLength := Word(packet, offset - 2);
      offset := offset + dataLength;
      a := Some(Answer(JoinDots(labels), kind));
    }

    method ReadAllAnswers(count: nat) returns (result: Option<seq<Answer>>)
      modifies this`offset
      ensures result == ReadAnswers(packet, old(offset), count)
    {
      var answers: seq<Answer> := [];
      var i := 0;
      PrependNothing(ReadAnswers(packet, offset, count));
      while i < count && offset + 10 <= |packet|
        invariant i <= count
        invariant Prepend(answers, ReadAnswers(packet, offset, count - i)) == ReadAnswers(packet, old(offset), count)
      {
        ghost var here := offset;
        var a := ReadAnswerHere();
        if a.None? { return None; }
        ReadAnswersStep(packet, here, count - i);
        PrependSnoc(answers, a.value, ReadAnswers(packet, offset, count - i - 1));
        answers := answers + [a.value];
        i := i + 1;
      }
      assert answers + [] == answers;
      result := Some(answers);
    }

    method Parse() returns (result: Option<seq<Answer>>)
      requires offset == HEADER
      modifies this`offset
      ensures result == ParseResponse(packet)
    {
      if |packet| < HEADER { return Some([]); }
      var questionCount, answerCount := Word(packet, 4), Word(packet, 6);
      var ok := SkipAllQuestions(questionCount);
      if !ok { return Some([]); }
      result := ReadAllAnswers(answerCount);
    }
  }

  lemma {:induction false} SkipQuestionsStep(packet: seq<Octet>, offset: nat, count: nat) returns (next: nat, ok: bool)
    requires count > 0
    ensures SkipFrom(packet, offset, 0) == (next, ok)
    ensures SkipQuestions(packet, offset, count) ==
              if ok then SkipQuestions(packet, next + 4, count - 1) else (next, false)
  {
    var r := SkipFrom(packet, offset, 0);
    next, ok := r.0, r.1;
  }

  lemma {:induction false} ReadAnswersStep(packet: seq<Octet>, offset: nat, count: nat)
    requires count > 0 && offset + 10 <= |packet| && ReadAnswer(packet, offset).Some?
    ensures var (a, next) := ReadAnswer(packet, offset).value;
      ReadAnswers(packet, offset, count) ==
      var rest := ReadAnswers(packet, next, count - 1);
      if rest.None? then None else Some([a] + rest.value)
  {
  }

  lemma {:induction false} PrependNothing(rest: Option<seq<Answer>>)
    ensures Prepend([], rest) == rest
  {
    if rest.Some? { assert [] + rest.value == rest.value; }
  }

  ghost function Prepend(answers: seq<Answer>, rest: Option<seq<Answer>>): Option<seq<Answer>> {
    if rest.None? then None else Some(answers + rest.value)
  }

  lemma {:induction false} PrependSnoc(answers: seq<Answer>, a: Answer, rest: Option<seq<Answer>>)
    ensures Prepend(answers, if rest.None? then None else Some([a] + rest.value)) == Prepend(answers + [a], rest)
  {
    if rest.Some? { assert answers + ([a] + rest.value) == (answers + [a]) + rest.value; }
  }

  // ---- The reference: what name stands at a position ----

  /** The name at `pos` is `labels`, following `hops` labels and pointers, each whole. */
  ghost predicate NameAt(packet: seq<Octet>, pos: nat, labels: seq<Label>, hops: nat)
    decreases hops
  {
    && pos < |packet|
    && if packet[pos] == 0 then hops == 0 && labels == []
       else if IsPointer(packet[pos]) then
         hops > 0 && pos + 1 < |packet| && NameAt(packet, Target(packet, pos), labels, hops - 1)
       else
         var next := pos + 1 + packet[pos];
         && hops > 0 && labels != [] && next <= |packet| && labels[0] == packet[pos + 1..next]
         && NameAt(packet, next, labels[1..], hops - 1)
  }

  /** Where the in-place part of the name ends. */
  ghost function EndAt(packet: seq<Octet>, pos: nat, labels: seq<Label>, hops: nat): nat
    requires NameAt(packet, pos, labels, hops)
    decreases hops
  {
    if packet[pos] == 0 then pos + 1
    else if IsPointer(packet[pos]) then pos + 2
    else EndAt(packet, pos + 1 + packet[pos], labels[1..], hops - 1)
  }

  lemma {:induction false} ReadFromName(packet: seq<Octet>, pos: nat, labels: seq<Label>, hops: nat,
                                        offset: nat, jumped: bool, steps: nat, read: seq<Label>)
    requires NameAt(packet, pos, labels, hops) && steps + hops <= MAX_STEPS
    ensures ReadFrom(packet, pos, offset, jumped, steps, read) ==
            Read(read + labels, if jumped then offset else EndAt(packet, pos, labels, hops))
    decreases hops
  {
    if packet[pos] == 0 {
      assert read + labels == read;
    } else if IsPointer(packet[pos]) {
      ReadFromName(packet, Target(packet, pos), labels, hops - 1,
                   if jumped then offset else pos + 2, true, steps + 1, read);
    } else {
      var next := pos + 1 + packet[pos];
      ReadFromName(packet, next, labels[1..], hops - 1, offset, jumped, steps + 1, read + [labels[0]]);
      assert (read + [labels[0]]) + labels[1..] == read + labels;
    }
  }

  /** Reading finds the name that stands there, directly or through pointers, and lands after it. */
  lemma {:induction false} ReadNameFinds(packet: seq<Octet>, pos: nat, labels: seq<Label>, hops: nat)
    requires NameAt(packet, pos, labels, hops) && hops <= MAX_STEPS
    ensures ReadName(packet, pos) == Read(labels, EndAt(packet, pos, labels, hops))
  {
    ReadFromName(packet, pos, labels, hops, pos, false, 0, []);
    assert [] + labels == labels;
  }

  /** Skipping lands where reading does. */
  lemma {:induction false} SkipFindsEnd(packet: seq<Octet>, pos: nat, labels: seq<Label>, hops: nat)
    requires NameAt(packet, pos, labels, hops) && hops <= MAX_STEPS
    ensures SkipFrom(packet, pos, 0) == (EndAt(packet, pos, labels, hops), true)
  {
    SkipFromName(packet, pos, labels, hops, 0);
  }

  lemma {:induction false} SkipFromName(packet: seq<Octet>, pos: nat, labels: seq<Label>, hops: nat, steps: nat)
    requires NameAt(packet, pos, labels, hops) && steps + hops <= MAX_STEPS
    ensures SkipFrom(packet, pos, steps) == (EndAt(packet, pos, labels, hops), true)
    decreases hops
  {
    if packet[pos] != 0 && !IsPointer(packet[pos]) {
      SkipFromName(packet, pos + 1 + packet[pos], labels[1..], hops - 1, steps + 1);
    }
  }

  // ---- Encoded names ----

  /** A label whose length octet is read back as that length. */
  predicate Readable(one: Label) {
    0 < |one| < JUMP_BITS
  }

  ghost predicate AllReadable(labels: seq<Label>) {
    forall i :: 0 <= i < |labels| ==> Readable(labels[i])
  }

  lemma {:induction false} EncodedNameAt(before: seq<Octet>, labels: seq<Label>, after: seq<Octet>)
    requires AllReadable(labels)
    ensures NameAt(before + EncodeName(labels) + after, |before|, labels, |labels|)
    ensures EndAt(before + EncodeName(labels) + after, |before|, labels, |labels|) == |before + EncodeName(labels)|
    decreases |labels|
  {
    var packet := before + EncodeName(labels) + after;
    if labels == [] {
      assert packet[|before|] == 0;
    } else {
      EncodedNameAt(before + ([|labels[0]|] + labels[0]), labels[1..], after);
      EncodedShift(before, labels, after);
      EncodedHead(before, labels, after);
      NameHead(packet, |before|, labels, |labels| - 1);
    }
  }

  lemma {:induction false} EncodedHead(before: seq<Octet>, labels: seq<Label>, after: seq<Octet>)
    requires labels != [] && Readable(labels[0])
    ensures var packet := before + EncodeName(labels) + after;
            && |before| + 1 + |labels[0]| <= |packet|
            && packet[|before|] == |labels[0]|
            && packet[|before| + 1..|before| + 1 + |labels[0]|] == labels[0]
  {
    EncodedShift(before, labels, after);
    Regroup(before + ([|labels[0]|] + labels[0]), EncodeName(labels[1..]), after);
    OneLabelStands(before, |labels[0]|, labels[0], EncodeName(labels[1..]) + after);
  }

  /** A label in front of a name is a longer name with the same end. */
  lemma {:induction false} NameHead(packet: seq<Octet>, at: nat, labels: seq<Label>, hops: nat)
    requires labels != [] && Readable(labels[0]) && at + 1 + |labels[0]| <= |packet| && packet[at] == |labels[0]|
    requires packet[at + 1..at + 1 + |labels[0]|] == labels[0]
    requires NameAt(packet, at + 1 + |labels[0]|, labels[1..], hops)
    ensures NameAt(packet, at, labels, hops + 1)
    ensures EndAt(packet, at, labels, hops + 1) == EndAt(packet, at + 1 + |labels[0]|, labels[1..], hops)
  {
  }

  lemma {:induction false} EncodedShift(before: seq<Octet>, labels: seq<Label>, after: seq<Octet>)
    requires labels != [] && Readable(labels[0])
    ensures before + EncodeName(labels) + after ==
            (before + ([|labels[0]|] + labels[0])) + EncodeName(labels[1..]) + after
  {
    assert EncodeName(labels) == ([|labels[0]|] + labels[0]) + EncodeName(labels[1..]);
  }

  /** Reading yields only labels that a length octet can announce, and at most 65 of them. */
  lemma {:induction false} ReadFromBounds(packet: seq<Octet>, cursor: nat, offset: nat, jumped: bool, steps: nat,
                                          labels: seq<Label>)
    requires steps <= MAX_STEPS + 1 && |labels| <= steps
    requires forall i :: 0 <= i < |labels| ==> |labels[i]| < JUMP_BITS
    requires !jumped ==> offset <= cursor
    ensures var r := ReadFrom(packet, cursor, offset, jumped, steps, labels);
      && |r.labels| <= MAX_STEPS + 1
      && (forall i :: 0 <= i < |r.labels| ==> |r.labels[i]| < JUMP_BITS)
      && r.offset >= offset
    decreases MAX_STEPS + 1 - steps
  {
    if cursor < |packet| && steps <= MAX_STEPS && packet[cursor] != 0 {
      if IsPointer(packet[cursor]) {
        ReadFromBounds(packet, Target(packet, cursor), if jumped then offset else cursor + 2, true, steps + 1, labels);
      } else {
        var length := packet[cursor];
        ReadFromBounds(packet, cursor + 1 + length, offset, jumped, steps + 1,
                       labels + [Slice(packet, cursor + 1, length)]);
      }
    }
  }

  /** A plain name one label too long is still read, but the step limit hides its end. */
  lemma {:induction false} ReadFromPlain(before: seq<Octet>, labels: seq<Label>, after: seq<Octet>, offset: nat,
                                         steps: nat, read: seq<Label>)
    requires AllReadable(labels) && steps + |labels| == MAX_STEPS + 1
    ensures ReadFrom(before + EncodeName(labels) + after, |before|, offset, false, steps, read) ==
              Read(read + labels, offset)
    ensures !SkipFrom(before + EncodeName(labels) + after, |before|, steps).1
    decreases |labels|
  {
    var packet := before + EncodeName(labels) + after;
    if labels == [] {
      assert read + labels == read;
    } else {
      var n := |labels[0]|;
      EncodedShift(before, labels, after);
      ReadFromPlain(before + ([n] + labels[0]), labels[1..], after, offset, steps + 1, read + [labels[0]]);
      assert packet[|before|] == n;
      assert packet[|before| + 1..|before| + 1 + n] == labels[0];
      assert (read + [labels[0]]) + labels[1..] == read + labels;
    }
  }

  /**
   The labels of an encoded name come back exactly when there are at most 65 of them and
   none is 192 bytes or longer: neither limit is checked when encoding.
   */
  lemma {:induction false} EncodedLabelsComeBack(before: seq<Octet>, labels: seq<Label>, after: seq<Octet>)
    requires forall i :: 0 <= i < |labels| ==> labels[i] != []
    ensures ReadName(before + EncodeName(labels) + after, |before|).labels == labels <==>
            |labels| <= MAX_STEPS + 1 && forall i :: 0 <= i < |labels| ==> |labels[i]| < JUMP_BITS
  {
    var packet := before + EncodeName(labels) + after;
    ReadFromBounds(packet, |before|, |before|, false, 0, []);
    if forall i :: 0 <= i < |labels| ==> |labels[i]| < JUMP_BITS {
      if |labels| <= MAX_STEPS {
        EncodedNameAt(before, labels, after);
        ReadNameFinds(packet, |before|, labels, |labels|);
      } else if |labels| == MAX_STEPS + 1 {
        ReadFromPlain(before, labels, after, |before|, 0, []);
        assert [] + labels == labels;
      }
    }
  }

  /** Reading and skipping land right after a plain name exactly when it has at most 64 labels. */
  lemma {:induction false} EncodedNameEndFound(before: seq<Octet>, labels: seq<Label>, after: seq<Octet>)
    requires AllReadable(labels) && |labels| <= MAX_STEPS + 1
    ensures ReadName(before + EncodeName(labels) + after, |before|).offset == |before + EncodeName(labels)| <==>
            |labels| <= MAX_STEPS
    ensures SkipFrom(before + EncodeName(labels) + after, |before|, 0) == (|before + EncodeName(labels)|, true) <==>
            |labels| <= MAX_STEPS
  {
    var packet := before + EncodeName(labels) + after;
    if |labels| <= MAX_STEPS {
      EncodedNameAt(before, labels, after);
      ReadNameFinds(packet, |before|, labels, |labels|);
      SkipFindsEnd(packet, |before|, labels, |labels|);
    } else {
      ReadFromPlain(before, labels, after, |before|, 0, []);
    }
  }

  /** The query built for a name is read back as that name's labels. */
  lemma {:induction false} QueryRoundTrip(name: seq<Octet>)
    ensures ReadName(EncodeQuery(name), HEADER).labels == LabelsOf(name) <==>
            |LabelsOf(name)| <= MAX_STEPS + 1 && forall i :: 0 <= i < |LabelsOf(name)| ==>
              |LabelsOf(name)[i]| < JUMP_BITS
  {
    EncodedLabelsComeBack(QueryHeader(), LabelsOf(name), [0, 12, 0, 1]);
  }

  /** Joining undoes splitting. */
  lemma {:induction false} JoinSplit(name: seq<Octet>)
    ensures JoinDots(SplitDots(name)) == name
  {
    if name != [] {
      JoinSplit(name[1..]);
      var rest := SplitDots(name[1..]);
      assert name == [name[0]] + name[1..];
      if name[0] == DOT {
        assert ([[]] + rest)[1..] == rest;
      } else {
        assert ([[name[0]] + rest[0]] + rest[1..])[1..] == rest[1..];
      }
    }
  }

  lemma {:induction false} NonEmptyKeepsAll(labels: seq<Label>)
    requires forall i :: 0 <= i < |labels| ==> labels[i] != []
    ensures NonEmpty(labels) == labels
  {
    if labels != [] { NonEmptyKeepsAll(labels[1..]); }
  }

  /** A dotted name without empty labels comes back from its own query as it was written. */
  lemma {:induction false} QueriedNameComesBack(name: seq<Octet>)
    requires forall i :: 0 <= i < |SplitDots(name)| ==> 0 < |SplitDots(name)[i]| < JUMP_BITS
    requires |SplitDots(name)| <= MAX_STEPS + 1
    ensures JoinDots(ReadName(EncodeQuery(name), HEADER).labels) == name
  {
    NonEmptyKeepsAll(SplitDots(name));
    QueryRoundTrip(name);
    JoinSplit(name);
  }

  // ---- Progress on every packet ----

  /** Each answer moves the cursor at least ten bytes on, whatever the bytes say. */
  lemma {:induction false} AnswerAdvances(packet: seq<Octet>, offset: nat)
    ensures ReadAnswer(packet, offset).Some? ==> ReadAnswer(packet, offset).value.1 >= offset + 10
  {
    ReadFromBounds(packet, offset, offset, false, 0, []);
  }

  /** So a packet yields at most one answer per ten bytes, however many it announces. */
  lemma {:induction false} AnswersBounded(packet: seq<Octet>, offset: nat, count: nat)
    ensures ReadAnswers(packet, offset, count).Some? ==>
            |ReadAnswers(packet, offset, count).value| <= count
    ensures ReadAnswers(packet, offset, count).Some? && offset <= |packet| ==>
            10 * |ReadAnswers(packet, offset, count).value| <= |packet| - offset
    ensures ReadAnswers(packet, offset, count).Some? && offset > |packet| ==>
            ReadAnswers(packet, offset, count).value == []
    decreases count
  {
    if count > 0 && offset + 10 <= |packet| {
      AnswerAdvances(packet, offset);
      var r := ReadAnswer(packet, offset);
      if r.Some? { AnswersBounded(packet, r.value.1, count - 1); }
    }
  }

  // ---- When the parse throws ----

  /** The fixed fields of the answer here do not fit behind its name. */
  predicate FieldsCut(packet: seq<Octet>, cursor: nat) {
    ReadName(packet, cursor).offset + 10 > |packet|
  }

  /** Where the answer after this one starts. */
  function NextAnswer(packet: seq<Octet>, cursor: nat): nat
    requires !FieldsCut(packet, cursor)
  {
    var after := ReadName(packet, cursor).offset;
    after + 10 + Word(packet, after + 8)
  }

  /**
   Some answer among the next `count` passes the loop's guard, which asks for ten bytes from
   the start of its name, although ten bytes are not left behind the name.
   */
  predicate ThrowsAt(packet: seq<Octet>, cursor: nat, count: nat)
    decreases count
  {
    && count > 0 && cursor + 10 <= |packet|
    && (FieldsCut(packet, cursor) || ThrowsAt(packet, NextAnswer(packet, cursor), count - 1))
  }

  lemma {:induction false} AnswersThrowExactly(packet: seq<Octet>, cursor: nat, count: nat)
    ensures ReadAnswers(packet, cursor, count).None? <==> ThrowsAt(packet, cursor, count)
    decreases count
  {
    if count > 0 && cursor + 10 <= |packet| && !FieldsCut(packet, cursor) {
      AnswersThrowExactly(packet, NextAnswer(packet, cursor), count - 1);
    }
  }

  /**
   A response makes the parser throw exactly when its questions can be skipped and an answer
   passes the guard cut short.
   */
  lemma {:induction false} ParseThrowsExactly(packet: seq<Octet>)
    ensures ParseResponse(packet).None? <==>
      |packet| >= HEADER &&
      var (start, skipped) := SkipQuestions(packet, HEADER, Word(packet, 4));
      skipped && ThrowsAt(packet, start, Word(packet, 6))
  {
    if |packet| >= HEADER {
      var r := SkipQuestions(packet, HEADER, Word(packet, 4));
      AnswersThrowExactly(packet, r.0, Word(packet, 6));
    }
  }

  /** One answer named "a" whose record ends two bytes early: 22 bytes on which the parser throws. */
  lemma {:induction false} ShortAnswerThrows()
    ensures ParseResponse([0, 0, 0x84, 0, 0, 0, 0, 1, 0, 0, 0, 0, 1, 97, 0, 0, 12, 0, 1, 0, 0, 0]).None?
  {
    var packet: seq<Octet> := [0, 0, 0x84, 0, 0, 0, 0, 1, 0, 0, 0, 0, 1, 97, 0, 0, 12, 0, 1, 0, 0, 0];
    assert NameAt(packet, 14, [], 0);
    assert packet[13..14] == [97] && NameAt(packet, 12, [[97]], 1);
    ReadNameFinds(packet, 12, [[97]], 1);
    assert FieldsCut(packet, 12) && ThrowsAt(packet, 12, 1);
    ParseThrowsExactly(packet);
  }

  // ---- Compression ----

  /** These labels stand at a position, each behind its length. */
  ghost predicate LabelsAt(packet: seq<Octet>, pos: nat, labels: seq<Label>)
    decreases |labels|
  {
    labels == [] ||
    var next := pos + 1 + |labels[0]|;
    && Readable(labels[0]) && next <= |packet| && packet[pos] == |labels[0]| && packet[pos + 1..next] == labels[0]
    && LabelsAt(packet, next, labels[1..])
  }

  function AfterLabels(pos: nat, labels: seq<Label>): nat
    decreases |labels|
  {
    if labels == [] then pos else AfterLabels(pos + 1 + |labels[0]|, labels[1..])
  }

  /** Encoded labels stand where they were written, and end where their encoding does. */
  lemma {:induction false} EncodedLabelsAt(packet: seq<Octet>, before: seq<Octet>, labels: seq<Label>,
                                           after: seq<Octet>)
    requires AllReadable(labels) && packet == before + EncodeLabels(labels) + after
    ensures LabelsAt(packet, |before|, labels) && AfterLabels(|before|, labels) == |before| + |EncodeLabels(labels)|
    decreases |labels|
  {
    if labels != [] {
      LabelsShift(before, labels, after);
      FirstLabel(packet, before, labels, after);
      EncodedLabelsAt(packet, before + ([|labels[0]|] + labels[0]), labels[1..], after);
    }
  }

  /** A pointer to a name stands here. */
  ghost predicate PointsTo(packet: seq<Octet>, pos: nat, suffix: seq<Label>, hops: nat) {
    pos + 1 < |packet| && IsPointer(packet[pos]) && NameAt(packet, Target(packet, pos), suffix, hops)
  }

  /** Some labels in place, then a pointer to a name: the name is both together. */
  lemma {:induction false} PointerCompletes(packet: seq<Octet>, pos: nat, labels: seq<Label>, suffix: seq<Label>,
                                            hops: nat)
    requires LabelsAt(packet, pos, labels)
    requires PointsTo(packet, AfterLabels(pos, labels), suffix, hops)
    ensures NameAt(packet, pos, labels + suffix, |labels| + 1 + hops)
    ensures EndAt(packet, pos, labels + suffix, |labels| + 1 + hops) == AfterLabels(pos, labels) + 2
    decreases |labels|
  {
    if labels == [] {
      assert labels + suffix == suffix;
    } else {
      PointerCompletes(packet, pos + 1 + |labels[0]|, labels[1..], suffix, hops);
      assert (labels + suffix)[1..] == labels[1..] + suffix;
      NameHead(packet, pos, labels + suffix, |labels| + hops);
    }
  }

  lemma {:induction false} LabelsShift(before: seq<Octet>, labels: seq<Label>, after: seq<Octet>)
    requires labels != [] && Readable(labels[0])
    ensures before + EncodeLabels(labels) + after ==
            (before + ([|labels[0]|] + labels[0])) + EncodeLabels(labels[1..]) + after
    ensures |before| + |EncodeLabels(labels)| == |before + ([|labels[0]|] + labels[0])| + |EncodeLabels(labels[1..])|
  {
    Regroup(before, [|labels[0]|] + labels[0], EncodeLabels(labels[1..]));
  }

  lemma {:induction false} FirstLabel(packet: seq<Octet>, before: seq<Octet>, labels: seq<Label>, after: seq<Octet>)
    requires labels != [] && Readable(labels[0]) && packet == before + EncodeLabels(labels) + after
    ensures |before| + 1 + |labels[0]| <= |packet| && packet[|before|] == |labels[0]|
    ensures packet[|before| + 1..|before| + 1 + |labels[0]|] == labels[0]
  {
    LabelsShift(before, labels, after);
    var n: Octet := |labels[0]|;
    Regroup(before + ([n] + labels[0]), EncodeLabels(labels[1..]), after);
    OneLabelStands(before, n, labels[0], EncodeLabels(labels[1..]) + after);
  }

  lemma {:induction false} OneLabelStands(before: seq<Octet>, n: Octet, one: Label, rest: seq<Octet>)
    ensures var packet := (before + ([n] + one)) + rest;
            && |before| + 1 + |one| <= |packet|
            && packet[|before|] == n && packet[|before| + 1..|before| + 1 + |one|] == one
  {
  }

  /** How many steps of the reader it takes to have seen the last label of a name. */
  ghost function StepsToLastLabel(packet: seq<Octet>, pos: nat, labels: seq<Label>, hops: nat): nat
    requires NameAt(packet, pos, labels, hops)
    decreases hops
  {
    if labels == [] then 0
    else if IsPointer(packet[pos]) then 1 + StepsToLastLabel(packet, Target(packet, pos), labels, hops - 1)
    else 1 + StepsToLastLabel(packet, pos + 1 + packet[pos], labels[1..], hops - 1)
  }

  lemma {:induction false} ReadsLabelsExactly(packet: seq<Octet>, pos: nat, labels: seq<Label>, hops: nat,
                                              offset: nat, jumped: bool, steps: nat, read: seq<Label>)
    requires NameAt(packet, pos, labels, hops) && steps <= MAX_STEPS + 1
    ensures var found := ReadFrom(packet, pos, offset, jumped, steps, read).labels;
            if steps + StepsToLastLabel(packet, pos, labels, hops) <= MAX_STEPS + 1 then found == read + labels
            else |found| < |read + labels|
    decreases hops
  {
    if labels == [] {
      assert read + labels == read;
    }
    if packet[pos] != 0 && steps <= MAX_STEPS {
      if IsPointer(packet[pos]) {
        ReadsLabelsExactly(packet, Target(packet, pos), labels, hops - 1,
                           if jumped then offset else pos + 2, true, steps + 1, read);
      } else {
        var next := pos + 1 + packet[pos];
        ReadsLabelsExactly(packet, next, labels[1..], hops - 1, offset, jumped, steps + 1, read + [labels[0]]);
        assert (read + [labels[0]]) + labels[1..] == read + labels;
      }
    }
  }

  /** A name in a packet is read back whole exactly when its last label is seen within 65 steps. */
  lemma {:induction false} NameComesBackExactly(packet: seq<Octet>, pos: nat, labels: seq<Label>, hops: nat)
    requires NameAt(packet, pos, labels, hops)
    ensures ReadName(packet, pos).labels == labels <==> StepsToLastLabel(packet, pos, labels, hops) <= MAX_STEPS + 1
  {
    ReadsLabelsExactly(packet, pos, labels, hops, pos, false, 0, []);
    assert [] + labels == labels;
  }

  lemma {:induction false} JumpedOffset(packet: seq<Octet>, cursor: nat, offset: nat, steps: nat, read: seq<Label>)
    requires steps <= MAX_STEPS + 1
    ensures ReadFrom(packet, cursor, offset, true, steps, read).offset == offset
    decreases MAX_STEPS + 1 - steps
  {
    if cursor < |packet| && steps <= MAX_STEPS && packet[cursor] != 0 {
      if IsPointer(packet[cursor]) {
        JumpedOffset(packet, Target(packet, cursor), offset, steps + 1, read);
      } else {
        var length := packet[cursor];
        JumpedOffset(packet, cursor + 1 + length, offset, steps + 1, read + [Slice(packet, cursor + 1, length)]);
      }
    }
  }

  lemma {:induction false} PointerEndsOffset(packet: seq<Octet>, pos: nat, labels: seq<Label>, offset: nat,
                                             steps: nat, read: seq<Label>)
    requires LabelsAt(packet, pos, labels) && steps <= MAX_STEPS + 1
    requires AfterLabels(pos, labels) < |packet| && IsPointer(packet[AfterLabels(pos, labels)])
    ensures ReadFrom(packet, pos, offset, false, steps, read).offset ==
            if steps + |labels| <= MAX_STEPS then AfterLabels(pos, labels) + 2 else offset
    ensures steps + |labels| <= MAX_STEPS ==> SkipFrom(packet, pos, steps) == (AfterLabels(pos, labels) + 2, true)
    ensures steps + |labels| > MAX_STEPS ==> !SkipFrom(packet, pos, steps).1
    decreases |labels|
  {
    if steps <= MAX_STEPS {
      if labels == [] {
        JumpedOffset(packet, Target(packet, pos), pos + 2, steps + 1, read);
      } else {
        var next := pos + 1 + |labels[0]|;
        PointerEndsOffset(packet, next, labels[1..], offset, steps + 1, read + [Slice(packet, pos + 1, |labels[0]|)]);
      }
    }
  }

  lemma {:induction false} AfterLabelsIsLater(pos: nat, labels: seq<Label>)
    ensures AfterLabels(pos, labels) >= pos
    decreases |labels|
  {
    if labels != [] { AfterLabelsIsLater(pos + 1 + |labels[0]|, labels[1..]); }
  }

  lemma {:induction false} StepsAdd(packet: seq<Octet>, pos: nat, labels: seq<Label>, suffix: seq<Label>, hops: nat)
    requires LabelsAt(packet, pos, labels) && PointsTo(packet, AfterLabels(pos, labels), suffix, hops)
    requires NameAt(packet, pos, labels + suffix, |labels| + 1 + hops)
    ensures StepsToLastLabel(packet, pos, labels + suffix, |labels| + 1 + hops) ==
            |labels| + PointerSteps(packet, AfterLabels(pos, labels), suffix, hops)
    decreases |labels|
  {
    if labels == [] {
      assert labels + suffix == suffix;
    } else {
      var next := pos + 1 + |labels[0]|;
      assert (labels + suffix)[1..] == labels[1..] + suffix;
      StepsAdd(packet, next, labels[1..], suffix, hops);
    }
  }

  /** The steps from a pointer to the last label behind it; none if there is no label. */
  ghost function PointerSteps(packet: seq<Octet>, at: nat, suffix: seq<Label>, hops: nat): nat
    requires PointsTo(packet, at, suffix, hops)
  {
    if suffix == [] then 0 else 1 + StepsToLastLabel(packet, Target(packet, at), suffix, hops)
  }

  /**
   Labels in place, then a pointer to a name anywhere in the packet: they are read as one name
   exactly when the last label is at most 65 steps away, jumps included, and both walks go on
   right after the pointer exactly when at most 64 labels stand before it.
   */
  lemma {:induction false} CompressedNameComesBack(packet: seq<Octet>, pos: nat, labels: seq<Label>,
                                                   suffix: seq<Label>, hops: nat)
    requires LabelsAt(packet, pos, labels) && PointsTo(packet, AfterLabels(pos, labels), suffix, hops)
    ensures ReadName(packet, pos).labels == labels + suffix <==>
            |labels| + PointerSteps(packet, AfterLabels(pos, labels), suffix, hops) <= MAX_STEPS + 1
    ensures ReadName(packet, pos).offset == AfterLabels(pos, labels) + 2 <==> |labels| <= MAX_STEPS
    ensures SkipFrom(packet, pos, 0) == (AfterLabels(pos, labels) + 2, true) <==> |labels| <= MAX_STEPS
  {
    PointerCompletes(packet, pos, labels, suffix, hops);
    StepsAdd(packet, pos, labels, suffix, hops);
    NameComesBackExactly(packet, pos, labels + suffix, |labels| + 1 + hops);
    AfterLabelsIsLater(pos, labels);
    PointerEndsOffset(packet, pos, labels, pos, 0, []);
  }

  lemma {:induction false} PlainSteps(packet: seq<Octet>, pos: nat, labels: seq<Label>)
    requires NameAt(packet, pos, labels, |labels|)
    ensures StepsToLastLabel(packet, pos, labels, |labels|) == |labels|
    decreases |labels|
  {
    if labels != [] {
      HopsAtLeast(packet, pos, labels, |labels|);
      PlainSteps(packet, pos + 1 + packet[pos], labels[1..]);
    }
  }

  /** A name takes at least one step per label, and one more if it starts with a pointer. */
  lemma {:induction false} HopsAtLeast(packet: seq<Octet>, pos: nat, labels: seq<Label>, hops: nat)
    requires NameAt(packet, pos, labels, hops)
    ensures hops >= |labels| && (IsPointer(packet[pos]) ==> hops > |labels|)
    decreases hops
  {
    if packet[pos] != 0 {
      if IsPointer(packet[pos]) {
        HopsAtLeast(packet, Target(packet, pos), labels, hops - 1);
      } else {
        HopsAtLeast(packet, pos + 1 + packet[pos], labels[1..], hops - 1);
      }
    }
  }

  /** A name that ends in a pointer to one written out is read whole exactly up to 65 labels and jumps. */
  lemma {:induction false} OneJumpComesBack(packet: seq<Octet>, pos: nat, labels: seq<Label>, suffix: seq<Label>)
    requires LabelsAt(packet, pos, labels) && suffix != []
    requires PointsTo(packet, AfterLabels(pos, labels), suffix, |suffix|)
    ensures ReadName(packet, pos).labels == labels + suffix <==> |labels| + 1 + |suffix| <= MAX_STEPS + 1
  {
    PlainSteps(packet, Target(packet, AfterLabels(pos, labels)), suffix);
    CompressedNameComesBack(packet, pos, labels, suffix, |suffix|);
  }
}
