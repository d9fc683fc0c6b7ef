/**
 What a packet says: the questions and records that stand in it byte by byte, against what the
 parser makes of them, and the query as it goes out.
 */
module MdnsAnswers {
  import opened Prelude
  import opened Mdns

  /** Two bytes, the high one first. */
  function Big(high: nat, low: nat): nat {
    256 * high + low
  }

  /** A name, the hops to its end, and where its in-place part begins and ends. */
  datatype Name = Name(at: nat, labels: seq<Label>, hops: nat, end: nat)

  ghost predicate NameStands(packet: seq<Octet>, name: Name) {
    && name.hops <= MAX_STEPS && NameAt(packet, name.at, name.labels, name.hops)
    && name.end == EndAt(packet, name.at, name.labels, name.hops)
  }

  /** Where question i starts, when the first starts at `start`; each has four fixed bytes behind its name. */
  function QuestionStart(names: seq<Name>, start: nat, i: nat): nat
    requires i <= |names|
  {
    if i == 0 then start else names[i - 1].end + 4
  }

  ghost predicate QuestionHere(packet: seq<Octet>, start: nat, names: seq<Name>, i: nat)
    requires i < |names|
  {
    NameStands(packet, names[i]) && names[i].at == QuestionStart(names, start, i)
  }

  /** Questions with these names stand one after the other from `start` to `end`. */
  ghost predicate QuestionsAt(packet: seq<Octet>, start: nat, names: seq<Name>, end: nat) {
    && (forall i :: 0 <= i < |names| ==> QuestionHere(packet, start, names, i))
    && end == QuestionStart(names, start, |names|)
  }

  /** A record: its name, its type, and where its data ends. */
  datatype Record = Record(name: Name, kind: nat, next: nat)

  /** Behind the name stand type, class, time to live and data length, then the data. */
  ghost predicate RecordStands(packet: seq<Octet>, r: Record) {
    && NameStands(packet, r.name) && r.name.end + 10 <= |packet|
    && r.kind == Big(packet[r.name.end], packet[r.name.end + 1])
    && r.next == r.name.end + 10 + Big(packet[r.name.end + 8], packet[r.name.end + 9])
  }

  function RecordStart(records: seq<Record>, start: nat, i: nat): nat
    requires i <= |records|
  {
    if i == 0 then start else records[i - 1].next
  }

  ghost predicate RecordHere(packet: seq<Octet>, start: nat, records: seq<Record>, i: nat)
    requires i < |records|
  {
    RecordStands(packet, records[i]) && records[i].name.at == RecordStart(records, start, i)
  }

  /** These records stand one after the other from `start` to `end`. */
  ghost predicate RecordsAt(packet: seq<Octet>, start: nat, records: seq<Record>, end: nat) {
    && (forall i :: 0 <= i < |records| ==> RecordHere(packet, start, records, i))
    && end == RecordStart(records, start, |records|)
  }

  function AnswerOf(r: Record): Answer {
    Answer(JoinDots(r.name.labels), r.kind)
  }

  /** The records as answers, from the i-th on. */
  function Answered(records: seq<Record>, i: nat): seq<Answer>
    requires i <= |records|
    decreases |records| - i
  {
    if i == |records| then []
    else [AnswerOf(records[i])] + Answered(records, i + 1)
  }

  // ---- Reading what stands there ----

  lemma {:induction false} EndIsLater(packet: seq<Octet>, pos: nat, labels: seq<Label>, hops: nat)
    requires NameAt(packet, pos, labels, hops)
    ensures EndAt(packet, pos, labels, hops) > pos
    decreases hops
  {
    if packet[pos] != 0 && !IsPointer(packet[pos]) {
      EndIsLater(packet, pos + 1 + packet[pos], labels[1..], hops - 1);
    }
  }

  lemma {:induction false} NameRead(packet: seq<Octet>, name: Name)
    requires NameStands(packet, name)
    ensures ReadName(packet, name.at) == Read(name.labels, name.end)
    ensures SkipFrom(packet, name.at, 0) == (name.end, true) && name.end > name.at
  {
    ReadNameFinds(packet, name.at, name.labels, name.hops);
    SkipFindsEnd(packet, name.at, name.labels, name.hops);
    EndIsLater(packet, name.at, name.labels, name.hops);
  }

  /** The i-th question starts where it should and can be skipped. */
  ghost predicate Skips(packet: seq<Octet>, start: nat, names: seq<Name>, i: nat)
    requires i < |names|
  {
    SkipFrom(packet, QuestionStart(names, start, i), 0) == (names[i].end, true)
  }

  lemma {:induction false} EachSkips(packet: seq<Octet>, start: nat, names: seq<Name>, end: nat, i: nat)
    requires QuestionsAt(packet, start, names, end) && i < |names|
    ensures Skips(packet, start, names, i)
  {
    assert QuestionHere(packet, start, names, i);
    NameRead(packet, names[i]);
  }

  lemma {:induction false} QuestionsSkipped(packet: seq<Octet>, start: nat, names: seq<Name>, count: nat, i: nat)
    requires i <= |names| <= count && forall k :: 0 <= k < |names| ==> Skips(packet, start, names, k)
    ensures SkipQuestions(packet, QuestionStart(names, start, i), count - i) ==
            SkipQuestions(packet, QuestionStart(names, start, |names|), count - |names|)
    decreases |names| - i
  {
    if i < |names| {
      assert Skips(packet, start, names, i);
      QuestionsSkipped(packet, start, names, count, i + 1);
      QuestionSkipped(packet, QuestionStart(names, start, i), count - i, names[i].end);
    }
  }

  lemma {:induction false} QuestionSkipped(packet: seq<Octet>, at: nat, count: nat, end: nat)
    requires count > 0 && SkipFrom(packet, at, 0) == (end, true)
    ensures SkipQuestions(packet, at, count) == SkipQuestions(packet, end + 4, count - 1)
  {
    var next, ok := SkipQuestionsStep(packet, at, count);
  }

  lemma {:induction false} WordIsBig(packet: seq<Octet>, at: nat)
    requires at + 1 < |packet|
    ensures Word(packet, at) == Big(packet[at], packet[at + 1])
  {
  }

  lemma {:induction false} RecordRead(packet: seq<Octet>, r: Record)
    requires RecordStands(packet, r)
    ensures r.name.at + 10 <= |packet|
    ensures ReadAnswer(packet, r.name.at) == Some((Answer(JoinDots(r.name.labels), r.kind), r.next))
  {
    NameRead(packet, r.name);
    WordIsBig(packet, r.name.end);
    WordIsBig(packet, r.name.end + 8);
  }

  /** The i-th record starts where it should and is read as it stands. */
  ghost predicate Reads(packet: seq<Octet>, start: nat, records: seq<Record>, i: nat)
    requires i < |records|
  {
    var at := RecordStart(records, start, i);
    at + 10 <= |packet| && ReadAnswer(packet, at) == Some((AnswerOf(records[i]), records[i].next))
  }

  lemma {:induction false} EachReads(packet: seq<Octet>, start: nat, records: seq<Record>, end: nat, i: nat)
    requires RecordsAt(packet, start, records, end) && i < |records|
    ensures Reads(packet, start, records, i)
  {
    assert RecordHere(packet, start, records, i);
    RecordRead(packet, records[i]);
  }

  lemma {:induction false} RecordsRead(packet: seq<Octet>, start: nat, records: seq<Record>, count: nat, i: nat)
    requires i <= |records| <= count && forall k :: 0 <= k < |records| ==> Reads(packet, start, records, k)
    requires count == |records| || RecordStart(records, start, |records|) + 10 > |packet|
    ensures ReadAnswers(packet, RecordStart(records, start, i), count - i) == Some(Answered(records, i))
    decreases |records| - i
  {
    if i < |records| {
      assert Reads(packet, start, records, i);
      RecordsRead(packet, start, records, count, i + 1);
      OneMoreRead(packet, RecordStart(records, start, i), count - i, AnswerOf(records[i]), records[i].next);
    }
  }

  lemma {:induction false} OneMoreRead(packet: seq<Octet>, at: nat, count: nat, a: Answer, next: nat)
    requires count > 0 && at + 10 <= |packet| && ReadAnswer(packet, at) == Some((a, next))
    requires ReadAnswers(packet, next, count - 1).Some?
    ensures ReadAnswers(packet, at, count) == Some([a] + ReadAnswers(packet, next, count - 1).value)
  {
    ReadAnswersStep(packet, at, count);
  }

  /**
   The answers of a response are exactly the records that stand behind its questions, each under
   its name and with its type, in order: as many as announced, or as many as the packet has room for.
   */
  lemma {:induction false} AnswersAreTheRecords(packet: seq<Octet>, questions: seq<Name>, records: seq<Record>,
                                                start: nat, end: nat)
    requires |packet| >= 12 && |questions| == Big(packet[4], packet[5])
    requires QuestionsAt(packet, 12, questions, start) && RecordsAt(packet, start, records, end)
    requires var announced := Big(packet[6], packet[7]);
             announced == |records| || (announced > |records| && end + 10 > |packet|)
    ensures ParseResponse(packet) == Some(Answered(records, 0))
  {
    WordIsBig(packet, 4);
    WordIsBig(packet, 6);
    forall i | 0 <= i < |questions| ensures Skips(packet, 12, questions, i) {
      EachSkips(packet, 12, questions, start, i);
    }
    QuestionsSkipped(packet, 12, questions, |questions|, 0);
    forall i | 0 <= i < |records| ensures Reads(packet, start, records, i) {
      EachReads(packet, start, records, end, i);
    }
    RecordsRead(packet, start, records, Big(packet[6], packet[7]), 0);
  }

  /** A packet shorter than a header, or with a question whose name cannot be skipped, has no answers. */
  lemma {:induction false} UnreadableHasNone(packet: seq<Octet>, questions: seq<Name>, start: nat)
    requires |packet| >= 12 ==>
               && |questions| < Big(packet[4], packet[5]) && QuestionsAt(packet, 12, questions, start)
               && !SkipFrom(packet, start, 0).1
    ensures ParseResponse(packet) == Some([])
  {
    if |packet| >= 12 {
      WordIsBig(packet, 4);
      forall i | 0 <= i < |questions| ensures Skips(packet, 12, questions, i) {
        EachSkips(packet, 12, questions, start, i);
      }
      QuestionsSkipped(packet, 12, questions, Big(packet[4], packet[5]), 0);
      var next, ok := SkipQuestionsStep(packet, start, Big(packet[4], packet[5]) - |questions|);
    }
  }

  // ---- A response with one record ----

  /** The name "a" in its one byte, at the start of the answers. */
  lemma {:induction false} NameA(packet: seq<Octet>)
    requires |packet| >= 15 && packet[12] == 1 && packet[13] == 97 && packet[14] == 0
    ensures NameStands(packet, Name(12, [[97]], 1, 15))
  {
    assert NameAt(packet, 14, [], 0);
    assert packet[13..14] == [97] && [[97]][1..] == [];
    assert EndAt(packet, 14, [], 0) == 15;
  }

  /** One record named "a" of type PTR, without data, is read as that. */
  lemma {:induction false} OneAnswerRead()
    ensures ParseResponse([0, 0, 0x84, 0, 0, 0, 0, 1, 0, 0, 0, 0, 1, 97, 0, 0, 12, 0, 1, 0, 0, 0, 0, 0, 0]) ==
            Some([Answer([97], 12)])
  {
    var packet: seq<Octet> := [0, 0, 0x84, 0, 0, 0, 0, 1, 0, 0, 0, 0, 1, 97, 0, 0, 12, 0, 1, 0, 0, 0, 0, 0, 0];
    NameA(packet);
    var r := Record(Name(12, [[97]], 1, 15), 12, 25);
    OneRecord(packet, r);
    AnswersAreTheRecords(packet, [], [r], 12, 25);
  }

  lemma {:induction false} OneRecord(packet: seq<Octet>, r: Record)
    requires RecordStands(packet, r)
    ensures RecordsAt(packet, r.name.at, [r], r.next)
    ensures Answered([r], 0) == [Answer(JoinDots(r.name.labels), r.kind)]
  {
    assert Answered([r], 1) == [];
    assert RecordHere(packet, r.name.at, [r], 0);
  }

  // ---- The query on the wire ----

  lemma {:induction false} TrailerStands(before: seq<Octet>, trailer: seq<Octet>)
    requires |trailer| == 4
    ensures var q, n := before + trailer, |before + trailer|;
            q[n - 4] == trailer[0] && q[n - 3] == trailer[1] && q[n - 2] == trailer[2] && q[n - 1] == trailer[3]
  {
  }

  lemma {:induction false} HeaderStands(header: seq<Octet>, rest: seq<Octet>, i: nat)
    requires i < |header|
    ensures (header + rest)[i] == header[i]
  {
  }

  /** A standard query with one question, of type PTR and class IN, and nothing else. */
  lemma {:induction false} QueryFields(name: seq<Octet>)
    ensures var q := EncodeQuery(name);
            && |q| >= 16 && q[0] == 0x12 && q[1] == 0x34 && q[2] == 0 && q[3] == 0
            && q[4] == 0 && q[5] == 1 && (forall i :: 6 <= i < 12 ==> q[i] == 0)
            && q[|q| - 4] == 0 && q[|q| - 3] == 12 && q[|q| - 2] == 0 && q[|q| - 1] == 1
  {
    var q, encoded := EncodeQuery(name), EncodeName(LabelsOf(name));
    TrailerStands(QueryHeader() + encoded, [0, 12, 0, 1]);
    Regroup(QueryHeader(), encoded, [0, 12, 0, 1]);
    forall i | 0 <= i < 12 ensures q[i] == QueryHeader()[i] {
      HeaderStands(QueryHeader(), encoded + [0, 12, 0, 1], i);
    }
  }

  /** Its one question is for the name's labels, right behind the header, and fills it; it holds no answer. */
  lemma {:induction false} QueryAsksItsName(name: seq<Octet>)
    requires |LabelsOf(name)| <= MAX_STEPS && AllReadable(LabelsOf(name))
    ensures var q, labels := EncodeQuery(name), LabelsOf(name);
            QuestionsAt(q, 12, [Name(12, labels, |labels|, |q| - 4)], |q|) && ParseResponse(q) == Some([])
  {
    var q, labels := EncodeQuery(name), LabelsOf(name);
    EncodedNameAt(QueryHeader(), labels, [0, 12, 0, 1]);
    QueryFields(name);
    OneQuestion(q, Name(12, labels, |labels|, |q| - 4));
    AnswersAreTheRecords(q, [Name(12, labels, |labels|, |q| - 4)], [], |q|, |q|);
  }

  lemma {:induction false} OneQuestion(q: seq<Octet>, name: Name)
    requires NameStands(q, name)
    ensures QuestionsAt(q, name.at, [name], name.end + 4)
  {
  }
}
