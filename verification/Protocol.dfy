/** Wire messages: one compact JSON object per line, and the decoder's case analysis. */
module Protocol {
  import opened Prelude
  import opened Decimal
  import opened Json
  import opened Lines

  const VERSION := 1
  const MAX_LINE := 1024

  datatype Message =
    | Request(id: string, action: string, payload: seq<Member>)
    | Success(id: string, result: seq<Member>)
    | Failure(id: string, code: string, message: string)
    | Event(event: string, payload: seq<Member>)

  function Members(m: Message): seq<Member> {
    match m
    case Request(id, action, payload) =>
      [Member("v", Num(VERSION)), Member("id", Str(id)), Member("action", Str(action)), Member("payload", Obj(payload))]
    case Success(id, result) =>
      [Member("v", Num(VERSION)), Member("id", Str(id)), Member("ok", Bool(true)), Member("result", Obj(result))]
    case Failure(id, code, message) =>
      [Member("v", Num(VERSION)), Member("id", Str(id)), Member("ok", Bool(false)),
       Member("error", Obj(ErrorMembers(code, message)))]
    case Event(event, payload) =>
      [Member("v", Num(VERSION)), Member("event", Str(event)), Member("payload", Obj(payload))]
  }

  /** The line without its newline. */
  function Text(m: Message): string {
    Stringify(Obj(Members(m)))
  }

  function Encode(m: Message): string {
    Text(m) + "\n"
  }

  datatype Decoded = Ignore | InvalidJson | InvalidMessage | Decoded(value: Message)

  /** A field's members when it holds a plain object, otherwise an empty object. */
  function ObjectOrEmpty(field: Option<Value>): seq<Member> {
    if field.Some? && field.value.Obj? then field.value.members else []
  }

  function IsString(field: Option<Value>): bool {
    field.Some? && field.value.Str?
  }

  /** The code and message of an error object. */
  function ErrorFields(error: Option<Value>): Option<(string, string)> {
    if error.None? || !error.value.Obj? then None
    else
      var code, message := Get(error.value.members, "code"), Get(error.value.members, "message");
      if IsString(code) && IsString(message) then Some((code.value.s, message.value.s)) else None
  }

  function ErrorMembers(code: string, message: string): seq<Member> {
    [Member("code", Str(code)), Member("message", Str(message))]
  }

  function DecodeRecord(ms: seq<Member>): Decoded {
    var event, id, action, ok := Get(ms, "event"), Get(ms, "id"), Get(ms, "action"), Get(ms, "ok");
    if Get(ms, "v") != Some(Num(VERSION)) then InvalidMessage
    else if IsString(event) then Decoded(Event(event.value.s, ObjectOrEmpty(Get(ms, "payload"))))
    else if !IsString(id) || id.value.s == "" then InvalidMessage
    else if IsString(action) then Decoded(Request(id.value.s, action.value.s, ObjectOrEmpty(Get(ms, "payload"))))
    else if ok == Some(Bool(true)) then Decoded(Success(id.value.s, ObjectOrEmpty(Get(ms, "result"))))
    else if ok == Some(Bool(false)) then
      var error := ErrorFields(Get(ms, "error"));
      if error.None? then InvalidMessage else Decoded(Failure(id.value.s, error.value.0, error.value.1))
    else InvalidMessage
  }

  function DecodeLine(line: string): Decoded {
    var trimmed := Trim(StripCr(line));
    if trimmed == "" || trimmed[0] != '{' then Ignore
    else
      match Parse(trimmed)
      case None => InvalidJson
      case Some(Obj(ms)) => DecodeRecord(ms)
      case Some(_) => InvalidMessage
  }

  // ---- Decoding what was encoded ----

  /** Payloads are JavaScript objects: no key twice, at any depth. */
  ghost predicate ValidPayload(m: Message) {
    match m
    case Request(_, _, payload) => WellFormed(Obj(payload))
    case Success(_, result) => WellFormed(Obj(result))
    case Failure(_, _, _) => true
    case Event(_, payload) => WellFormed(Obj(payload))
  }

  predicate HasId(m: Message) {
    m.Event? || m.id != ""
  }

  lemma {:induction false} GetAt(ms: seq<Member>, i: nat, key: string, value: Value)
    requires i < |ms| && DistinctKeys(ms) && ms[i] == Member(key, value)
    ensures Get(ms, key) == Some(value)
  {
    if i > 0 { GetAt(ms[1..], i - 1, key, value); }
  }

  lemma {:induction false} MembersDistinct(m: Message)
    ensures DistinctKeys(Members(m))
  {
    var ms := Members(m);
    if m.Request? || m.Success? || m.Failure? {
      assert |ms[0].key| == 1 && |ms[1].key| == 2 && ms[1].key[0] == 'i';
      if m.Request? {
        assert |ms[2].key| == 6 && |ms[3].key| == 7;
      } else {
        assert |ms[2].key| == 2 && ms[2].key[0] == 'o';
        assert |ms[3].key| >= 5;
      }
    } else {
      assert |ms[0].key| == 1 && |ms[1].key| == 5 && |ms[2].key| == 7;
    }
  }

  lemma {:induction false} ErrorFieldsOfMembers(code: string, message: string)
    ensures WellFormed(Obj(ErrorMembers(code, message)))
    ensures ErrorFields(Some(Obj(ErrorMembers(code, message)))) == Some((code, message))
  {
    var es := ErrorMembers(code, message);
    assert |es[0].key| == 4 && |es[1].key| == 7;
    GetAt(es, 0, "code", Str(code));
    GetAt(es, 1, "message", Str(message));
  }

  lemma {:induction false} MembersWellFormed(m: Message)
    requires ValidPayload(m)
    ensures WellFormed(Obj(Members(m)))
  {
    MembersDistinct(m);
    if m.Failure? { ErrorFieldsOfMembers(m.code, m.message); }
  }

  lemma {:induction false} AbsentKey(ms: seq<Member>, key: string)
    requires forall i :: 0 <= i < |ms| ==> ms[i].key != key
    ensures Get(ms, key) == None
  {
    if ms != [] { AbsentKey(ms[1..], key); }
  }

  lemma {:induction false} NoEventKey(m: Message)
    requires !m.Event?
    ensures Get(Members(m), "event") == None
  {
    var ms := Members(m);
    assert |ms[0].key| == 1 && |ms[1].key| == 2;
    if m.Failure? {
      assert ms[3].key[1] == 'r' && "event"[1] == 'v';
    } else {
      assert |ms[2].key| != 5 && |ms[3].key| != 5;
    }
    AbsentKey(ms, "event");
  }

  lemma {:induction false} NoActionKey(m: Message)
    requires m.Success? || m.Failure?
    ensures Get(Members(m), "action") == None
  {
    var ms := Members(m);
    assert |ms[0].key| == 1 && |ms[1].key| == 2 && |ms[2].key| == 2;
    assert ms[3].key[0] != 'a';
    AbsentKey(ms, "action");
  }

  lemma {:induction false} DecodeRequest(m: Message)
    requires m.Request?
    ensures DecodeRecord(Members(m)) == if HasId(m) then Decoded(m) else InvalidMessage
  {
    var ms := Members(m);
    MembersDistinct(m);
    NoEventKey(m);
    GetAt(ms, 0, "v", Num(VERSION));
    GetAt(ms, 1, "id", Str(m.id));
    GetAt(ms, 2, "action", Str(m.action));
    GetAt(ms, 3, "payload", Obj(m.payload));
  }

  lemma {:induction false} DecodeSuccess(m: Message)
    requires m.Success?
    ensures DecodeRecord(Members(m)) == if HasId(m) then Decoded(m) else InvalidMessage
  {
    var ms := Members(m);
    MembersDistinct(m);
    NoEventKey(m);
    NoActionKey(m);
    GetAt(ms, 0, "v", Num(VERSION));
    GetAt(ms, 1, "id", Str(m.id));
    GetAt(ms, 2, "ok", Bool(true));
    GetAt(ms, 3, "result", Obj(m.result));
  }

  lemma {:induction false} DecodeFailure(m: Message)
    requires m.Failure?
    ensures DecodeRecord(Members(m)) == if HasId(m) then Decoded(m) else InvalidMessage
  {
    var ms := Members(m);
    MembersDistinct(m);
    NoEventKey(m);
    NoActionKey(m);
    GetAt(ms, 0, "v", Num(VERSION));
    GetAt(ms, 1, "id", Str(m.id));
    GetAt(ms, 2, "ok", Bool(false));
    GetAt(ms, 3, "error", Obj(ErrorMembers(m.code, m.message)));
    ErrorFieldsOfMembers(m.code, m.message);
  }

  lemma {:induction false} DecodeEvent(m: Message)
    requires m.Event?
    ensures DecodeRecord(Members(m)) == Decoded(m)
  {
    var ms := Members(m);
    MembersDistinct(m);
    GetAt(ms, 0, "v", Num(VERSION));
    GetAt(ms, 1, "event", Str(m.event));
    GetAt(ms, 2, "payload", Obj(m.payload));
  }

  lemma {:induction false} DecodeMembers(m: Message)
    ensures DecodeRecord(Members(m)) == if HasId(m) then Decoded(m) else InvalidMessage
  {
    match m
    case Request(_, _, _) => DecodeRequest(m);
    case Success(_, _) => DecodeSuccess(m);
    case Failure(_, _, _) => DecodeFailure(m);
    case Event(_, _) => DecodeEvent(m);
  }

  lemma {:induction false} TrimNothing(s: string)
    requires s != "" && !IsSpace(s[0]) && !IsSpace(s[|s| - 1])
    ensures Trim(s) == s && StripCr(s) == s
  {
  }

  lemma {:induction false} TextShape(m: Message)
    ensures |Text(m)| >= 2 && Text(m)[0] == '{' && Text(m)[|Text(m)| - 1] == '}'
    ensures StripCr(Text(m)) == Text(m) && Trim(Text(m)) == Text(m)
  {
    TrimNothing(Text(m));
  }

  /** A message survives the wire exactly when it is an event or carries an id. */
  lemma {:induction false} DecodeText(m: Message)
    requires ValidPayload(m)
    ensures DecodeLine(Text(m)) == if HasId(m) then Decoded(m) else InvalidMessage
  {
    MembersWellFormed(m);
    TextShape(m);
    ParseStringify(Obj(Members(m)));
    DecodeMembers(m);
  }

  // ---- What any other record decodes to ----

  /** The key holds exactly these members, or nothing that is an object where none are asked for. */
  ghost predicate HoldsObject(ms: seq<Member>, key: string, held: seq<Member>) {
    var found := Get(ms, key);
    found == Some(Obj(held)) || (held == [] && (found == None || !found.value.Obj?))
  }

  ghost predicate HoldsText(ms: seq<Member>, key: string, s: string) {
    Get(ms, key) == Some(Str(s))
  }

  ghost predicate HoldsNoText(ms: seq<Member>, key: string) {
    forall s :: !HoldsText(ms, key, s)
  }

  /** The members of the message stand in the record, and no kind of message read before it does. */
  ghost predicate Carries(ms: seq<Member>, m: Message) {
    && Get(ms, "v") == Some(Num(1))
    && match m
       case Event(event, payload) => HoldsText(ms, "event", event) && HoldsObject(ms, "payload", payload)
       case Request(id, action, payload) =>
         && HoldsNoText(ms, "event") && id != "" && HoldsText(ms, "id", id)
         && HoldsText(ms, "action", action) && HoldsObject(ms, "payload", payload)
       case Success(id, result) =>
         && HoldsNoText(ms, "event") && id != "" && HoldsText(ms, "id", id)
         && HoldsNoText(ms, "action") && Get(ms, "ok") == Some(Bool(true)) && HoldsObject(ms, "result", result)
       case Failure(id, code, message) =>
         && HoldsNoText(ms, "event") && id != "" && HoldsText(ms, "id", id)
         && HoldsNoText(ms, "action") && Get(ms, "ok") == Some(Bool(false))
         && exists error :: HoldsError(ms, error) && HoldsText(error, "code", code) &&
              HoldsText(error, "message", message)
  }

  ghost predicate HoldsError(ms: seq<Member>, error: seq<Member>) {
    Get(ms, "error") == Some(Obj(error))
  }

  lemma {:induction false} TextHeld(ms: seq<Member>, key: string)
    ensures HoldsNoText(ms, key) <==> !IsString(Get(ms, key))
  {
    if IsString(Get(ms, key)) { assert HoldsText(ms, key, Get(ms, key).value.s); }
  }

  lemma {:induction false} ErrorHeld(ms: seq<Member>, code: string, message: string)
    ensures ErrorFields(Get(ms, "error")) == Some((code, message)) <==>
            exists error :: HoldsError(ms, error) && HoldsText(error, "code", code) &&
              HoldsText(error, "message", message)
  {
    var error := Get(ms, "error");
    if error.Some? && error.value.Obj? { assert HoldsError(ms, error.value.members); }
  }

  lemma {:induction false} RecordDecodesExactly(ms: seq<Member>, m: Message)
    ensures DecodeRecord(ms) == Decoded(m) <==> Carries(ms, m)
    ensures DecodeRecord(ms).Decoded? || DecodeRecord(ms) == InvalidMessage
  {
    TextHeld(ms, "event");
    TextHeld(ms, "action");
    if m.Failure? { ErrorHeld(ms, m.code, m.message); }
  }

  /** An object stands on the line, white space aside. */
  ghost predicate HoldsRecord(line: string, ms: seq<Member>) {
    Trim(line) != "" && Trim(line)[0] == '{' && Parse(Trim(line)) == Some(Obj(ms))
  }

  /** Whatever a line says, the decoder takes it for a message exactly when its record carries it. */
  lemma {:induction false} DecodesExactly(line: string, m: Message)
    ensures DecodeLine(line) == Decoded(m) <==> exists ms :: HoldsRecord(line, ms) && Carries(ms, m)
    ensures DecodeLine(line) == Ignore <==> Trim(line) == "" || Trim(line)[0] != '{'
    ensures DecodeLine(line) == InvalidJson <==> Trim(line) != "" && Trim(line)[0] == '{' && Parse(Trim(line)) == None
  {
    TrimStripped(line);
    var read := Parse(Trim(line));
    if Trim(line) != "" && Trim(line)[0] == '{' && read.Some? && read.value.Obj? {
      assert HoldsRecord(line, read.value.members);
      RecordDecodesExactly(read.value.members, m);
    }
  }

  // ---- One message is one line ----

  lemma {:induction false} NatTextNoNewline(n: nat)
    ensures NoNewline(NatText(n))
  {
  }

  lemma {:induction false} EscapeNoNewline(s: string)
    ensures NoNewline(Escape(s))
  {
    if s != "" {
      EscapeNoNewline(s[1..]);
      EscapeCharNoNewline(s[0]);
    }
  }

  lemma {:induction false} EscapeCharNoNewline(c: char)
    ensures NoNewline(EscapeChar(c))
  {
  }

  lemma {:induction false} StringifyNoNewline(v: Value)
    ensures NoNewline(Stringify(v))
    decreases v, 0
  {
    match v
    case Num(n) => NatTextNoNewline(if n < 0 then -n else n);
    case Str(s) => EscapeNoNewline(s);
    case Arr(es) => if es != [] { ElemsNoNewline(es); }
    case Obj(ms) => if ms != [] { MembersNoNewline(ms); }
    case _ =>
  }

  lemma {:induction false} ElemsNoNewline(es: seq<Value>)
    requires es != []
    ensures NoNewline(ElemsText(es))
    decreases es, 1
  {
    StringifyNoNewline(es[0]);
    if |es| > 1 { ElemsNoNewline(es[1..]); }
  }

  lemma {:induction false} MembersNoNewline(ms: seq<Member>)
    requires ms != []
    ensures NoNewline(MembersText(ms))
    decreases ms, 1
  {
    EscapeNoNewline(ms[0].key);
    StringifyNoNewline(ms[0].value);
    assert NoNewline(MemberText(ms[0]));
    if |ms| > 1 { MembersNoNewline(ms[1..]); }
  }
}
