/** The Uno bridge: twenty pins, a safe-level table, one armed session and its watchdog. */
module UnoBridge {
  import opened Prelude
  import opened ArmedSession
  import opened LineAssembly
  import opened Lines

  const PINS := 20
  const FIRST_PIN := 2
  const LINE_ROOM := 255

  datatype SafeLevel = Low | High | HighZ
  datatype PinMode = Input | Pullup | Output
  datatype Pin = Pin(mode: PinMode, level: bool)

  datatype State = State(
    armed: bool,
    tripped: bool,
    deadline: nat,
    timeoutMs: nat,
    active: seq<bool>,
    safe: seq<SafeLevel>,
    pins: seq<Pin>,
    now: nat,
    lastTouch: nat,
    lastPoll: nat)

  /** A name field: not a string (the default applies), a known name, or another string. */
  datatype Name<+T> = NotGiven | Known(value: T) | Unknown

  datatype Command =
    | BadEnvelope
    | Query
    | Arm(timeoutMs: Field<int>)
    | Disarm
    | StopAll
    | Kick(hasValidity: bool)
    | ConfigSafe(pin: Field<int>, level: Name<SafeLevel>, polarityKnown: bool)
    | SetMode(pin: Field<int>, mode: Name<PinMode>, hasSafeOrPolarity: bool)
    | Write(pin: Field<int>, value: Field<bool>, hasValidity: bool)
    | Read(pin: Field<int>)
    | AnalogRead(pin: Field<int>)
    | Unsupported

  datatype Reply = Ok | InvalidPayload | WatchdogTripped | NotArmed | AlreadyArmed | UnsupportedCapability | InvalidPin

  predicate Sized(s: State) {
    |s.active| == |s.safe| == |s.pins| == PINS
  }

  // ---- The steps on values ----

  /** What a stop does to a pin with this safe level. */
  function SafePin(level: SafeLevel, pin: Pin): Pin {
    if level == HighZ then pin.(mode := Input) else Pin(Output, level == High)
  }

  function Stopped(s: State): (s': State)
    requires Sized(s)
    ensures Sized(s')
  {
    s.(pins := seq(PINS, p requires 0 <= p < PINS =>
         if FIRST_PIN <= p && s.active[p] then SafePin(s.safe[p], s.pins[p]) else s.pins[p]),
       active := seq(PINS, p requires 0 <= p < PINS => p < FIRST_PIN && s.active[p]))
  }

  function PollWatchdog(s: State): (s': State)
    requires Sized(s)
    ensures Sized(s')
  {
    var s1 := s.(lastPoll := s.now);
    if s.armed && Due(Millis(s.now), s.deadline) then Stopped(s1).(armed := false, tripped := true) else s1
  }

  function Touch(s: State): State {
    s.(deadline := DeadlineAfter(s.now, s.timeoutMs), lastTouch := s.now)
  }

  function Refusal(s: State): Reply {
    if s.tripped then WatchdogTripped else NotArmed
  }

  predicate ValidPin(pin: Field<int>) {
    pin.Value? && FIRST_PIN <= pin.value < PINS
  }

  function Drive(s: State, p: nat, pin: Pin, active: bool): (s': State)
    requires Sized(s) && p < PINS
    ensures Sized(s')
  {
    s.(pins := s.pins[p := pin], active := s.active[p := active])
  }

  function HandleArm(s: State, timeoutMs: Field<int>): (State, Reply) {
    if timeoutMs == WrongType || (timeoutMs.Value? && (timeoutMs.value < 250 || timeoutMs.value > 10000)) then
      (s, InvalidPayload)
    else
      (Touch(s.(timeoutMs := if timeoutMs.Value? then timeoutMs.value else 1000, armed := true, tripped := false)), Ok)
  }

  function HandleConfig(s: State, p: nat, level: Name<SafeLevel>, polarityKnown: bool): (r: (State, Reply))
    requires Sized(s) && p < PINS
    ensures Sized(r.0)
  {
    if !polarityKnown || level == Unknown then (s, InvalidPayload)
    else if s.armed then (s, AlreadyArmed)
    else (s.(safe := s.safe[p := if level.Known? then level.value else Low]), Ok)
  }

  function HandleMode(s: State, p: nat, mode: Name<PinMode>, hasSafeOrPolarity: bool): (r: (State, Reply))
    requires Sized(s) && p < PINS
    ensures Sized(r.0)
  {
    if !s.armed then (s, Refusal(s))
    else if hasSafeOrPolarity || !mode.Known? then (s, InvalidPayload)
    else
      match mode.value
      case Output => (Drive(s, p, Pin(Output, s.safe[p] == High), true), Ok)
      case Input => (Drive(s, p, s.pins[p].(mode := Input), false), Ok)
      case Pullup => (Drive(s, p, s.pins[p].(mode := Pullup), true), Ok)
  }

  function HandleWrite(s: State, p: nat, value: Field<bool>, hasValidity: bool): (r: (State, Reply))
    requires Sized(s) && p < PINS
    ensures Sized(r.0)
  {
    if !s.armed then (s, Refusal(s))
    else if !value.Value? || hasValidity then (s, InvalidPayload)
    else (Drive(s, p, Pin(Output, value.value), true), Ok)
  }

  function Handle(s: State, c: Command): (r: (State, Reply))
    requires Sized(s)
    ensures Sized(r.0)
  {
    match c
    case BadEnvelope => (s, InvalidPayload)
    case Query => (s, Ok)
    case Arm(timeoutMs) => HandleArm(s, timeoutMs)
    case Disarm => (Stopped(s).(armed := false, tripped := false), Ok)
    case StopAll => (Stopped(s).(armed := false), Ok)
    case Kick(hasValidity) =>
      if !s.armed then (s, Refusal(s))
      else if hasValidity then (s, InvalidPayload)
      else (Touch(s), Ok)
    case ConfigSafe(pin, level, polarityKnown) =>
      if !ValidPin(pin) then (s, InvalidPin) else HandleConfig(s, pin.value, level, polarityKnown)
    case SetMode(pin, mode, hasSafeOrPolarity) =>
      if !ValidPin(pin) then (s, InvalidPin) else HandleMode(s, pin.value, mode, hasSafeOrPolarity)
    case Write(pin, value, hasValidity) =>
      if !ValidPin(pin) then (s, InvalidPin) else HandleWrite(s, pin.value, value, hasValidity)
    case Read(pin) => (s, if ValidPin(pin) then Ok else InvalidPin)
    case AnalogRead(pin) => (s, if ValidPin(pin) && pin.value >= 14 then Ok else InvalidPin)
    case Unsupported => (s, UnsupportedCapability)
  }

  datatype Event = Tick(ms: nat) | Poll | Cmd(c: Command)

  function Step(s: State, e: Event): (s': State)
    requires Sized(s)
    ensures Sized(s')
  {
    match e
    case Tick(ms) => s.(now := s.now + ms)
    case Poll => PollWatchdog(s)
    case Cmd(c) => Handle(s, c).0
  }

  function Run(s: State, es: seq<Event>): (s': State)
    requires Sized(s)
    ensures Sized(s')
  {
    if es == [] then s else Step(Run(s, es[..|es| - 1]), es[|es| - 1])
  }

  function Boot(pins: seq<Pin>): (s: State)
    requires |pins| == PINS
    ensures Sized(s)
  {
    State(false, false, 0, 1000, seq(PINS, _ => false), seq(PINS, _ => Low), pins, 0, 0, 0)
  }

  // ---- The byte loop ----

  /** What one received byte makes the loop do; `read` parses a line, None when it is not JSON. */
  function ByteEvents(a: Assembler, c: char, read: string -> Option<Command>): seq<Event> {
    [Poll] +
    if c == '\n' && !a.overflow && read(a.kept).Some? then [Cmd(read(a.kept).value)] else []
  }

  class Uno {
    var armed: bool
    var tripped: bool
    var deadline: nat
    var timeoutMs: nat
    var now: nat
    var lastTouch: nat
    var lastPoll: nat
    const active: array<bool>
    const safe: array<SafeLevel>
    const pins: array<Pin>
    const line: array<char>
    var used: nat
    var overflow: bool

    ghost predicate Valid()
      reads this
    {
      && active.Length == safe.Length == pins.Length == PINS
      && line.Length == LINE_ROOM + 1 && used <= LINE_ROOM
    }

    ghost function View(): (s: State)
      requires Valid()
      reads this, active, safe, pins
      ensures Sized(s)
    {
      State(armed, tripped, deadline, timeoutMs, active[..], safe[..], pins[..], now, lastTouch, lastPoll)
    }

    constructor ()
      ensures Valid() && fresh(active) && fresh(safe) && fresh(pins) && fresh(line)
      ensures View() == Boot(View().pins) && used == 0 && !overflow
    {
      armed, tripped, deadline, timeoutMs := false, false, 0, 1000;
      now, lastTouch, lastPoll, used, overflow := 0, 0, 0, 0, false;
      active := new bool[PINS](_ => false);
      safe := new SafeLevel[PINS](_ => Low);
      pins := new Pin[PINS](_ => Pin(Input, false));
      line := new char[LINE_ROOM + 1];
    }

    method Tick(ms: nat)
      requires Valid()
      modifies this`now
      ensures Valid() && View() == Step(old(View()), Event.Tick(ms))
    {
      now := now + ms;
    }

    method StopOutputs()
      requires Valid()
      modifies active, pins
      ensures Valid() && View() == Stopped(old(View()))
    {
      for p := FIRST_PIN to PINS
        invariant forall q :: 0 <= q < FIRST_PIN || p <= q < PINS ==>
          active[q] == old(active[q]) && pins[q] == old(pins[q])
        invariant forall q :: FIRST_PIN <= q < p ==> !active[q]
        invariant forall q :: FIRST_PIN <= q < p ==>
          pins[q] == if old(active[q]) then SafePin(safe[q], old(pins[q])) else old(pins[q])
      {
        if active[p] {
          if safe[p] == HighZ {
            pins[p] := pins[p].(mode := Input);
          } else {
            pins[p] := pins[p].(level := safe[p] == High);
            pins[p] := pins[p].(mode := Output);
          }
          active[p] := false;
        }
      }
    }

    method PollWatchdog()
      requires Valid()
      modifies this`armed, this`tripped, this`lastPoll, active, pins
      ensures Valid() && View() == Step(old(View()), Poll)
    {
      lastPoll := now;
      if armed && Due(Millis(now), deadline) {
        StopOutputs();
        armed := false;
        tripped := true;
      }
    }

    /** digitalWrite and pinMode on one pin, and its activity flag. */
    method SetPin(p: nat, mode: PinMode, level: bool, on: bool)
      requires Valid() && p < PINS
      modifies active, pins
      ensures Valid() && View() == Drive(old(View()), p, Pin(mode, level), on)
    {
      pins[p] := pins[p].(level := level);
      pins[p] := pins[p].(mode := mode);
      active[p] := on;
    }

    method HandleCommand(c: Command) returns (reply: Reply)
      requires Valid()
      modifies this`armed, this`tripped, this`deadline, this`timeoutMs, this`lastTouch, active, pins, safe
      ensures Valid() && (View(), reply) == Handle(old(View()), c)
    {
      match c
      case BadEnvelope => reply := InvalidPayload;
      case Query => reply := Ok;
      case Arm(timeout) =>
        if timeout == WrongType || (timeout.Value? && (timeout.value < 250 || timeout.value > 10000)) {
          return InvalidPayload;
        }
        timeoutMs := if timeout.Value? then timeout.value else 1000;
        armed := true;
        tripped := false;
        deadline := DeadlineAfter(now, timeoutMs);
        lastTouch := now;
        reply := Ok;
      case Disarm =>
        StopOutputs();
        armed := false;
        tripped := false;
        reply := Ok;
      case StopAll =>
        StopOutputs();
        armed := false;
        reply := Ok;
      case Kick(hasValidity) =>
        if !armed { return if tripped then WatchdogTripped else NotArmed; }
        if hasValidity { return InvalidPayload; }
        deadline := DeadlineAfter(now, timeoutMs);
        lastTouch := now;
        reply := Ok;
      case ConfigSafe(pin, level, polarityKnown) =>
        if !ValidPin(pin) { return InvalidPin; }
        if !polarityKnown { return InvalidPayload; }
        if level == Unknown { return InvalidPayload; }
        if armed { return AlreadyArmed; }
        safe[pin.value] := if level.Known? then level.value else Low;
        reply := Ok;
      case SetMode(pin, mode, hasSafeOrPolarity) =>
        if !ValidPin(pin) { return InvalidPin; }
        if !armed { return if tripped then WatchdogTripped else NotArmed; }
        if hasSafeOrPolarity || !mode.Known? { return InvalidPayload; }
        var p := pin.value;
        SetPin(p, mode.value, if mode.value == Output then safe[p] == High else pins[p].level, mode.value != Input);
        reply := Ok;
      case Write(pin, value, hasValidity) =>
        if !ValidPin(pin) { return InvalidPin; }
        if !armed { return if tripped then WatchdogTripped else NotArmed; }
        if !value.Value? || hasValidity { return InvalidPayload; }
        SetPin(pin.value, Output, value.value, true);
        reply := Ok;
      case Read(pin) => reply := if ValidPin(pin) then Ok else InvalidPin;
      case AnalogRead(pin) =>
        if !ValidPin(pin) { return InvalidPin; }
        reply := if pin.value < 14 then InvalidPin else Ok;
      case Unsupported => reply := UnsupportedCapability;
    }

    /** The line buffer as the assembler sees it. */
    ghost predicate Assembles(a: Assembler)
      requires Valid()
      reads this, line
    {
      a.overflow == overflow && a.kept == line[..used]
    }

    /** One turn of the read loop: poll, then take the byte. */
    method OnByte(c: char, read: string -> Option<Command>, ghost a: Assembler)
      requires Valid() && Assembles(a)
      modifies this, active, pins, safe, line
      ensures Valid() && Assembles(UnoByte(a, c, LINE_ROOM))
      ensures View() == Run(old(View()), ByteEvents(a, c, read))
    {
      ghost var s := View();
      PollWatchdog();
      assert ByteEvents(a, c, read)[..1] == [Poll] && [Poll][..0] == [];
      assert Run(s, [Poll]) == View();
      if c == '\n' {
        if !overflow {
          var command := read(line[..used]);
          if command.Some? {
            var reply := HandleCommand(command.value);
            assert ByteEvents(a, c, read) == [Poll, Cmd(command.value)];
          }
        }
        used := 0;
        overflow := false;
      } else if c != '\r' && !overflow {
        if used < LINE_ROOM {
          line[used] := c;
          used := used + 1;
        } else {
          overflow := true;
        }
      }
    }
  }

  // ---- The armed session ----

  function Abstract(s: State): Machine {
    Machine(if s.armed then Phase.Armed else if s.tripped then Phase.Tripped else Phase.Disarmed,
            s.now, s.lastTouch, s.lastPoll, s.timeoutMs)
  }

  ghost predicate Inv(s: State) {
    && Sized(s)
    && !(s.armed && s.tripped)
    && 0 < s.timeoutMs <= 10000
    && s.lastTouch <= s.now && s.lastPoll <= s.now
    && (s.armed ==> s.deadline == DeadlineAfter(s.lastTouch, s.timeoutMs))
    && (!s.armed ==> forall p :: 0 <= p < PINS ==> !s.active[p])
    && !s.active[0] && !s.active[1]
  }

  lemma {:induction false} StepKeepsInv(s: State, e: Event)
    requires Inv(s)
    ensures Inv(Step(s, e))
  {
  }

  /** Never armed and tripped at once, no active pin while not armed, and a truthful deadline. */
  lemma {:induction false} RunKeepsInv(s: State, es: seq<Event>)
    requires Inv(s)
    ensures Inv(Run(s, es))
    decreases |es|
  {
    if es != [] {
      RunKeepsInv(s, es[..|es| - 1]);
      StepKeepsInv(Run(s, es[..|es| - 1]), es[|es| - 1]);
    }
  }

  lemma {:induction false} BootInv(pins: seq<Pin>)
    requires |pins| == PINS
    ensures Inv(Boot(pins))
  {
  }

  /** The move of the abstract machine that a step makes. */
  function LabelOf(s: State, e: Event): Label
    requires Sized(s)
  {
    match e
    case Tick(ms) => Wait(ms)
    case Poll => Check
    case Cmd(Arm(Absent)) => Begin(1000)
    case Cmd(Arm(Value(ms))) => if 250 <= ms <= 10000 then Begin(ms) else Stay
    case Cmd(Kick(hasValidity)) => if s.armed && !hasValidity then Beat else Stay
    case Cmd(Disarm) => Halt
    case Cmd(StopAll) => if s.armed then Halt else Stay
    case _ => Stay
  }

  /** Every step refines the armed session. */
  lemma {:induction false} StepRefines(s: State, e: Event)
    requires Inv(s)
    ensures Abstract(Step(s, e)) == Do(Abstract(s), LabelOf(s, e))
  {
  }

  // ---- Safe levels over a session ----

  /** The pin is at this safe level: driven low, driven high, or not driven. */
  predicate AtSafeLevel(level: SafeLevel, was: Pin, now: Pin) {
    match level
    case Low => now.mode == Output && !now.level
    case High => now.mode == Output && now.level
    case HighZ => now.mode == Input && now.level == was.level
  }

  /** The command stops the session, for a state that is armed. */
  predicate Stops(s: State, e: Event)
    requires Sized(s)
  {
    s.armed && !Step(s, e).armed
  }

  /** Pins driven since the list began and not set to input afterwards. */
  function Driven(s: State, es: seq<Event>): set<int>
    requires Sized(s)
  {
    if es == [] then {}
    else
      var init, e := es[..|es| - 1], es[|es| - 1];
      if e.Cmd? && Handle(Run(s, init), e.c).1 == Ok then
        if e.c.Write? then Driven(s, init) + {e.c.pin.value}
        else if e.c.SetMode? && e.c.mode.value != Input then Driven(s, init) + {e.c.pin.value}
        else if e.c.SetMode? then Driven(s, init) - {e.c.pin.value}
        else Driven(s, init)
      else Driven(s, init)
  }

  ghost predicate ArmedThroughout(s: State, es: seq<Event>)
    requires Sized(s)
  {
    forall k :: 0 <= k <= |es| ==> Run(s, es[..k]).armed
  }

  lemma {:induction false} ArmedStepKeepsTable(s: State, e: Event)
    requires Sized(s) && s.armed
    ensures Step(s, e).safe == s.safe
  {
  }

  /** While armed the safe-level table stands still, and every driven pin is active. */
  lemma {:induction false} ArmedRun(s: State, es: seq<Event>)
    requires Inv(s) && ArmedThroughout(s, es)
    ensures Run(s, es).safe == s.safe && Inv(Run(s, es))
    ensures forall p :: p in Driven(s, es) ==> FIRST_PIN <= p < PINS && Run(s, es).active[p]
    decreases |es|
  {
    if es != [] {
      var init, e := es[..|es| - 1], es[|es| - 1];
      assert forall k :: 0 <= k <= |init| ==> init[..k] == es[..k];
      assert es[..|es|] == es;
      ArmedRun(s, init);
      StepKeepsInv(Run(s, init), e);
      ArmedStepKeepsTable(Run(s, init), e);
      ArmedStepKeepsActive(Run(s, init), e);
    }
  }

  predicate SetsToInput(s: State, e: Event, p: int)
    requires Sized(s)
  {
    e.Cmd? && Handle(s, e.c).1 == Ok && e.c.SetMode? && e.c.mode.value == Input && e.c.pin == Value(p)
  }

  lemma {:induction false} ArmedStepKeepsActive(s: State, e: Event)
    requires Sized(s) && s.armed && Step(s, e).armed
    ensures forall p :: 0 <= p < PINS && s.active[p] && !SetsToInput(s, e, p) ==> Step(s, e).active[p]
    ensures e.Cmd? && Handle(s, e.c).1 == Ok && (e.c.Write? || (e.c.SetMode? && e.c.mode.value != Input)) ==>
      FIRST_PIN <= e.c.pin.value < PINS && Step(s, e).active[e.c.pin.value]
  {
  }

  lemma {:induction false} StopAppliesTable(s: State, e: Event)
    requires Inv(s) && Stops(s, e)
    ensures Step(s, e).pins == Stopped(s).pins && Step(s, e).safe == s.safe
    ensures forall p :: 0 <= p < PINS ==> !Step(s, e).active[p]
  {
  }

  /**
   A session armed at s, run without stopping, then stopped by a trip, disarm or stop:
   every pin driven in it and not set to input since ends at the level the table held
   when the session was armed, and no pin the session never touched moves in the stop.
   */
  lemma {:induction false} StopLeavesConfiguredLevels(s: State, es: seq<Event>, stop: Event)
    requires Inv(s) && ArmedThroughout(s, es) && Stops(Run(s, es), stop)
    ensures var before, after := Run(s, es), Step(Run(s, es), stop);
      && (forall p :: p in Driven(s, es) ==> 0 <= p < PINS && AtSafeLevel(s.safe[p], before.pins[p], after.pins[p]))
      && (forall p :: 0 <= p < PINS && !before.active[p] ==> after.pins[p] == before.pins[p])
      && (forall p :: 0 <= p < PINS ==> !after.active[p])
  {
    ArmedRun(s, es);
    StopAppliesTable(Run(s, es), stop);
  }

  /** While not armed, no step but an accepted arm leads to armed, and none moves a pin. */
  lemma {:induction false} UnarmedMovesNothing(s: State, e: Event)
    requires Inv(s) && !s.armed
    ensures Step(s, e).pins == s.pins
    ensures Step(s, e).armed ==> e.Cmd? && e.c.Arm?
  {
    assert Step(s, e).pins == s.pins;
  }

  // ---- Timing, inherited from the armed session ----

  function LabelsOf(s: State, es: seq<Event>): (ls: seq<Label>)
    requires Sized(s)
    ensures |ls| == |es|
  {
    if es == [] then [] else LabelsOf(s, es[..|es| - 1]) + [LabelOf(Run(s, es[..|es| - 1]), es[|es| - 1])]
  }

  lemma {:induction false} LabelsPrefix(s: State, es: seq<Event>, k: nat)
    requires Sized(s) && k <= |es|
    ensures LabelsOf(s, es)[..k] == LabelsOf(s, es[..k])
    decreases |es|
  {
    if k == |es| {
      assert es[..k] == es;
    } else {
      var init := es[..|es| - 1];
      assert init[..k] == es[..k];
      LabelsPrefix(s, init, k);
    }
  }

  lemma {:induction false} RunRefines(s: State, es: seq<Event>)
    requires Inv(s)
    ensures Abstract(Run(s, es)) == DoAll(Abstract(s), LabelsOf(s, es))
    decreases |es|
  {
    if es != [] {
      var init := es[..|es| - 1];
      RunRefines(s, init);
      RunKeepsInv(s, init);
      StepRefines(Run(s, init), es[|es| - 1]);
      assert LabelsOf(s, es)[..|init|] == LabelsOf(s, init);
    }
  }

  /** The watchdog is polled at least every `gap` milliseconds along the run. */
  ghost predicate PolledWithin(s: State, es: seq<Event>, gap: nat)
    requires Sized(s)
  {
    forall k :: 0 <= k <= |es| ==> Run(s, es[..k]).now - Run(s, es[..k]).lastPoll <= gap
  }

  lemma {:induction false} LabelTimeouts(s: State, es: seq<Event>)
    requires Inv(s)
    ensures forall k :: 0 <= k < |es| && LabelsOf(s, es)[k].Begin? ==> LabelsOf(s, es)[k].timeout <= 10000
    ensures forall k :: 0 <= k < |es| ==> !LabelsOf(s, es)[k].Retime?
    decreases |es|
  {
    if es != [] {
      LabelTimeouts(s, es[..|es| - 1]);
      RunKeepsInv(s, es[..|es| - 1]);
    }
  }

  lemma {:induction false} RunPrompt(s: State, es: seq<Event>, gap: nat)
    requires Inv(s) && PolledWithin(s, es, gap) && gap <= HALF
    ensures Prompt(Abstract(s), LabelsOf(s, es), gap)
  {
    var ls := LabelsOf(s, es);
    LabelTimeouts(s, es);
    forall k | 0 <= k <= |ls| ensures DoAll(Abstract(s), ls[..k]).now - DoAll(Abstract(s), ls[..k]).lastPoll <= gap {
      LabelsPrefix(s, es, k);
      RunRefines(s, es[..k]);
    }
  }

  /** A poll less than 2^31 ms past the deadline trips exactly when the timeout has truly passed. */
  lemma {:induction false} PollTripsExactly(s: State)
    requires Inv(s) && s.armed && s.timeoutMs <= HALF && s.now - s.lastTouch < s.timeoutMs + HALF
    ensures Step(s, Poll).tripped <==> s.now - s.lastTouch >= s.timeoutMs
  {
    DueExactly(s.lastTouch, s.timeoutMs, s.now);
  }

  /**
   From power-up, polled at least every `gap` milliseconds: an armed session is never
   `timeoutMs + gap` past its last heartbeat, and a poll trips it exactly when
   `timeoutMs` have truly passed, although the counter wraps.
   */
  lemma {:induction false} WatchdogHonest(pins: seq<Pin>, es: seq<Event>, gap: nat)
    requires |pins| == PINS && PolledWithin(Boot(pins), es, gap) && gap <= HALF
    requires Run(Boot(pins), es).armed
    ensures var s := Run(Boot(pins), es);
      && s.now - s.lastTouch < s.timeoutMs + gap
      && (Step(s, Poll).tripped <==> s.now - s.lastTouch >= s.timeoutMs)
  {
    var s0 := Boot(pins);
    RunPrompt(s0, es, gap);
    RunRefines(s0, es);
    RunKeepsInv(s0, es);
    NoSilentSession(Abstract(s0), LabelsOf(s0, es), gap);
    TripsExactlyWhenSilent(Abstract(s0), LabelsOf(s0, es), gap);
    StepRefines(Run(s0, es), Poll);
  }

  // ---- From bytes to commands ----

  datatype Input = Passes(ms: nat) | Idle | Byte(c: char)

  function Bytes(inputs: seq<Input>): string {
    if inputs == [] then ""
    else
      var last := inputs[|inputs| - 1];
      Bytes(inputs[..|inputs| - 1]) + if last.Byte? then [last.c] else ""
  }

  function InputEvents(a: Assembler, input: Input, read: string -> Option<Command>): seq<Event> {
    match input
    case Passes(ms) => [Tick(ms)]
    case Idle => [Poll]
    case Byte(c) => ByteEvents(a, c, read)
  }

  /** The steps the loop takes on what happens around it. */
  function LoopEvents(inputs: seq<Input>, read: string -> Option<Command>): seq<Event> {
    if inputs == [] then []
    else
      var init := inputs[..|inputs| - 1];
      LoopEvents(init, read) + InputEvents(UnoBytes(Bytes(init), LINE_ROOM), inputs[|inputs| - 1], read)
  }

  function Commands(es: seq<Event>): seq<Command> {
    if es == [] then []
    else Commands(es[..|es| - 1]) + if es[|es| - 1].Cmd? then [es[|es| - 1].c] else []
  }

  lemma {:induction false} CommandsAppend(es: seq<Event>, fs: seq<Event>)
    ensures Commands(es + fs) == Commands(es) + Commands(fs)
    decreases |fs|
  {
    if fs == [] {
      assert es + fs == es;
    } else {
      CommandsAppend(es, fs[..|fs| - 1]);
      assert (es + fs)[..|es + fs| - 1] == es + fs[..|fs| - 1];
    }
  }

  lemma {:induction false} ByteCommands(a: Assembler, c: char, read: string -> Option<Command>)
    ensures ReadAll(UnoByte(a, c, LINE_ROOM).dispatched, read) ==
            ReadAll(a.dispatched, read) + Commands(ByteEvents(a, c, read))
  {
    var es := ByteEvents(a, c, read);
    var d := UnoByte(a, c, LINE_ROOM).dispatched;
    assert es[..1] == [Event.Poll] && [Event.Poll][..0] == [];
    assert Commands([Event.Poll]) == [];
    if |es| == 2 {
      assert es[..|es| - 1] == [Event.Poll];
    } else {
      assert es == [Event.Poll];
    }
    if c == '\n' && !a.overflow {
      assert d[..|d| - 1] == a.dispatched;
    }
    assert ReadAll(a.dispatched, read) + [] == ReadAll(a.dispatched, read);
  }

  lemma {:induction false} LoopCommands(inputs: seq<Input>, read: string -> Option<Command>)
    ensures Commands(LoopEvents(inputs, read)) == ReadAll(UnoBytes(Bytes(inputs), LINE_ROOM).dispatched, read)
  {
    if inputs != [] {
      var init, last := inputs[..|inputs| - 1], inputs[|inputs| - 1];
      LoopCommands(init, read);
      InputCommands(Bytes(init), last, read);
      CommandsAppend(LoopEvents(init, read), InputEvents(UnoBytes(Bytes(init), LINE_ROOM), last, read));
    }
  }

  lemma {:induction false} InputCommands(stream: string, input: Input, read: string -> Option<Command>)
    ensures ReadAll(UnoBytes(stream + if input.Byte? then [input.c] else "", LINE_ROOM).dispatched, read) ==
            ReadAll(UnoBytes(stream, LINE_ROOM).dispatched, read) +
            Commands(InputEvents(UnoBytes(stream, LINE_ROOM), input, read))
  {
    var before := ReadAll(UnoBytes(stream, LINE_ROOM).dispatched, read);
    if input.Byte? {
      assert (stream + [input.c])[..|stream|] == stream;
      ByteCommands(UnoBytes(stream, LINE_ROOM), input.c, read);
    } else {
      var es := InputEvents(UnoBytes(stream, LINE_ROOM), input, read);
      assert es[..0] == [] && Commands(es) == [];
      assert stream + "" == stream && before + [] == before;
    }
  }

  /** The commands carried out are those on the stream's lines of at most 255 kept characters. */
  lemma {:induction false} CommandsAreTheFittingLines(inputs: seq<Input>, read: string -> Option<Command>)
    ensures Commands(LoopEvents(inputs, read)) == ReadAll(UnoLines(RawLines(Bytes(inputs)), LINE_ROOM), read)
  {
    LoopCommands(inputs, read);
    UnoRefinesSplit(Bytes(inputs), LINE_ROOM);
  }

  // ---- What single commands do ----

  /** A refused command changes nothing at all, the deadline included. */
  lemma {:induction false} RefusedChangesNothing(s: State, c: Command)
    requires Sized(s) && Handle(s, c).1 != Ok
    ensures Handle(s, c).0 == s
  {
  }

  predicate Addresses(e: Event, p: nat) {
    e.Cmd? && (e.c.Write? || e.c.SetMode?) && e.c.pin == Value(p)
  }

  /** The session goes on through the run, and no command in it addresses p. */
  ghost predicate Undisturbed(s: State, es: seq<Event>, p: nat)
    requires Sized(s)
  {
    es == [] ||
    var init := es[..|es| - 1];
    Undisturbed(s, init, p) && !Addresses(es[|es| - 1], p) && Run(s, es).armed
  }

  /** An accepted write drives the pin to its value, and the pin keeps it while the session goes on. */
  lemma {:induction false} WriteStands(s: State, p: nat, value: bool, es: seq<Event>)
    requires Sized(s) && Handle(s, Write(Value(p), Value(value), false)).1 == Ok
    requires Undisturbed(Handle(s, Write(Value(p), Value(value), false)).0, es, p)
    ensures p < PINS && Run(Handle(s, Write(Value(p), Value(value), false)).0, es).pins[p] == Pin(Output, value)
    ensures Run(Handle(s, Write(Value(p), Value(value), false)).0, es).armed
    decreases |es|
  {
    if es != [] {
      var init := es[..|es| - 1];
      WriteStands(s, p, value, init);
      PinStands(Run(Handle(s, Write(Value(p), Value(value), false)).0, init), es[|es| - 1], p);
    }
  }

  lemma {:induction false} PinStands(s: State, e: Event, p: nat)
    requires Sized(s) && p < PINS && s.armed && Step(s, e).armed && !Addresses(e, p)
    ensures Step(s, e).pins[p] == s.pins[p]
  {
  }
}
