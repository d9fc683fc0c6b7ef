/** Whole-run results for the ESP32 bridge: quiet while not armed, the pulse table, the watchdog. */
module Esp32Runs {
  import opened Prelude
  import opened ArmedSession
  import opened Esp32
  import opened Esp32Safety

  lemma {:induction false} RunSplit(b: Board, s: State, es: seq<Event>, k: nat)
    requires ValidBoard(b) && Sized(b, s) && k < |es|
    ensures Run(b, s, es[..k + 1]) == Step(b, Run(b, s, es[..k]), es[k])
  {
    assert es[..k + 1][..k] == es[..k];
  }

  function Abstract(s: State): Machine {
    Machine(s.phase, s.now, s.lastTouch, s.lastPoll, s.timeout)
  }

  lemma {:induction false} BatchKeepsMachine(b: Board, s: State, writes: seq<(Field<int>, Field<bool>)>)
    requires Sized(b, s) && forall i :: 0 <= i < |writes| ==> GoodWrite(b, writes[i])
    ensures Abstract(ApplyBatch(b, s, writes)) == Abstract(s)
    decreases |writes|
  {
    if writes != [] { BatchKeepsMachine(b, s, writes[..|writes| - 1]); }
  }

  lemma {:induction false} ActionKeepsMachine(b: Board, s: State, a: Actuation)
    requires ValidBoard(b) && Sized(b, s)
    ensures Abstract(HandleAction(b, s, a).0) == Abstract(s)
  {
    if a.BatchWrite? && a.writes.Some? &&
         BatchFault(b, a.writes.value) == Ok { BatchKeepsMachine(b, s, a.writes.value); }
  }

  lemma {:induction false} PollKeepsMachine(b: Board, s: State, n: nat)
    requires Sized(b, s) && n <= PULSES
    ensures Abstract(PollPulses(b, s, n)) == Abstract(s)
  {
    if n > 0 { PollKeepsMachine(b, s, n - 1); }
  }

  // ---- Not armed: nothing moves but towards the safe level ----

  /** The bridge's own doing on a pin, leaving out what the surroundings apply. */
  predicate SameDrive(p: Pin, q: Pin) {
    p.mode == q.mode && p.level == q.level
  }

  lemma {:induction false} PollIdle(b: Board, s: State, n: nat)
    requires Sized(b, s) && Idle(s) && n <= PULSES
    ensures PollPulses(b, s, n) == s
  {
    if n > 0 { PollIdle(b, s, n - 1); }
  }

  /** The pin is at this safe level: driven low, driven high, not driven, or driven as it was. */
  predicate AtSafeLevel(level: SafeLevel, was: Pin, now: Pin) {
    && now.external == was.external
    && match level
       case Low => now.mode == Output && !now.level
       case High => now.mode == Output && now.level
       case HighZ => now.mode == Input && now.level == was.level
       case Hold => SameDrive(now, was)
  }

  /** Only a pin left driven by its safe level still counts as an active output. */
  predicate SafeFlag(level: SafeLevel, was: bool, now: bool) {
    match level
    case Low => !now
    case High => now
    case HighZ => !now
    case Hold => now == was
  }

  /** Every pin is as before, or at the level configured for it. */
  ghost predicate OnlySafeMoves(s: State, s': State) {
    && |s.pins| == |s'.pins| == |s.configs|
    && forall p :: 0 <= p < |s.pins| ==>
         SameDrive(s'.pins[p], s.pins[p]) || AtSafeLevel(s.configs[p].level, s.pins[p], s'.pins[p])
  }

  lemma {:induction false} UnarmedStep(b: Board, s: State, e: Event)
    requires ValidBoard(b) && Inv(b, s) && s.phase != Armed && !(e.Cmd? && e.c.Arm?)
    ensures Step(b, s, e).phase != Armed && OnlySafeMoves(s, Step(b, s, e))
  {
    match e
    case Pulses => PollIdle(b, s, PULSES);
    case Cmd(c) => UnarmedCommand(b, s, c);
    case _ =>
  }

  lemma {:induction false} UnarmedCommand(b: Board, s: State, c: Command)
    requires ValidBoard(b) && Inv(b, s) && s.phase != Armed && !c.Arm?
    ensures Handle(b, s, c).0.phase != Armed && OnlySafeMoves(s, Handle(b, s, c).0)
  {
  }

  /** No arm command in the list. */
  ghost predicate NoArm(es: seq<Event>) {
    forall k :: 0 <= k < |es| ==> !(es[k].Cmd? && es[k].c.Arm?)
  }

  /**
   From any state that is not armed, until an arm command: never armed, nothing
   pulsing or modulated, and each step leaves each pin alone or puts it at its
   configured safe level.
   */
  lemma {:induction false} UnarmedRunMovesOnlyToSafe(b: Board, s: State, es: seq<Event>, k: nat)
    requires ValidBoard(b) && Inv(b, s) && s.phase != Armed && NoArm(es) && k < |es|
    ensures var before, after := Run(b, s, es[..k]), Run(b, s, es[..k + 1]);
      before.phase != Armed && Idle(before) && after.phase != Armed && Idle(after) && OnlySafeMoves(before, after)
  {
    UnarmedRun(b, s, es[..k]);
    RunKeeps(b, s, es[..k]);
    RunSplit(b, s, es, k);
    UnarmedStep(b, Run(b, s, es[..k]), es[k]);
    StepKeeps(b, Run(b, s, es[..k]), es[k]);
  }

  lemma {:induction false} UnarmedRun(b: Board, s: State, es: seq<Event>)
    requires ValidBoard(b) && Inv(b, s) && s.phase != Armed && NoArm(es)
    ensures Run(b, s, es).phase != Armed
    decreases |es|
  {
    if es != [] {
      UnarmedRun(b, s, es[..|es| - 1]);
      RunKeeps(b, s, es[..|es| - 1]);
      UnarmedStep(b, Run(b, s, es[..|es| - 1]), es[|es| - 1]);
    }
  }

  /** The step ends an armed session, or is a command to disarm or to stop. */
  predicate Stops(b: Board, s: State, e: Event)
    requires ValidBoard(b) && Sized(b, s)
  {
    || (s.phase == Armed && Step(b, s, e).phase != Armed)
    || e == Cmd(Disarm) || e == Cmd(StopAll)
  }

  /**
   Whatever stops the outputs, trip, disarm or stop, leaves every active or configured pin at its
   safe level and every other pin alone, so no pin stays driven high unless its safe level is high
   or hold, and ends every pulse and PWM channel.
   */
  lemma {:induction false} SessionEndDeenergizes(b: Board, s: State, e: Event)
    requires ValidBoard(b) && Inv(b, s) && Stops(b, s, e)
    ensures var s' := Step(b, s, e);
      && Idle(s') && Sized(b, s') && s'.configs == s.configs
      && (forall p :: 0 <= p < |s.pins| && (s.active[p] || s.configs[p].configured) ==>
            && AtSafeLevel(s.configs[p].level, s.pins[p], s'.pins[p])
            && SafeFlag(s.configs[p].level, s.active[p], s'.active[p]))
      && (forall p :: 0 <= p < |s.pins| && !s.active[p] && !s.configs[p].configured ==>
            s'.pins[p] == s.pins[p] && !s'.active[p])
      && (forall p :: 0 <= p < |s.pins| && DrivenHigh(s'.pins[p]) ==> s.configs[p].level in {High, Hold})
  {
    StepKeeps(b, s, e);
    ApplySafeKeeps(b, s);
    if s.phase == Armed && Step(b, s, e).phase != Armed { HandleStaysArmed(b, s, e); }
  }

  lemma {:induction false} HandleStaysArmed(b: Board, s: State, e: Event)
    requires ValidBoard(b) && Sized(b, s) && s.phase == Armed && Step(b, s, e).phase != Armed
    ensures e.Poll? || e == Cmd(Disarm)
    ensures var s', safe := Step(b, s, e), ApplySafeState(b, s);
            s'.pins == safe.pins && s'.active == safe.active && s'.configs == s.configs
  {
    if e.Cmd? && e.c.Act? && !ValidityOver(e.c.validityMs) {
      ActionKeepsMachine(b, Touch(s), e.c.action);
    } else if e.Pulses? {
      PollKeepsMachine(b, s, PULSES);
    }
  }

  // ---- The pulse table over runs ----

  predicate WritesPin(writes: seq<(Field<int>, Field<bool>)>, p: int) {
    exists i :: 0 <= i < |writes| && writes[i].0 == Value(p)
  }

  /** The command names this pin as one to drive or configure. */
  predicate Addresses(a: Actuation, p: int) {
    match a
    case SetMode(pin, _, _, _) => pin == Value(p)
    case Write(pin, _) => pin == Value(p)
    case BatchWrite(writes) => writes.Some? && WritesPin(writes.value, p)
    case Toggle(pin) => pin == Value(p)
    case StartPulse(pin, _, _) => pin == Value(p)
    case Pwm(pin, _, _, _) => pin == Value(p)
    case Servo(pin, _) => pin == Value(p)
    case Motor(pwmPin, dirPin, _) => pwmPin == Value(p) || dirPin == Value(p)
  }

  /** The step stops outputs, or is a command about this pin. */
  predicate Disturbs(b: Board, s: State, e: Event, p: int)
    requires ValidBoard(b) && Sized(b, s)
  {
    match e
    case Poll => CheckWatchdog(b, s).phase != s.phase
    case Cmd(Disarm) => true
    case Cmd(StopAll) => true
    case Cmd(Act(_, a)) => Addresses(a, p)
    case _ => false
  }

  /** Pin p, and the pulse on it if any, are the same up to the surroundings. */
  ghost predicate SameFor(s: State, s': State, p: nat) {
    && |s.pins| == |s'.pins| && p < |s.pins| && |s.pulses| == |s'.pulses|
    && SameDrive(s'.pins[p], s.pins[p])
    && forall i :: 0 <= i < |s.pulses| ==>
         (s.pulses[i].active && s.pulses[i].pin == p ==> s'.pulses[i] == s.pulses[i]) &&
         (s'.pulses[i].active && s'.pulses[i].pin == p ==> s'.pulses[i] == s.pulses[i])
  }

  lemma {:induction false} SameForTransitive(s: State, t: State, u: State, p: nat)
    requires SameFor(s, t, p) && SameFor(t, u, p)
    ensures SameFor(s, u, p)
  {
  }

  lemma {:induction false} OtherDrive(b: Board, s: State, q: nat, level: bool, p: nat)
    requires Sized(b, s) && q < |s.pins| && p < |s.pins| && p != q
    ensures SameFor(s, Drive(b, s, q, level), p) && SameFor(s, CancelPulse(s, q), p)
  {
  }

  lemma {:induction false} OtherBatch(b: Board, s: State, writes: seq<(Field<int>, Field<bool>)>, p: nat)
    requires Sized(b, s) && p < |s.pins|
    requires forall i :: 0 <= i < |writes| ==> GoodWrite(b, writes[i]) && writes[i].0 != Value(p)
    ensures SameFor(s, ApplyBatch(b, s, writes), p)
    decreases |writes|
  {
    if writes != [] {
      var init, last := writes[..|writes| - 1], writes[|writes| - 1];
      assert GoodWrite(b, last);
      OtherBatch(b, s, init, p);
      var s1 := ApplyBatch(b, s, init);
      var s2 := CancelPulse(s1, last.0.value);
      OtherDrive(b, s1, last.0.value, last.1.value, p);
      OtherDrive(b, s2, last.0.value, last.1.value, p);
      SameForTransitive(s1, s2, Drive(b, s2, last.0.value, last.1.value), p);
      SameForTransitive(s, s1, Drive(b, s2, last.0.value, last.1.value), p);
    }
  }

  lemma {:induction false} OtherPulse(b: Board, s: State, pin: Field<int>, value: Field<bool>, durationMs: Field<int>,
                                      p: nat)
    requires Inv(b, s) && p < |s.pins| && pin != Value(p)
    ensures SameFor(s, HandlePulse(b, s, pin, value, durationMs).0, p)
  {
    if pin.Value? { SlotFound(s.pulses, pin.value, 0, PULSES); }
  }

  lemma {:induction false} OtherMotor(b: Board, s: State, pwmPin: Field<int>, dirPin: Field<int>, speed: Field<real>,
                                      p: nat)
    requires ValidBoard(b) && Inv(b, s) && p < |s.pins| && pwmPin != Value(p) && dirPin != Value(p)
    ensures SameFor(s, HandleMotor(b, s, pwmPin, dirPin, speed).0, p)
  {
  }

  lemma {:induction false} OtherAction(b: Board, s: State, a: Actuation, p: nat)
    requires ValidBoard(b) && Inv(b, s) && p < |s.pins| && !Addresses(a, p)
    ensures SameFor(s, HandleAction(b, s, a).0, p)
  {
    match a
    case BatchWrite(writes) =>
      if writes.Some? && BatchFault(b, writes.value) == Ok { OtherBatch(b, s, writes.value, p); }
    case StartPulse(pin, value, durationMs) => OtherPulse(b, s, pin, value, durationMs, p);
    case Motor(pwmPin, dirPin, speed) => OtherMotor(b, s, pwmPin, dirPin, speed, p);
    case _ =>
  }

  /** A step that neither stops outputs nor polls pulses nor addresses p leaves p's pin and pulse alone. */
  lemma {:induction false} UndisturbedStep(b: Board, s: State, e: Event, p: nat)
    requires ValidBoard(b) && Inv(b, s) && p < |s.pins| && !Disturbs(b, s, e, p) && !e.Pulses?
    ensures SameFor(s, Step(b, s, e), p)
  {
    if e.Cmd? && e.c.Act? && s.phase == Armed && !ValidityOver(e.c.validityMs) {
      TouchKeeps(b, s);
      OtherAction(b, Touch(s), e.c.action, p);
      assert SameFor(s, Touch(s), p);
      SameForTransitive(s, Touch(s), Step(b, s, e), p);
    }
  }

  // ---- Polling: a pulse's end is on time and touches its own pin only ----

  /** What polling may do to pin p: nothing, or end its one pulse by restoring the saved level. */
  ghost predicate Restores(s: State, s': State, p: nat) {
    || SameFor(s, s', p)
    || (&& |s.pins| == |s'.pins| && p < |s.pins| && |s.pulses| == |s'.pulses|
        && NotPulsing(s'.pulses, p) && s'.pins[p].mode == s.pins[p].mode
        && exists i :: 0 <= i < |s.pulses| && s.pulses[i].active && s.pulses[i].pin == p
             && s'.pins[p].level == s.pulses[i].previous && Due(Millis(s.now), s.pulses[i].until))
  }

  lemma {:induction false} PollPulseFor(b: Board, s: State, i: nat, p: nat)
    requires Inv(b, s) && i < PULSES && p < |s.pins|
    ensures s.pulses[i].active && s.pulses[i].pin == p && Due(Millis(s.now), s.pulses[i].until) ==>
      NotPulsing(PollPulse(b, s, i).pulses, p) &&
        PollPulse(b, s, i).pins[p] == s.pins[p].(level := s.pulses[i].previous)
    ensures !(s.pulses[i].active && s.pulses[i].pin == p && Due(Millis(s.now), s.pulses[i].until)) ==>
      SameFor(s, PollPulse(b, s, i), p)
    ensures PollPulse(b, s, i).now == s.now
  {
  }

  lemma {:induction false} PollPulsesFor(b: Board, s: State, n: nat, p: nat)
    requires Inv(b, s) && n <= PULSES && p < |s.pins|
    ensures Restores(s, PollPulses(b, s, n), p) && PollPulses(b, s, n).now == s.now
    decreases n
  {
    if n > 0 {
      var s1 := PollPulses(b, s, n - 1);
      PollPulsesKeeps(b, s, n - 1);
      PollPulsesFor(b, s, n - 1, p);
      PollPulseFor(b, s1, n - 1, p);
      RestoresThen(b, s, s1, n - 1, p);
    }
  }

  lemma {:induction false} RestoresThen(b: Board, s: State, s1: State, i: nat, p: nat)
    requires Inv(b, s) && Inv(b, s1) && i < PULSES && p < |s.pins| && Restores(s, s1, p) && s1.now == s.now
    ensures Restores(s, PollPulse(b, s1, i), p)
  {
    var s2 := PollPulse(b, s1, i);
    PollPulseFor(b, s1, i, p);
    if SameFor(s, s1, p) {
      if s1.pulses[i].active && s1.pulses[i].pin == p && Due(Millis(s.now), s1.pulses[i].until) {
        assert s.pulses[i] == s1.pulses[i];
      } else {
        SameForTransitive(s, s1, s2, p);
      }
    } else {
      assert SameFor(s1, s2, p);
    }
  }

  // ---- Writes stand, trains of pulses restore ----

  /** No step along the run disturbs pin p. */
  ghost predicate Undisturbed(b: Board, s: State, es: seq<Event>, p: nat)
    requires ValidBoard(b) && Sized(b, s)
  {
    es == [] ||
    (var init := es[..|es| - 1];
     Undisturbed(b, s, init, p) && !Disturbs(b, Run(b, s, init), es[|es| - 1], p))
  }

  /** With no pulse on it, a pin keeps its level through any run that does not disturb it. */
  lemma {:induction false} LevelStands(b: Board, s: State, es: seq<Event>, p: nat)
    requires ValidBoard(b) && Inv(b, s) && p < |s.pins| && NotPulsing(s.pulses, p) && Undisturbed(b, s, es, p)
    ensures var s' := Run(b, s, es); NotPulsing(s'.pulses, p) && SameDrive(s'.pins[p], s.pins[p])
    decreases |es|
  {
    if es != [] {
      var init, e := es[..|es| - 1], es[|es| - 1];
      var s1 := Run(b, s, init);
      LevelStands(b, s, init, p);
      RunKeeps(b, s, init);
      if e.Pulses? {
        PollPulsesFor(b, s1, PULSES, p);
      } else {
        UndisturbedStep(b, s1, e, p);
      }
    }
  }

  /** The pin is an output at this level, and no pulse is going to change it. */
  ghost predicate RestsAt(s: State, p: nat, level: bool) {
    p < |s.pins| && s.pins[p].mode == Output && s.pins[p].level == level && NotPulsing(s.pulses, p)
  }

  lemma {:induction false} RestStands(b: Board, s: State, es: seq<Event>, p: nat, level: bool)
    requires ValidBoard(b) && Inv(b, s) && RestsAt(s, p, level) && Undisturbed(b, s, es, p)
    ensures RestsAt(Run(b, s, es), p, level)
  {
    LevelStands(b, s, es, p);
  }

  lemma {:induction false} AcceptedWriteRests(b: Board, s: State, pin: Field<int>, value: Field<bool>)
    requires Sized(b, s) && PulsesInv(b, s) && HandleWrite(b, s, pin, value).1 == Ok
    ensures pin.Value? && value.Value? && IsWritable(b, pin.value)
    ensures RestsAt(HandleWrite(b, s, pin, value).0, pin.value, value.value)
  {
    CancelKeeps(b, Drive(b, s, pin.value, value.value), pin.value);
  }

  /** An accepted write stands: no earlier pulse ever overwrites it. */
  lemma {:induction false} WriteStands(b: Board, s: State, validityMs: Field<int>, p: nat, value: bool, es: seq<Event>)
    requires ValidBoard(b) && Inv(b, s)
    requires Handle(b, s, Act(validityMs, Write(Value(p), Value(value)))).1 == Ok
    requires Undisturbed(b, Handle(b, s, Act(validityMs, Write(Value(p), Value(value)))).0, es, p)
    ensures RestsAt(Run(b, Handle(b, s, Act(validityMs, Write(Value(p), Value(value)))).0, es), p, value)
  {
    var s1 := AfterWrite(b, s, validityMs, p, value);
    RestStands(b, s1, es, p, value);
  }

  /** Reading a pin back gives the level written to it. */
  lemma {:induction false} WriteReadsBack(b: Board, s: State, validityMs: Field<int>, p: nat, value: bool,
                                          es: seq<Event>)
    requires ValidBoard(b) && Inv(b, s)
    requires Handle(b, s, Act(validityMs, Write(Value(p), Value(value)))).1 == Ok
    requires Undisturbed(b, Handle(b, s, Act(validityMs, Write(Value(p), Value(value)))).0, es, p)
    ensures var s1 := Run(b, Handle(b, s, Act(validityMs, Write(Value(p), Value(value)))).0, es);
            Handle(b, s1, Read(Value(p))).1 == Level(value)
  {
    WriteStands(b, s, validityMs, p, value, es);
    TouchKeeps(b, s);
    AcceptedWriteRests(b, Touch(s), Value(p), Value(value));
  }

  lemma {:induction false} AfterWrite(b: Board, s: State, validityMs: Field<int>, p: nat, value: bool)
    returns (s1: State)
    requires ValidBoard(b) && Inv(b, s)
    requires Handle(b, s, Act(validityMs, Write(Value(p), Value(value)))).1 == Ok
    ensures s1 == Handle(b, s, Act(validityMs, Write(Value(p), Value(value)))).0
    ensures Inv(b, s1) && RestsAt(s1, p, value)
  {
    TouchKeeps(b, s);
    HandleKeeps(b, s, Act(validityMs, Write(Value(p), Value(value))));
    AcceptedWriteRests(b, Touch(s), Value(p), Value(value));
    s1 := HandleWrite(b, Touch(s), Value(p), Value(value)).0;
  }

  /** Pin p is pulsing and will return to `base`, or is an output resting at `base`. */
  ghost predicate Returns(s: State, p: nat, base: bool) {
    && p < |s.pins| && s.pins[p].mode == Output
    && (|| (NotPulsing(s.pulses, p) && s.pins[p].level == base)
        || exists i :: 0 <= i < |s.pulses| && s.pulses[i].active && s.pulses[i].pin == p &&
             s.pulses[i].previous == base)
  }

  predicate PulseOn(e: Event, p: nat) {
    e.Cmd? && e.c.Act? && e.c.action.StartPulse? && e.c.action.pin == Value(p)
  }

  lemma {:induction false} PulseReturns(b: Board, s: State, value: Field<bool>, durationMs: Field<int>, p: nat,
                                        base: bool)
    requires Inv(b, s) && s.phase == Armed && p < |s.pins| && Returns(s, p, base)
    ensures Returns(HandlePulse(b, s, Value(p), value, durationMs).0, p, base)
  {
    SlotFound(s.pulses, p, 0, PULSES);
    if HandlePulse(b, s, Value(p), value, durationMs).1 == Ok {
      var slot := FindSlot(s.pulses, p, 0, PULSES);
      var s' := HandlePulse(b, s, Value(p), value, durationMs).0;
      assert s'.pulses[slot].active && s'.pulses[slot].pin == p && s'.pulses[slot].previous == base;
    }
  }

  lemma {:induction false} FirstPulseReturns(b: Board, s: State, value: Field<bool>, durationMs: Field<int>, p: nat)
    requires Inv(b, s) && s.phase == Armed && p < |s.pins| && NotPulsing(s.pulses, p)
    requires HandlePulse(b, s, Value(p), value, durationMs).1 == Ok
    ensures Returns(HandlePulse(b, s, Value(p), value, durationMs).0, p, DigitalRead(s.pins[p]))
  {
    SlotFound(s.pulses, p, 0, PULSES);
    var slot := FindSlot(s.pulses, p, 0, PULSES);
    var s' := HandlePulse(b, s, Value(p), value, durationMs).0;
    assert s'.pulses[slot].active && s'.pulses[slot].pin == p;
  }

  lemma {:induction false} SameForReturns(s: State, s': State, p: nat, base: bool)
    requires SameFor(s, s', p) && Returns(s, p, base)
    ensures Returns(s', p, base)
  {
  }

  lemma {:induction false} PulseCommandReturns(b: Board, s: State, validityMs: Field<int>, a: Actuation, p: nat,
                                               base: bool)
    requires ValidBoard(b) && Inv(b, s) && Returns(s, p, base) && a.StartPulse? && a.pin == Value(p)
    ensures Returns(HandleAct(b, s, validityMs, a).0, p, base)
  {
    if s.phase == Armed && !ValidityOver(validityMs) {
      TouchKeeps(b, s);
      PulseReturns(b, Touch(s), a.value, a.durationMs, p, base);
    }
  }

  lemma {:induction false} ReturnsStep(b: Board, s: State, e: Event, p: nat, base: bool)
    requires ValidBoard(b) && Inv(b, s) && Returns(s, p, base)
    requires PulseOn(e, p) || !Disturbs(b, s, e, p)
    ensures Returns(Step(b, s, e), p, base)
  {
    if PulseOn(e, p) {
      PulseCommandReturns(b, s, e.c.validityMs, e.c.action, p, base);
    } else if e.Pulses? {
      PollReturns(b, s, p, base);
    } else {
      UndisturbedStep(b, s, e, p);
      SameForReturns(s, Step(b, s, e), p, base);
    }
  }

  lemma {:induction false} PollReturns(b: Board, s: State, p: nat, base: bool)
    requires Inv(b, s) && Returns(s, p, base)
    ensures Returns(PollPulses(b, s, PULSES), p, base)
  {
    PollPulsesFor(b, s, PULSES, p);
    if SameFor(s, PollPulses(b, s, PULSES), p) {
      SameForReturns(s, PollPulses(b, s, PULSES), p, base);
    }
  }

  /** Each step starts another pulse on p or does not disturb p. */
  ghost predicate TrainOn(b: Board, s: State, es: seq<Event>, p: nat)
    requires ValidBoard(b) && Sized(b, s)
  {
    es == [] ||
    (var init, e := es[..|es| - 1], es[|es| - 1];
     TrainOn(b, s, init, p) && (PulseOn(e, p) || !Disturbs(b, Run(b, s, init), e, p)))
  }

  lemma {:induction false} ReturnsRun(b: Board, s: State, es: seq<Event>, p: nat, base: bool)
    requires ValidBoard(b) && Inv(b, s) && Returns(s, p, base) && TrainOn(b, s, es, p)
    ensures Returns(Run(b, s, es), p, base)
    decreases |es|
  {
    if es != [] {
      var init := es[..|es| - 1];
      ReturnsRun(b, s, init, p, base);
      RunKeeps(b, s, init);
      ReturnsStep(b, Run(b, s, init), es[|es| - 1], p, base);
    }
  }

  /**
   A train of pulses on a pin, overlapping or not, however it is interleaved with
   everything that does not address the pin, returns the pin to the level it read
   before the first pulse.
   */
  lemma {:induction false} TrainRestoresFirstLevel(b: Board, s: State, validityMs: Field<int>, value: Field<bool>,
                                                   durationMs: Field<int>,
                                p: nat, es: seq<Event>)
    requires ValidBoard(b) && Inv(b, s) && p < |s.pins| && NotPulsing(s.pulses, p)
    requires Handle(b, s, Act(validityMs, StartPulse(Value(p), value, durationMs))).1 == Ok
    requires TrainOn(b, Handle(b, s, Act(validityMs, StartPulse(Value(p), value, durationMs))).0, es, p)
    ensures var s' := Run(b, Handle(b, s, Act(validityMs, StartPulse(Value(p), value, durationMs))).0, es);
      Returns(s', p, DigitalRead(s.pins[p]))
  {
    var c := Act(validityMs, StartPulse(Value(p), value, durationMs));
    HandleKeeps(b, s, c);
    TouchKeeps(b, s);
    FirstPulseReturns(b, Touch(s), value, durationMs, p);
    ReturnsRun(b, Handle(b, s, c).0, es, p, DigitalRead(s.pins[p]));
  }

  lemma {:induction false} PollsEnd(b: Board, s: State, n: nat, i: nat)
    requires Inv(b, s) && i < n <= PULSES && s.pulses[i].active
    ensures PollPulses(b, s, n).pulses[i].active <==> !Due(Millis(s.now), s.pulses[i].until)
    ensures PollPulses(b, s, n).now == s.now
    decreases n
  {
    PollPulsesKeeps(b, s, n - 1);
    PollFrame(b, s, n - 1);
    if i < n - 1 {
      PollsEnd(b, s, n - 1, i);
      PollOther(b, PollPulses(b, s, n - 1), n - 1, i);
    }
  }

  lemma {:induction false} PollOther(b: Board, s: State, i: nat, j: nat)
    requires Sized(b, s) && i < PULSES && j < PULSES && i != j
    ensures PollPulse(b, s, i).pulses[j] == s.pulses[j] && PollPulse(b, s, i).now == s.now
  {
  }

  /** Slots not yet visited are as they were. */
  lemma {:induction false} PollFrame(b: Board, s: State, n: nat)
    requires Sized(b, s) && n <= PULSES
    ensures PollPulses(b, s, n).now == s.now
    ensures forall i :: n <= i < PULSES ==> PollPulses(b, s, n).pulses[i] == s.pulses[i]
  {
    if n > 0 { PollFrame(b, s, n - 1); }
  }

  /** A poll near the due time ends a pulse exactly when its time has truly come. */
  lemma {:induction false} PulseEndsOnTime(b: Board, s: State, i: nat)
    requires Inv(b, s) && i < PULSES && s.pulses[i].active
    requires -(HALF as int) <= s.now - s.pulses[i].due < HALF
    ensures PollPulses(b, s, PULSES).pulses[i].active <==> s.now < s.pulses[i].due
  {
    PollsEnd(b, s, PULSES, i);
    WrappedDifference(s.now, s.pulses[i].due);
  }

  lemma {:induction false} WrappedDifference(now: nat, due: nat)
    ensures Due(Millis(now), Millis(due)) <==> (now - due) % WRAP < HALF
  {
    var k := now / WRAP - due / WRAP;
    assert Millis(now) - Millis(due) == (now - due) - k * WRAP;
    ModShift(now - due, -k);
  }

  // ---- The watchdog over runs, inherited from the armed session ----

  /** The command came too late for the validity it was given. */
  predicate Expires(validityMs: Field<int>) {
    validityMs.Value? && validityMs.value <= 0
  }

  /** The move of the armed session that an event makes. */
  function LabelOf(b: Board, s: State, e: Event): Label
    requires ValidBoard(b) && Sized(b, s)
  {
    match e
    case Tick(ms) => Wait(ms)
    case Poll => Check
    case Cmd(Arm(Value(ms))) => if ms >= 0 then Begin(ms) else Stay
    case Cmd(Arm(_)) => Begin(s.timeout)
    case Cmd(Configure(Value(ms))) => if ms >= 0 then Retime(ms) else Stay
    case Cmd(Kick(validityMs)) => if s.phase == Armed && !Expires(validityMs) then Beat else Stay
    case Cmd(Act(validityMs, _)) => if s.phase == Armed && !Expires(validityMs) then Beat else Stay
    case Cmd(Disarm) => Halt
    case _ => Stay
  }

  /** Every step refines the armed session. */
  lemma {:induction false} StepRefines(b: Board, s: State, e: Event)
    requires ValidBoard(b) && Inv(b, s)
    ensures Abstract(Step(b, s, e)) == Do(Abstract(s), LabelOf(b, s, e))
  {
    match e
    case Pulses => PollKeepsMachine(b, s, PULSES);
    case Cmd(Act(_, a)) => ActionKeepsMachine(b, Touch(s), a);
    case _ =>
  }

  function LabelsOf(b: Board, s: State, es: seq<Event>): (ls: seq<Label>)
    requires ValidBoard(b) && Sized(b, s)
    ensures |ls| == |es|
  {
    if es == [] then [] else LabelsOf(b, s, es[..|es| - 1]) + [LabelOf(b, Run(b, s, es[..|es| - 1]), es[|es| - 1])]
  }

  lemma {:induction false} LabelsPrefix(b: Board, s: State, es: seq<Event>, k: nat)
    requires ValidBoard(b) && Sized(b, s) && k <= |es|
    ensures LabelsOf(b, s, es)[..k] == LabelsOf(b, s, es[..k])
    decreases |es|
  {
    if k == |es| {
      assert es[..k] == es;
    } else {
      var init := es[..|es| - 1];
      assert init[..k] == es[..k];
      LabelsPrefix(b, s, init, k);
    }
  }

  lemma {:induction false} RunRefines(b: Board, s: State, es: seq<Event>)
    requires ValidBoard(b) && Inv(b, s)
    ensures Abstract(Run(b, s, es)) == DoAll(Abstract(s), LabelsOf(b, s, es))
    decreases |es|
  {
    if es != [] {
      var init := es[..|es| - 1];
      RunRefines(b, s, init);
      RunKeeps(b, s, init);
      StepRefines(b, Run(b, s, init), es[|es| - 1]);
      assert LabelsOf(b, s, es)[..|init|] == LabelsOf(b, s, init);
    }
  }

  /** The watchdog is polled at least every `gap` milliseconds along the run. */
  ghost predicate PolledWithin(b: Board, s: State, es: seq<Event>, gap: nat)
    requires ValidBoard(b) && Sized(b, s)
  {
    forall k :: 0 <= k <= |es| ==> Run(b, s, es[..k]).now - Run(b, s, es[..k]).lastPoll <= gap
  }

  /** A timeout is read from the message as a 32-bit int. */
  predicate IntTimeout(e: Event) {
    match e
    case Cmd(Arm(Value(ms))) => ms < HALF
    case Cmd(Configure(Value(ms))) => ms < HALF
    case _ => true
  }

  ghost predicate IntTimeouts(es: seq<Event>) {
    forall k :: 0 <= k < |es| ==> IntTimeout(es[k])
  }

  predicate WithinRange(l: Label) {
    l.Begin? || l.Retime? ==> l.timeout <= HALF
  }

  lemma {:induction false} StepTimeout(b: Board, s: State, e: Event)
    requires ValidBoard(b) && Inv(b, s) && s.timeout <= HALF && IntTimeout(e)
    ensures Step(b, s, e).timeout <= HALF && WithinRange(LabelOf(b, s, e))
  {
    StepRefines(b, s, e);
  }

  lemma {:induction false} RunTimeout(b: Board, s: State, es: seq<Event>)
    requires ValidBoard(b) && Inv(b, s) && s.timeout <= HALF && IntTimeouts(es)
    ensures Run(b, s, es).timeout <= HALF
    ensures forall k :: 0 <= k < |es| ==> WithinRange(LabelsOf(b, s, es)[k])
    decreases |es|
  {
    if es != [] {
      var init := es[..|es| - 1];
      assert forall k :: 0 <= k < |init| ==> init[k] == es[k];
      RunTimeout(b, s, init);
      RunKeeps(b, s, init);
      StepTimeout(b, Run(b, s, init), es[|es| - 1]);
    }
  }

  lemma {:induction false} RunPrompt(b: Board, s: State, es: seq<Event>, gap: nat)
    requires ValidBoard(b) && Inv(b, s) && s.timeout <= HALF && IntTimeouts(es) && PolledWithin(b, s, es, gap)
    ensures Prompt(Abstract(s), LabelsOf(b, s, es), gap)
  {
    var ls := LabelsOf(b, s, es);
    RunTimeout(b, s, es);
    forall k | 0 <= k <= |ls| ensures DoAll(Abstract(s), ls[..k]).now - DoAll(Abstract(s), ls[..k]).lastPoll <= gap {
      LabelsPrefix(b, s, es, k);
      RunRefines(b, s, es[..k]);
    }
    assert forall k :: 0 <= k < |ls| ==> WithinRange(ls[k]);
  }

  /** A poll less than 2^31 ms past the deadline trips exactly when the timeout has truly passed. */
  lemma {:induction false} PollTripsExactly(b: Board, s: State)
    requires ValidBoard(b) && Inv(b, s) && Watching(s) && s.timeout <= HALF && s.now - s.lastTouch < s.timeout + HALF
    ensures Step(b, s, Poll).phase == Tripped <==> s.now - s.lastTouch >= s.timeout
  {
    DueExactly(s.lastTouch, s.timeout, s.now);
  }

  /**
   From power-up, polled at least every `gap` milliseconds: a watched session is never
   `timeout + gap` past its last heartbeat, and a poll trips it exactly when the timeout
   has truly passed, however often the counter wrapped and the timeout changed.
   */
  lemma {:induction false} WatchdogHonest(b: Board, pins: seq<Pin>, es: seq<Event>, gap: nat)
    requires ValidBoard(b) && |pins| == |b.readable|
    requires forall p :: 0 <= p < |pins| ==> pins[p].mode == Input
    requires gap <= HALF && IntTimeouts(es) && PolledWithin(b, Boot(b, pins), es, gap)
    requires Watching(Run(b, Boot(b, pins), es))
    ensures var s := Run(b, Boot(b, pins), es);
      && s.now - s.lastTouch < s.timeout + gap
      && (Step(b, s, Poll).phase == Tripped <==> s.now - s.lastTouch >= s.timeout)
  {
    var s0 := Boot(b, pins);
    BootInv(b, pins);
    RunPrompt(b, s0, es, gap);
    RunRefines(b, s0, es);
    RunKeeps(b, s0, es);
    NoSilentSession(Abstract(s0), LabelsOf(b, s0, es), gap);
    TripsExactlyWhenSilent(Abstract(s0), LabelsOf(b, s0, es), gap);
    StepRefines(b, Run(b, s0, es), Poll);
  }
}
