/** What every run of the ESP32 bridge keeps, whatever the commands and the timing. */
module Esp32Safety {
  import opened Prelude
  import opened ArmedSession
  import opened Esp32

  // ---- The invariant ----

  ghost predicate Idle(s: State) {
    && (forall i :: 0 <= i < |s.pulses| ==> !s.pulses[i].active)
    && (forall c :: 0 <= c < |s.pwm| ==> s.pwm[c] == NO_PIN)
    && (forall c :: 0 <= c < |s.duty| ==> s.duty[c] == 0)
  }

  /** Running pulses name distinct writable pins that count as active outputs. */
  ghost predicate PulsesInv(b: Board, s: State) {
    && (forall i :: 0 <= i < |s.pulses| && s.pulses[i].active ==>
          IsWritable(b, s.pulses[i].pin) && s.pulses[i].pin < |s.active| && s.active[s.pulses[i].pin])
    && (forall i, j :: 0 <= i < j < |s.pulses| && s.pulses[i].active && s.pulses[j].active ==>
          s.pulses[i].pin != s.pulses[j].pin)
    && (forall i :: 0 <= i < |s.pulses| && s.pulses[i].active ==> s.pulses[i].until == Millis(s.pulses[i].due))
  }

  predicate DrivenHigh(pin: Pin) {
    pin.mode == Output && pin.level
  }

  /** Every pin driven high counts as an active output. */
  ghost predicate OutputsInv(s: State) {
    |s.pins| == |s.active| && forall p :: 0 <= p < |s.pins| && DrivenHigh(s.pins[p]) ==> s.active[p]
  }

  ghost predicate ClockInv(s: State) {
    && s.lastTouch <= s.now && s.lastPoll <= s.now
    && (s.enabled <==> s.timeout > 0)
    && (Watching(s) ==> s.deadline == DeadlineAfter(s.lastTouch, s.timeout))
  }

  ghost predicate Inv(b: Board, s: State) {
    && Sized(b, s)
    && ClockInv(s)
    && (s.phase != Armed ==> Idle(s))
    && PulsesInv(b, s)
    && OutputsInv(s)
  }

  lemma {:induction false} BootInv(b: Board, pins: seq<Pin>)
    requires |pins| == |b.readable| == |b.writable|
    requires forall p :: 0 <= p < |pins| ==> pins[p].mode == Input
    ensures Inv(b, Boot(b, pins))
  {
  }

  // ---- Each kind of step keeps it ----

  lemma {:induction false} ApplySafeKeeps(b: Board, s: State)
    requires Sized(b, s) && ClockInv(s) && OutputsInv(s)
    ensures Inv(b, ApplySafeState(b, s)) && Idle(ApplySafeState(b, s))
  {
  }

  lemma {:induction false} TouchKeeps(b: Board, s: State)
    requires Inv(b, s)
    ensures Inv(b, Touch(s))
  {
  }

  lemma {:induction false} CancelKeeps(b: Board, s: State, pin: int)
    requires Sized(b, s) && PulsesInv(b, s)
    ensures PulsesInv(b, CancelPulse(s, pin))
    ensures forall i :: 0 <= i < PULSES ==>
              !(CancelPulse(s, pin).pulses[i].active && CancelPulse(s, pin).pulses[i].pin == pin)
  {
  }

  lemma {:induction false} DriveKeeps(b: Board, s: State, p: nat, level: bool)
    requires Inv(b, s) && p < |s.pins|
    ensures Inv(b, Drive(b, s, p, level))
  {
  }

  lemma {:induction false} CancelKeepsInv(b: Board, s: State, pin: int)
    requires Inv(b, s)
    ensures Inv(b, CancelPulse(s, pin))
  {
    CancelKeeps(b, s, pin);
  }

  lemma {:induction false} AttachKeeps(b: Board, s: State, p: nat, channel: nat, duty: int)
    requires Inv(b, s) && s.phase == Armed && p < |s.pins| && channel < b.pwmChannels
    ensures Inv(b, Attach(b, s, p, channel, duty))
  {
    CancelKeepsInv(b, s, p);
  }

  lemma {:induction false} PollPulseKeeps(b: Board, s: State, i: nat)
    requires Inv(b, s) && i < PULSES
    ensures Inv(b, PollPulse(b, s, i))
  {
  }

  lemma {:induction false} PollPulsesKeeps(b: Board, s: State, n: nat)
    requires Inv(b, s) && n <= PULSES
    ensures Inv(b, PollPulses(b, s, n))
  {
    if n > 0 {
      PollPulsesKeeps(b, s, n - 1);
      PollPulseKeeps(b, PollPulses(b, s, n - 1), n - 1);
    }
  }

  lemma {:induction false} HandleModeKeeps(b: Board, s: State, pin: Field<int>, mode: Name<PinMode>,
                                           level: Name<SafeLevel>, activeLow: Name<bool>)
    requires Inv(b, s)
    ensures Inv(b, HandleMode(b, s, pin, mode, level, activeLow).0)
  {
    if pin.Value? { CancelKeepsInv(b, s, pin.value); }
  }

  lemma {:induction false} ApplyBatchKeeps(b: Board, s: State, writes: seq<(Field<int>, Field<bool>)>)
    requires Inv(b, s) && forall i :: 0 <= i < |writes| ==> GoodWrite(b, writes[i])
    ensures Inv(b, ApplyBatch(b, s, writes))
    decreases |writes|
  {
    if writes != [] {
      var last := writes[|writes| - 1];
      assert GoodWrite(b, last);
      ApplyBatchKeeps(b, s, writes[..|writes| - 1]);
      var s1 := ApplyBatch(b, s, writes[..|writes| - 1]);
      CancelKeepsInv(b, s1, last.0.value);
      DriveKeeps(b, CancelPulse(s1, last.0.value), last.0.value, last.1.value);
    }
  }

  /** A slot found busy belongs to the pin; if one is found free, no running pulse has the pin. */
  lemma {:induction false} SlotFound(pulses: seq<Pulse>, pin: int, i: nat, free: nat)
    requires i <= |pulses| && free <= |pulses|
    requires free < |pulses| ==> !pulses[free].active
    requires forall j :: 0 <= j < i ==> !(pulses[j].active && pulses[j].pin == pin)
    ensures var slot := FindSlot(pulses, pin, i, free);
      && slot <= |pulses|
      && (slot < |pulses| && pulses[slot].active ==> pulses[slot].pin == pin)
      && (slot < |pulses| && !pulses[slot].active ==> NotPulsing(pulses, pin))
    decreases |pulses| - i
  {
    if i < |pulses| && !(pulses[i].active && pulses[i].pin == pin) {
      SlotFound(pulses, pin, i + 1, if !pulses[i].active && free == |pulses| then i else free);
    }
  }

  ghost predicate NotPulsing(pulses: seq<Pulse>, pin: int) {
    forall j :: 0 <= j < |pulses| ==> !(pulses[j].active && pulses[j].pin == pin)
  }

  lemma {:induction false} DueOfDeadline(now: nat, ms: nat)
    ensures DeadlineAfter(now, ms) == Millis(now + ms)
  {
    ModShift(Millis(now) + ms, now / WRAP);
  }

  lemma {:induction false} HandlePulseKeeps(b: Board, s: State, pin: Field<int>, value: Field<bool>,
                                            durationMs: Field<int>)
    requires Inv(b, s) && s.phase == Armed
    ensures Inv(b, HandlePulse(b, s, pin, value, durationMs).0)
  {
    if HandlePulse(b, s, pin, value, durationMs).1 == Ok {
      var p, slot := pin.value, FindSlot(s.pulses, pin.value, 0, PULSES);
      var previous := if s.pulses[slot].active then s.pulses[slot].previous else DigitalRead(s.pins[p]);
      SlotFound(s.pulses, p, 0, PULSES);
      DriveKeeps(b, s, p, value.value);
      PulsingKeeps(b, Drive(b, s, p, value.value), slot, p, durationMs.value, previous);
    }
  }

  lemma {:induction false} PulsingKeeps(b: Board, s: State, slot: nat, p: nat, ms: nat, previous: bool)
    requires Inv(b, s) && s.phase == Armed && IsWritable(b, p) && s.active[p] && slot < PULSES
    requires if s.pulses[slot].active then s.pulses[slot].pin == p else NotPulsing(s.pulses, p)
    ensures Inv(b, Pulsing(s, slot, p, ms, previous))
  {
    DueOfDeadline(s.now, ms);
  }

  lemma {:induction false} HandleMotorKeeps(b: Board, s: State, pwmPin: Field<int>, dirPin: Field<int>,
                                            speed: Field<real>)
    requires ValidBoard(b) && Inv(b, s) && s.phase == Armed
    ensures Inv(b, HandleMotor(b, s, pwmPin, dirPin, speed).0)
  {
    if pwmPin.Value? && speed.Value? && IsWritable(b, pwmPin.value) && (dirPin.Value? ==> IsWritable(b, dirPin.value)) {
      if dirPin.Value? { CancelKeepsInv(b, s, dirPin.value); }
      var s1 := if dirPin.Value? then CancelPulse(s, dirPin.value) else s;
      var magnitude := if speed.value < 0.0 then -speed.value else speed.value;
      var duty := (magnitude * 255.0).Floor;
      AttachKeeps(b, s1, pwmPin.value, pwmPin.value % b.motorChannels, duty);
      if dirPin.Value? {
        DriveKeeps(b, Attach(b, s1, pwmPin.value, pwmPin.value % b.motorChannels, duty), dirPin.value,
                   speed.value >= 0.0);
      }
    }
  }

  lemma {:induction false} HandleActionKeeps(b: Board, s: State, a: Actuation)
    requires ValidBoard(b) && Inv(b, s) && s.phase == Armed
    ensures Inv(b, HandleAction(b, s, a).0)
  {
    match a
    case SetMode(pin, mode, level, activeLow) => HandleModeKeeps(b, s, pin, mode, level, activeLow);
    case Write(pin, value) =>
      if pin.Value? && value.Value? && IsWritable(b, pin.value) {
        DriveKeeps(b, s, pin.value, value.value);
        CancelKeepsInv(b, Drive(b, s, pin.value, value.value), pin.value);
      }
    case BatchWrite(writes) =>
      if writes.Some? && BatchFault(b, writes.value) == Ok { ApplyBatchKeeps(b, s, writes.value); }
    case Toggle(pin) =>
      if pin.Value? && IsWritable(b, pin.value) {
        DriveKeeps(b, s, pin.value, !s.pins[pin.value].level);
        CancelKeepsInv(b, Drive(b, s, pin.value, !s.pins[pin.value].level), pin.value);
      }
    case StartPulse(pin, value, durationMs) => HandlePulseKeeps(b, s, pin, value, durationMs);
    case Pwm(pin, channel, duty, frequency) =>
      if HandlePwm(b, s, pin, channel, duty, frequency).1 == Ok {
        AttachKeeps(b, s, pin.value, channel.value, (duty.value * 255.0).Floor);
      }
    case Servo(pin, angle) =>
      if HandleServo(b, s, pin, angle).1 == Ok {
        AttachKeeps(b, s, pin.value, b.servoBase + pin.value % (b.pwmChannels - b.servoBase), ServoDuty(angle.value));
      }
    case Motor(pwmPin, dirPin, speed) => HandleMotorKeeps(b, s, pwmPin, dirPin, speed);
  }

  lemma {:induction false} HandleActKeeps(b: Board, s: State, validityMs: Field<int>, a: Actuation)
    requires ValidBoard(b) && Inv(b, s)
    ensures Inv(b, HandleAct(b, s, validityMs, a).0)
  {
    if s.phase == Armed && !ValidityOver(validityMs) {
      TouchKeeps(b, s);
      HandleActionKeeps(b, Touch(s), a);
    }
  }

  lemma {:induction false} HandleTimeoutKeeps(b: Board, s: State, timeoutMs: Field<int>)
    requires Inv(b, s)
    ensures Inv(b, HandleArm(s, timeoutMs).0) && Inv(b, HandleConfigure(s, timeoutMs).0)
  {
  }

  lemma {:induction false} HandleConfigKeeps(b: Board, s: State, pin: Field<int>, level: Name<SafeLevel>,
                                             activeLow: Name<bool>)
    requires Inv(b, s)
    ensures Inv(b, HandleConfigSafe(b, s, pin, level, activeLow).0)
  {
  }

  lemma {:induction false} StopsKeep(b: Board, s: State)
    requires ValidBoard(b) && Inv(b, s)
    ensures Inv(b, Handle(b, s, Disarm).0) && Inv(b, Handle(b, s, StopAll).0)
  {
    ApplySafeKeeps(b, s.(phase := Disarmed));
    ApplySafeKeeps(b, s);
  }

  lemma {:induction false} HandleKeeps(b: Board, s: State, c: Command)
    requires ValidBoard(b) && Inv(b, s)
    ensures Inv(b, Handle(b, s, c).0)
  {
    match c
    case Malformed =>
    case Info =>
    case Read(pin) =>
    case AnalogRead(pin) =>
    case UnknownAction =>
    case Arm(timeoutMs) => HandleTimeoutKeeps(b, s, timeoutMs);
    case Disarm => StopsKeep(b, s);
    case Configure(timeoutMs) => HandleTimeoutKeeps(b, s, timeoutMs);
    case Kick(validityMs) => TouchKeeps(b, s);
    case ConfigSafe(pin, level, activeLow) => HandleConfigKeeps(b, s, pin, level, activeLow);
    case StopAll => StopsKeep(b, s);
    case Act(validityMs, action) => HandleActKeeps(b, s, validityMs, action);
  }

  lemma {:induction false} StepKeeps(b: Board, s: State, e: Event)
    requires ValidBoard(b) && Inv(b, s)
    ensures Inv(b, Step(b, s, e))
  {
    match e
    case Poll =>
      ApplySafeKeeps(b, s.(lastPoll := s.now, phase := Tripped));
    case Pulses => PollPulsesKeeps(b, s, PULSES);
    case Cmd(c) => HandleKeeps(b, s, c);
    case _ =>
  }

  /**
   In every reachable state: not armed means no pulse runs and no PWM channel is attached
   or driven; running pulses have distinct pins; and the deadline is the last heartbeat
   plus the timeout, modulo 2^32.
   */
  lemma {:induction false} RunKeeps(b: Board, s: State, es: seq<Event>)
    requires ValidBoard(b) && Inv(b, s)
    ensures Inv(b, Run(b, s, es))
    decreases |es|
  {
    if es != [] {
      RunKeeps(b, s, es[..|es| - 1]);
      StepKeeps(b, Run(b, s, es[..|es| - 1]), es[|es| - 1]);
    }
  }
}
