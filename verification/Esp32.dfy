/**
 The ESP32 bridge as steps on values: arming, watchdog, safe state, pulse table, PWM
 channels and the gpio commands.
 */
module Esp32 {
  import opened Prelude
  import opened ArmedSession

  /** Per-board pin classes and channel counts; they differ between board variants. */
  datatype Board = Board(
    readable: seq<bool>,
    writable: seq<bool>,
    adc: seq<bool>,
    pwmChannels: nat,
    servoBase: nat,
    motorChannels: nat)

  ghost predicate ValidBoard(b: Board) {
    && |b.readable| == |b.writable|
    && (forall p :: 0 <= p < |b.writable| && b.writable[p] ==> b.readable[p])
    && b.servoBase < b.pwmChannels
    && 0 < b.motorChannels <= b.pwmChannels
  }

  predicate IsReadable(b: Board, pin: int) {
    0 <= pin < |b.readable| && b.readable[pin]
  }

  predicate IsAdc(b: Board, pin: int) {
    0 <= pin < |b.adc| && b.adc[pin]
  }

  predicate IsWritable(b: Board, pin: int) {
    0 <= pin < |b.writable| && b.writable[pin]
  }

  const PULSES := 8
  const NO_PIN := -1
  const MAX_BATCH := 16

  datatype SafeLevel = Low | High | HighZ | Hold
  datatype PinMode = Input | Pullup | Pulldown | Output

  /** A pin's mode, output latch, and the level its surroundings apply to it. */
  datatype Pin = Pin(mode: PinMode, level: bool, external: bool)

  datatype PinConfig = PinConfig(level: SafeLevel, activeLow: bool, configured: bool)

  /** `until` is the wrapped counter value; `due` the true time it stands for. */
  datatype Pulse = Pulse(pin: int, until: nat, due: nat, previous: bool, active: bool)

  datatype State = State(
    phase: Phase,
    enabled: bool,
    timeout: nat,
    deadline: nat,
    configs: seq<PinConfig>,
    pulses: seq<Pulse>,
    active: seq<bool>,
    pwm: seq<int>,
    duty: seq<int>,
    pins: seq<Pin>,
    now: nat,
    lastTouch: nat,
    lastPoll: nat)

  datatype Name<+T> = NotGiven | Known(value: T) | Unknown

  datatype Actuation =
    | SetMode(pin: Field<int>, mode: Name<PinMode>, level: Name<SafeLevel>, activeLow: Name<bool>)
    | Write(pin: Field<int>, value: Field<bool>)
    | BatchWrite(writes: Option<seq<(Field<int>, Field<bool>)>>)
    | Toggle(pin: Field<int>)
    | StartPulse(pin: Field<int>, value: Field<bool>, durationMs: Field<int>)
    | Pwm(pin: Field<int>, channel: Field<int>, duty: Field<real>, frequency: Field<int>)
    | Servo(pin: Field<int>, angle: Field<real>)
    | Motor(pwmPin: Field<int>, dirPin: Field<int>, speed: Field<real>)

  /** Info: hello, ping and info, which only report. Malformed: no string id or action. */
  datatype Command =
    | Malformed
    | Info
    | Read(pin: Field<int>)
    | AnalogRead(pin: Field<int>)
    | UnknownAction
    | Arm(timeoutMs: Field<int>)
    | Disarm
    | Configure(timeoutMs: Field<int>)
    | Kick(validityMs: Field<int>)
    | ConfigSafe(pin: Field<int>, level: Name<SafeLevel>, activeLow: Name<bool>)
    | StopAll
    | Act(validityMs: Field<int>, action: Actuation)

  datatype Reply =
    | Ok | Level(value: bool) | InvalidMessage | InvalidPayload | InvalidPin | CommandExpired | NotArmed
    | WatchdogTripped | Busy | UnknownActionError

  predicate Sized(b: Board, s: State) {
    && |s.configs| == |s.active| == |s.pins| == |b.readable| == |b.writable|
    && |s.pwm| == |s.duty| == b.pwmChannels
    && |s.pulses| == PULSES
  }

  // ---- Pins ----

  predicate DigitalRead(pin: Pin) {
    if pin.mode == Output then pin.level else pin.external
  }

  /** What a stop does to a pin with this safe level. */
  function SafePin(level: SafeLevel, pin: Pin): Pin {
    match level
    case Low => pin.(mode := Output, level := false)
    case High => pin.(mode := Output, level := true)
    case HighZ => pin.(mode := Input)
    case Hold => pin
  }

  function SafeActive(level: SafeLevel, active: bool): bool {
    match level
    case Low => false
    case High => true
    case HighZ => false
    case Hold => active
  }

  // ---- Safe state and the watchdog ----

  function Quieted(pulses: seq<Pulse>): (r: seq<Pulse>)
    ensures |r| == |pulses|
  {
    seq(|pulses|, i requires 0 <= i < |pulses| => pulses[i].(active := false))
  }

  function ApplySafeState(b: Board, s: State): (s': State)
    requires Sized(b, s)
    ensures Sized(b, s')
  {
    var n := |s.pins|;
    s.(pins := seq(n, p requires 0 <= p < n =>
         if s.active[p] || s.configs[p].configured then SafePin(s.configs[p].level, s.pins[p]) else s.pins[p]),
       active := seq(n, p requires 0 <= p < n =>
         if s.active[p] || s.configs[p].configured then SafeActive(s.configs[p].level, s.active[p]) else s.active[p]),
       pwm := seq(b.pwmChannels, _ => NO_PIN),
       duty := seq(b.pwmChannels, _ => 0),
       pulses := Quieted(s.pulses))
  }

  predicate Watching(s: State) {
    s.phase == Armed && s.enabled && s.timeout > 0
  }

  function Touch(s: State): State {
    if Watching(s) then s.(deadline := DeadlineAfter(s.now, s.timeout), lastTouch := s.now) else s
  }

  function CheckWatchdog(b: Board, s: State): (s': State)
    requires Sized(b, s)
    ensures Sized(b, s')
  {
    var s1 := s.(lastPoll := s.now);
    if Watching(s) && Due(Millis(s.now), s.deadline) then ApplySafeState(b, s1.(phase := Tripped)) else s1
  }

  function HandleArm(s: State, timeoutMs: Field<int>): (State, Reply) {
    if timeoutMs.Value? && timeoutMs.value < 0 then (s, InvalidPayload)
    else
      var s1 := if timeoutMs.Value? then s.(timeout := timeoutMs.value, enabled := timeoutMs.value > 0) else s;
      (Touch(s1.(phase := Armed)), Ok)
  }

  function HandleConfigure(s: State, timeoutMs: Field<int>): (State, Reply) {
    if !timeoutMs.Value? || timeoutMs.value < 0 then (s, InvalidPayload)
    else (Touch(s.(timeout := timeoutMs.value, enabled := timeoutMs.value > 0)), Ok)
  }

  predicate ValidityOver(validityMs: Field<int>) {
    validityMs.Value? && validityMs.value <= 0
  }

  function Refusal(s: State): Reply {
    if s.phase == Tripped then WatchdogTripped else NotArmed
  }

  function HandleKick(s: State, validityMs: Field<int>): (State, Reply) {
    if ValidityOver(validityMs) then (s, CommandExpired)
    else if s.phase != Armed then (s, Refusal(s))
    else (Touch(s), Ok)
  }

  function HandleConfigSafe(b: Board, s: State, pin: Field<int>, level: Name<SafeLevel>,
                            activeLow: Name<bool>): (r: (State, Reply))
    requires Sized(b, s)
    ensures Sized(b, r.0)
  {
    if !pin.Value? then (s, InvalidPayload)
    else if !IsWritable(b, pin.value) then (s, InvalidPin)
    else if level == Unknown || activeLow == Unknown then (s, InvalidPayload)
    else
      var config := PinConfig(if level.Known? then level.value else Low, activeLow.Known? && activeLow.value, true);
      (s.(configs := s.configs[pin.value := config]), Ok)
  }

  // ---- The pulse table ----

  function Cancelled(pulses: seq<Pulse>, pin: int): (r: seq<Pulse>)
    ensures |r| == |pulses|
  {
    seq(|pulses|, i requires 0 <= i < |pulses| =>
      if pulses[i].active && pulses[i].pin == pin then pulses[i].(active := false) else pulses[i])
  }

  function CancelPulse(s: State, pin: int): State {
    s.(pulses := Cancelled(s.pulses, pin))
  }

  /** The slot of the pin's running pulse, else the first free slot, else one past the end. */
  function FindSlot(pulses: seq<Pulse>, pin: int, i: nat, free: nat): nat
    requires i <= |pulses|
    decreases |pulses| - i
  {
    if i == |pulses| then free
    else if pulses[i].active && pulses[i].pin == pin then i
    else FindSlot(pulses, pin, i + 1, if !pulses[i].active && free == |pulses| then i else free)
  }

  function PollPulse(b: Board, s: State, i: nat): (s': State)
    requires Sized(b, s) && i < PULSES
    ensures Sized(b, s')
  {
    var u := s.pulses[i];
    if u.active && Due(Millis(s.now), u.until) then
      var s1 := s.(pulses := s.pulses[i := u.(active := false)]);
      if 0 <= u.pin < |s.pins| then s1.(pins := s.pins[u.pin := s.pins[u.pin].(level := u.previous)]) else s1
    else s
  }

  /** The first n slots, in order. */
  function PollPulses(b: Board, s: State, n: nat): (s': State)
    requires Sized(b, s) && n <= PULSES
    ensures Sized(b, s')
  {
    if n == 0 then s else PollPulse(b, PollPulses(b, s, n - 1), n - 1)
  }

  // ---- Actuation handlers, entered only when armed ----

  /** pinMode output, a level, and the activity flag. */
  function Drive(b: Board, s: State, p: nat, level: bool): (s': State)
    requires Sized(b, s) && p < |s.pins|
    ensures Sized(b, s')
  {
    s.(pins := s.pins[p := s.pins[p].(mode := Output, level := level)], active := s.active[p := true])
  }

  /** The fields a mode command gives replace those configured before. */
  function Reconfigured(prior: PinConfig, level: Name<SafeLevel>, activeLow: Name<bool>): PinConfig {
    PinConfig(if level.Known? then level.value else prior.level,
              if activeLow.Known? then activeLow.value else prior.activeLow,
              prior.configured || level.Known? || activeLow.Known?)
  }

  function HandleMode(b: Board, s: State, pin: Field<int>, mode: Name<PinMode>, level: Name<SafeLevel>,
                      activeLow: Name<bool>): (r: (State, Reply))
    requires Sized(b, s)
    ensures Sized(b, r.0)
  {
    if !pin.Value? || mode == NotGiven then (s, InvalidPayload)
    else if !IsReadable(b, pin.value) || (mode == Known(Output) && !IsWritable(b, pin.value)) then (s, InvalidPin)
    else if mode == Unknown || level == Unknown || activeLow == Unknown then (s, InvalidPayload)
    else
      var p := pin.value;
      var config := Reconfigured(s.configs[p], level, activeLow);
      var s1 := CancelPulse(s.(configs := s.configs[p := config]), p);
      var latch := if mode.value == Output then config.level == High else s.pins[p].level;
      (s1.(pins := s.pins[p := s.pins[p].(mode := mode.value, level := latch)],
           active := s.active[p := mode.value != Input]), Ok)
  }

  function HandleWrite(b: Board, s: State, pin: Field<int>, value: Field<bool>): (r: (State, Reply))
    requires Sized(b, s)
    ensures Sized(b, r.0)
  {
    if !pin.Value? || !value.Value? then (s, InvalidPayload)
    else if !IsWritable(b, pin.value) then (s, InvalidPin)
    else (CancelPulse(Drive(b, s, pin.value, value.value), pin.value), Ok)
  }

  predicate GoodWrite(b: Board, w: (Field<int>, Field<bool>)) {
    w.0.Value? && w.1.Value? && IsWritable(b, w.0.value)
  }

  /** The first fault of a batch, if any. */
  function BatchFault(b: Board, writes: seq<(Field<int>, Field<bool>)>): (r: Reply)
    ensures r == Ok ==> forall i :: 0 <= i < |writes| ==> GoodWrite(b, writes[i])
  {
    if writes == [] then Ok
    else if !writes[0].0.Value? || !writes[0].1.Value? then InvalidPayload
    else if !IsWritable(b, writes[0].0.value) then InvalidPin
    else BatchFault(b, writes[1..])
  }

  function ApplyBatch(b: Board, s: State, writes: seq<(Field<int>, Field<bool>)>): (s': State)
    requires Sized(b, s)
    requires forall i :: 0 <= i < |writes| ==> GoodWrite(b, writes[i])
    ensures Sized(b, s')
  {
    if writes == [] then s
    else
      var s1 := ApplyBatch(b, s, writes[..|writes| - 1]);
      var last := writes[|writes| - 1];
      assert GoodWrite(b, last);
      Drive(b, CancelPulse(s1, last.0.value), last.0.value, last.1.value)
  }

  lemma {:induction false} BatchStep(b: Board, s: State, writes: seq<(Field<int>, Field<bool>)>, i: nat)
    requires Sized(b, s) && i < |writes|
    requires forall k :: 0 <= k < |writes| ==> GoodWrite(b, writes[k])
    ensures GoodWrite(b, writes[i])
    ensures var (pin, value) := (writes[i].0.value, writes[i].1.value);
            ApplyBatch(b, s, writes[..i + 1]) ==
            Drive(b, CancelPulse(ApplyBatch(b, s, writes[..i]), pin), pin, value)
  {
    assert GoodWrite(b, writes[i]);
    assert writes[..i + 1][..i] == writes[..i];
  }

  function HandleBatch(b: Board, s: State, writes: Option<seq<(Field<int>, Field<bool>)>>): (r: (State, Reply))
    requires Sized(b, s)
    ensures Sized(b, r.0)
  {
    if writes.None? || !(1 <= |writes.value| <= MAX_BATCH) then (s, InvalidPayload)
    else if BatchFault(b, writes.value) != Ok then (s, BatchFault(b, writes.value))
    else (ApplyBatch(b, s, writes.value), Ok)
  }

  function HandleToggle(b: Board, s: State, pin: Field<int>): (r: (State, Reply))
    requires Sized(b, s)
    ensures Sized(b, r.0)
  {
    if !pin.Value? then (s, InvalidPayload)
    else if !IsWritable(b, pin.value) then (s, InvalidPin)
    else (CancelPulse(Drive(b, s, pin.value, !s.pins[pin.value].level), pin.value), Ok)
  }

  function Pulsing(s: State, slot: nat, p: nat, ms: nat, previous: bool): State
    requires slot < |s.pulses|
  {
    s.(pulses := s.pulses[slot := Pulse(p, DeadlineAfter(s.now, ms), s.now + ms, previous, true)])
  }

  function HandlePulse(b: Board, s: State, pin: Field<int>, value: Field<bool>,
                       durationMs: Field<int>): (r: (State, Reply))
    requires Sized(b, s)
    ensures Sized(b, r.0)
  {
    if !pin.Value? || !value.Value? || !durationMs.Value? then (s, InvalidPayload)
    else if durationMs.value <= 0 || !IsWritable(b, pin.value) then (s, InvalidPin)
    else
      var p := pin.value;
      var slot := FindSlot(s.pulses, p, 0, PULSES);
      if slot >= PULSES then (s, Busy)
      else
        var previous := if s.pulses[slot].active then s.pulses[slot].previous else DigitalRead(s.pins[p]);
        (Pulsing(Drive(b, s, p, value.value), slot, p, durationMs.value, previous), Ok)
  }

  /** Attach a pin to a PWM channel with a duty. */
  function Attach(b: Board, s: State, p: nat, channel: nat, duty: int): (s': State)
    requires Sized(b, s) && p < |s.pins| && channel < b.pwmChannels
    ensures Sized(b, s')
  {
    CancelPulse(s, p).(active := s.active[p := true], pwm := s.pwm[channel := p], duty := s.duty[channel := duty])
  }

  function HandlePwm(b: Board, s: State, pin: Field<int>, channel: Field<int>, duty: Field<real>,
                     frequency: Field<int>): (r: (State, Reply))
    requires Sized(b, s)
    ensures Sized(b, r.0)
  {
    if !pin.Value? || !duty.Value? || !channel.Value? || !frequency.Value? then (s, InvalidPayload)
    else if !IsWritable(b, pin.value) || !(0 <= channel.value < b.pwmChannels) ||
            !(0.0 <= duty.value <= 1.0) || frequency.value <= 0 then (s, InvalidPin)
    else (Attach(b, s, pin.value, channel.value, (duty.value * 255.0).Floor), Ok)
  }

  function ServoDuty(angle: real): int {
    (1000 + (angle / 180.0 * 1000.0).Floor) * 65535 / 20000
  }

  function HandleServo(b: Board, s: State, pin: Field<int>, angle: Field<real>): (r: (State, Reply))
    requires ValidBoard(b) && Sized(b, s)
    ensures Sized(b, r.0)
  {
    if !pin.Value? || !angle.Value? then (s, InvalidPayload)
    else if !IsWritable(b, pin.value) then (s, InvalidPin)
    else if !(0.0 <= angle.value <= 180.0) then (s, InvalidPayload)
    else (Attach(b, s, pin.value, b.servoBase + pin.value % (b.pwmChannels - b.servoBase), ServoDuty(angle.value)), Ok)
  }

  function HandleMotor(b: Board, s: State, pwmPin: Field<int>, dirPin: Field<int>,
                       speed: Field<real>): (r: (State, Reply))
    requires ValidBoard(b) && Sized(b, s)
    ensures Sized(b, r.0)
  {
    if !pwmPin.Value? || !speed.Value? then (s, InvalidPayload)
    else if !IsWritable(b, pwmPin.value) then (s, InvalidPin)
    else if dirPin.Value? && !IsWritable(b, dirPin.value) then (s, InvalidPin)
    else if !dirPin.Value? && !(0.0 <= speed.value <= 1.0) then (s, InvalidPayload)
    else if dirPin.Value? && !(-1.0 <= speed.value <= 1.0) then (s, InvalidPayload)
    else
      var magnitude := if speed.value < 0.0 then -speed.value else speed.value;
      var s1 := if dirPin.Value? then CancelPulse(s, dirPin.value) else s;
      var s2 := Attach(b, s1, pwmPin.value, pwmPin.value % b.motorChannels, (magnitude * 255.0).Floor);
      (if dirPin.Value? then Drive(b, s2, dirPin.value, speed.value >= 0.0) else s2, Ok)
  }

  function HandleAction(b: Board, s: State, a: Actuation): (r: (State, Reply))
    requires ValidBoard(b) && Sized(b, s)
    ensures Sized(b, r.0)
  {
    match a
    case SetMode(pin, mode, level, activeLow) => HandleMode(b, s, pin, mode, level, activeLow)
    case Write(pin, value) => HandleWrite(b, s, pin, value)
    case BatchWrite(writes) => HandleBatch(b, s, writes)
    case Toggle(pin) => HandleToggle(b, s, pin)
    case StartPulse(pin, value, durationMs) => HandlePulse(b, s, pin, value, durationMs)
    case Pwm(pin, channel, duty, frequency) => HandlePwm(b, s, pin, channel, duty, frequency)
    case Servo(pin, angle) => HandleServo(b, s, pin, angle)
    case Motor(pwmPin, dirPin, speed) => HandleMotor(b, s, pwmPin, dirPin, speed)
  }

  function HandleAct(b: Board, s: State, validityMs: Field<int>, a: Actuation): (r: (State, Reply))
    requires ValidBoard(b) && Sized(b, s)
    ensures Sized(b, r.0)
  {
    if ValidityOver(validityMs) then (s, CommandExpired)
    else if s.phase != Armed then (s, Refusal(s))
    else HandleAction(b, Touch(s), a)
  }

  function ReadReply(b: Board, s: State, pin: Field<int>): Reply
    requires Sized(b, s)
  {
    if !pin.Value? then InvalidPayload
    else if !IsReadable(b, pin.value) then InvalidPin
    else Level(DigitalRead(s.pins[pin.value]))
  }

  function AnalogReadReply(b: Board, pin: Field<int>): Reply {
    if !pin.Value? then InvalidPayload
    else if !IsAdc(b, pin.value) || !IsReadable(b, pin.value) then InvalidPin
    else Ok
  }

  function Handle(b: Board, s: State, c: Command): (r: (State, Reply))
    requires ValidBoard(b) && Sized(b, s)
    ensures Sized(b, r.0)
  {
    match c
    case Malformed => (s, InvalidMessage)
    case Info => (s, Ok)
    case Read(pin) => (s, ReadReply(b, s, pin))
    case AnalogRead(pin) => (s, AnalogReadReply(b, pin))
    case UnknownAction => (s, UnknownActionError)
    case Arm(timeoutMs) => HandleArm(s, timeoutMs)
    case Disarm => (ApplySafeState(b, s.(phase := Disarmed)), Ok)
    case Configure(timeoutMs) => HandleConfigure(s, timeoutMs)
    case Kick(validityMs) => HandleKick(s, validityMs)
    case ConfigSafe(pin, level, activeLow) => HandleConfigSafe(b, s, pin, level, activeLow)
    case StopAll => (ApplySafeState(b, s), Ok)
    case Act(validityMs, action) => HandleAct(b, s, validityMs, action)
  }

  // ---- Runs ----

  /** External: the surroundings change the level on a pin. */
  datatype Event = Tick(ms: nat) | Poll | Pulses | External(pin: nat, level: bool) | Cmd(c: Command)

  function Step(b: Board, s: State, e: Event): (s': State)
    requires ValidBoard(b) && Sized(b, s)
    ensures Sized(b, s')
  {
    match e
    case Tick(ms) => s.(now := s.now + ms)
    case Poll => CheckWatchdog(b, s)
    case Pulses => PollPulses(b, s, PULSES)
    case External(p, level) => if p < |s.pins| then s.(pins := s.pins[p := s.pins[p].(external := level)]) else s
    case Cmd(c) => Handle(b, s, c).0
  }

  function Run(b: Board, s: State, es: seq<Event>): (s': State)
    requires ValidBoard(b) && Sized(b, s)
    ensures Sized(b, s')
  {
    if es == [] then s else Step(b, Run(b, s, es[..|es| - 1]), es[|es| - 1])
  }

  /** Power-up: every pin an input, nothing configured, the watchdog set to a second. */
  function Boot(b: Board, pins: seq<Pin>): (s: State)
    requires |pins| == |b.readable| == |b.writable|
    ensures Sized(b, s)
  {
    var n := |pins|;
    State(Disarmed, true, 1000, 0, seq(n, _ => PinConfig(Low, false, false)),
          seq(PULSES, _ => Pulse(NO_PIN, 0, 0, false, false)), seq(n, _ => false),
          seq(b.pwmChannels, _ => NO_PIN), seq(b.pwmChannels, _ => 0), pins, 0, 0, 0)
  }
}
