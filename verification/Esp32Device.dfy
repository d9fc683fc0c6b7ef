/** The ESP32 bridge as it runs: arrays updated in place, one byte or one poll at a time. */
module Esp32Device {
  import opened Prelude
  import opened ArmedSession
  import opened Esp32
  import opened LineAssembly

  const LINE_MAX := 1024

  class Device {
    const board: Board
    var phase: Phase
    var watchdogEnabled: bool
    var watchdogTimeoutMs: nat
    var watchdogDeadline: nat
    var now: nat
    var lastTouch: nat
    var lastPoll: nat
    const configs: array<PinConfig>
    const pulses: array<Pulse>
    const activeOutputs: array<bool>
    const activePwmPins: array<int>
    const duties: array<int>
    const pins: array<Pin>
    const lineBuffer: array<char>
    var lineLength: nat
    var lineOverflow: bool
    var lineErrors: nat

    ghost predicate Valid()
      reads this
    {
      && ValidBoard(board)
      && configs.Length == activeOutputs.Length == pins.Length == |board.readable|
      && activePwmPins.Length == duties.Length == board.pwmChannels
      && activePwmPins != duties
      && pulses.Length == PULSES
      && lineBuffer.Length == LINE_MAX && lineLength < LINE_MAX
    }

    ghost function View(): (s: State)
      requires Valid()
      reads this, configs, pulses, activeOutputs, activePwmPins, duties, pins
      ensures Sized(board, s)
    {
      State(phase, watchdogEnabled, watchdogTimeoutMs, watchdogDeadline, configs[..], pulses[..], activeOutputs[..],
            activePwmPins[..], duties[..], pins[..], now, lastTouch, lastPoll)
    }

    constructor (board: Board)
      requires ValidBoard(board)
      ensures Valid() && this.board == board
      ensures fresh(configs) && fresh(pulses) && fresh(activeOutputs) && fresh(activePwmPins) && fresh(duties)
      ensures fresh(pins) && fresh(lineBuffer)
      ensures View() == Boot(board, View().pins) && forall p :: 0 <= p < |View().pins| ==> View().pins[p].mode == Input
      ensures lineLength == 0 && !lineOverflow && lineErrors == 0
    {
      this.board := board;
      phase, watchdogEnabled, watchdogTimeoutMs, watchdogDeadline := Disarmed, true, 1000, 0;
      now, lastTouch, lastPoll := 0, 0, 0;
      lineLength, lineOverflow, lineErrors := 0, false, 0;
      configs := new PinConfig[|board.readable|](_ => PinConfig(Low, false, false));
      pulses := new Pulse[PULSES](_ => Pulse(NO_PIN, 0, 0, false, false));
      activeOutputs := new bool[|board.readable|](_ => false);
      activePwmPins := new int[board.pwmChannels](_ => NO_PIN);
      duties := new int[board.pwmChannels](_ => 0);
      pins := new Pin[|board.readable|](_ => Pin(Input, false, false));
      lineBuffer := new char[LINE_MAX];
    }

    method DigitalWrite(p: nat, level: bool)
      requires Valid() && p < pins.Length
      modifies pins
      ensures pins[..] == old(pins[..])[p := old(pins[p]).(level := level)]
    {
      pins[p] := pins[p].(level := level);
    }

    method SetPinMode(p: nat, mode: PinMode)
      requires Valid() && p < pins.Length
      modifies pins
      ensures pins[..] == old(pins[..])[p := old(pins[p]).(mode := mode)]
    {
      pins[p] := pins[p].(mode := mode);
    }

    method CancelPulseForPin(pin: int)
      requires Valid()
      modifies pulses
      ensures pulses[..] == Cancelled(old(pulses[..]), pin)
    {
      for i := 0 to PULSES
        invariant forall j :: 0 <= j < i ==> pulses[j] == Cancelled(old(pulses[..]), pin)[j]
        invariant forall j :: i <= j < PULSES ==> pulses[j] == old(pulses[j])
      {
        if pulses[i].active && pulses[i].pin == pin {
          pulses[i] := pulses[i].(active := false);
        }
      }
    }

    method StopPins()
      requires Valid()
      modifies pins, activeOutputs
      ensures pins[..] == ApplySafeState(board, old(View())).pins
      ensures activeOutputs[..] == ApplySafeState(board, old(View())).active
    {
      ghost var target := ApplySafeState(board, View());
      for p := 0 to pins.Length
        invariant forall q :: 0 <= q < p ==> pins[q] == target.pins[q] && activeOutputs[q] == target.active[q]
        invariant forall q :: p <= q < pins.Length ==>
                    pins[q] == old(pins[q]) && activeOutputs[q] == old(activeOutputs[q])
      {
        if activeOutputs[p] || configs[p].configured {
          StopPin(p);
        }
      }
    }

    method StopPin(p: nat)
      requires Valid() && p < pins.Length
      modifies pins, activeOutputs
      ensures pins[..] == old(pins[..])[p := SafePin(configs[p].level, old(pins[p]))]
      ensures activeOutputs[..] == old(activeOutputs[..])[p := SafeActive(configs[p].level, old(activeOutputs[p]))]
    {
      match configs[p].level
      case High =>
        SetPinMode(p, Output);
        DigitalWrite(p, true);
        activeOutputs[p] := true;
      case HighZ =>
        SetPinMode(p, Input);
        activeOutputs[p] := false;
      case Hold =>
      case Low =>
        SetPinMode(p, Output);
        DigitalWrite(p, false);
        activeOutputs[p] := false;
    }

    method StopChannels()
      requires Valid()
      modifies activePwmPins, duties
      ensures activePwmPins[..] == seq(board.pwmChannels, _ => NO_PIN) && duties[..] == seq(board.pwmChannels, _ => 0)
    {
      for c := 0 to board.pwmChannels
        invariant forall d :: 0 <= d < c ==> activePwmPins[d] == NO_PIN && duties[d] == 0
      {
        duties[c] := 0;
        if activePwmPins[c] != NO_PIN {
          activePwmPins[c] := NO_PIN;
        }
      }
    }

    method StopPulses()
      requires Valid()
      modifies pulses
      ensures pulses[..] == Quieted(old(pulses[..]))
    {
      for i := 0 to PULSES
        invariant forall j :: 0 <= j < i ==> pulses[j] == old(pulses[j]).(active := false)
        invariant forall j :: i <= j < PULSES ==> pulses[j] == old(pulses[j])
      {
        pulses[i] := pulses[i].(active := false);
      }
    }

    method ApplySafe()
      requires Valid()
      modifies pins, activeOutputs, activePwmPins, duties, pulses
      ensures View() == ApplySafeState(board, old(View()))
    {
      StopPins();
      StopChannels();
      StopPulses();
    }

    method TouchWatchdog()
      requires Valid()
      modifies this`watchdogDeadline, this`lastTouch
      ensures View() == Touch(old(View()))
    {
      if phase == Armed && watchdogEnabled && watchdogTimeoutMs > 0 {
        watchdogDeadline := DeadlineAfter(now, watchdogTimeoutMs);
        lastTouch := now;
      }
    }

    method CheckDeadline()
      requires Valid()
      modifies this`phase, this`lastPoll, pins, activeOutputs, activePwmPins, duties, pulses
      ensures View() == Step(board, old(View()), Poll)
    {
      lastPoll := now;
      if phase == Armed && watchdogEnabled && watchdogTimeoutMs > 0 {
        if Due(Millis(now), watchdogDeadline) {
          phase := Tripped;
          ApplySafe();
        }
      }
    }

    method PollPulseTable()
      requires Valid()
      modifies pins, pulses
      ensures View() == Step(board, old(View()), Pulses)
    {
      for i := 0 to PULSES
        invariant View() == PollPulses(board, old(View()), i)
      {
        if pulses[i].active && Due(Millis(now), pulses[i].until) {
          var pin := pulses[i].pin;
          if 0 <= pin < pins.Length {
            DigitalWrite(pin, pulses[i].previous);
          }
          pulses[i] := pulses[i].(active := false);
        }
      }
    }

    method Wait(ms: nat)
      requires Valid()
      modifies this`now
      ensures View() == Step(board, old(View()), Tick(ms))
    {
      now := now + ms;
    }

    /** The surroundings change the level on a pin. */
    method LevelChanges(p: nat, level: bool)
      requires Valid()
      modifies pins
      ensures View() == Step(board, old(View()), External(p, level))
    {
      if p < pins.Length {
        pins[p] := pins[p].(external := level);
      }
    }

    // ---- Handlers ----

    method DrivePin(p: nat, level: bool)
      requires Valid() && p < pins.Length
      modifies pins, activeOutputs
      ensures View() == Drive(board, old(View()), p, level)
    {
      SetPinMode(p, Output);
      DigitalWrite(p, level);
      activeOutputs[p] := true;
    }

    method ModeCommand(pin: Field<int>, mode: Name<PinMode>, level: Name<SafeLevel>, activeLow: Name<bool>)
      returns (reply: Reply)
      requires Valid()
      modifies configs, pulses, pins, activeOutputs
      ensures (View(), reply) == HandleMode(board, old(View()), pin, mode, level, activeLow)
    {
      if !pin.Value? || mode == NotGiven { return InvalidPayload; }
      if !IsReadable(board, pin.value) { return InvalidPin; }
      if mode == Known(Output) && !IsWritable(board, pin.value) { return InvalidPin; }
      if mode == Unknown || level == Unknown || activeLow == Unknown { return InvalidPayload; }
      var p := pin.value;
      Reconfigure(p, level, activeLow);
      CancelPulseForPin(p);
      ApplyMode(p, mode.value);
      activeOutputs[p] := mode.value != Input;
      reply := Ok;
    }

    method Reconfigure(p: nat, level: Name<SafeLevel>, activeLow: Name<bool>)
      requires Valid() && p < pins.Length
      modifies configs
      ensures configs[..] == old(configs[..])[p := Reconfigured(old(configs[p]), level, activeLow)]
    {
      if level.Known? {
        configs[p] := configs[p].(level := level.value, configured := true);
      }
      if activeLow.Known? {
        configs[p] := configs[p].(activeLow := activeLow.value, configured := true);
      }
    }

    /** An output takes its safe level first, so that it does not glitch when it is switched on. */
    method ApplyMode(p: nat, mode: PinMode)
      requires Valid() && p < pins.Length
      modifies pins
      ensures pins[..] == old(pins[..])[p := old(pins[p]).(mode := mode,
                level := if mode == Output then configs[p].level == High else old(pins[p]).level)]
    {
      if mode == Output {
        DigitalWrite(p, configs[p].level == High);
      }
      SetPinMode(p, mode);
    }

    method WriteCommand(pin: Field<int>, value: Field<bool>) returns (reply: Reply)
      requires Valid()
      modifies pulses, pins, activeOutputs
      ensures (View(), reply) == HandleWrite(board, old(View()), pin, value)
    {
      if !pin.Value? || !value.Value? { return InvalidPayload; }
      if !IsWritable(board, pin.value) { return InvalidPin; }
      DrivePin(pin.value, value.value);
      CancelPulseForPin(pin.value);
      reply := Ok;
    }

    method BatchWriteOne(p: nat, value: bool)
      requires Valid() && p < pins.Length
      modifies pulses, pins, activeOutputs
      ensures View() == Drive(board, CancelPulse(old(View()), p), p, value)
    {
      CancelPulseForPin(p);
      DrivePin(p, value);
    }

    /** The whole batch is checked before any pin is driven. */
    method BatchCommand(writes: Option<seq<(Field<int>, Field<bool>)>>) returns (reply: Reply)
      requires Valid()
      modifies pulses, pins, activeOutputs
      ensures (View(), reply) == HandleBatch(board, old(View()), writes)
    {
      if writes.None? || !(1 <= |writes.value| <= MAX_BATCH) { return InvalidPayload; }
      var ws := writes.value;
      reply := BatchFault(board, ws);
      if reply != Ok { return; }
      for i := 0 to |ws|
        invariant View() == ApplyBatch(board, old(View()), ws[..i])
      {
        BatchStep(board, old(View()), ws, i);
        BatchWriteOne(ws[i].0.value, ws[i].1.value);
      }
      assert ws[..|ws|] == ws;
    }

    method ToggleCommand(pin: Field<int>) returns (reply: Reply)
      requires Valid()
      modifies pulses, pins, activeOutputs
      ensures (View(), reply) == HandleToggle(board, old(View()), pin)
    {
      if !pin.Value? { return InvalidPayload; }
      if !IsWritable(board, pin.value) { return InvalidPin; }
      var p := pin.value;
      SetPinMode(p, Output);
      CancelPulseForPin(p);
      activeOutputs[p] := true;
      DigitalWrite(p, !DigitalRead(pins[p]));
      assert pins[..] == old(pins[..])[p := old(pins[p]).(mode := Output, level := !old(pins[p]).level)];
      reply := Ok;
    }

    method PulseSlot(pin: int) returns (slot: nat)
      requires Valid()
      ensures slot == FindSlot(pulses[..], pin, 0, PULSES)
    {
      slot := PULSES;
      for i := 0 to PULSES
        invariant FindSlot(pulses[..], pin, i, slot) == FindSlot(pulses[..], pin, 0, PULSES)
      {
        if pulses[i].active && pulses[i].pin == pin {
          return i;
        }
        if !pulses[i].active && slot == PULSES {
          slot := i;
        }
      }
    }

    method PulseCommand(pin: Field<int>, value: Field<bool>, durationMs: Field<int>) returns (reply: Reply)
      requires Valid()
      modifies pulses, pins, activeOutputs
      ensures (View(), reply) == HandlePulse(board, old(View()), pin, value, durationMs)
    {
      if !pin.Value? || !value.Value? || !durationMs.Value? { return InvalidPayload; }
      if durationMs.value <= 0 || !IsWritable(board, pin.value) { return InvalidPin; }
      var slot := PulseSlot(pin.value);
      if slot >= PULSES { return Busy; }
      var previous := if pulses[slot].active then pulses[slot].previous else DigitalRead(pins[pin.value]);
      DrivePin(pin.value, value.value);
      pulses[slot] := Pulse(pin.value, DeadlineAfter(now, durationMs.value), now + durationMs.value, previous, true);
      reply := Ok;
    }

    method AttachPin(p: nat, channel: nat, duty: int)
      requires Valid() && p < pins.Length && channel < board.pwmChannels
      modifies pulses, activeOutputs, activePwmPins, duties
      ensures View() == Attach(board, old(View()), p, channel, duty)
    {
      CancelPulseForPin(p);
      activeOutputs[p] := true;
      activePwmPins[channel] := p;
      duties[channel] := duty;
    }

    method PwmCommand(pin: Field<int>, channel: Field<int>, duty: Field<real>, frequency: Field<int>)
      returns (reply: Reply)
      requires Valid()
      modifies pulses, activeOutputs, activePwmPins, duties
      ensures (View(), reply) == HandlePwm(board, old(View()), pin, channel, duty, frequency)
    {
      if !pin.Value? || !duty.Value? || !channel.Value? || !frequency.Value? { return InvalidPayload; }
      if !IsWritable(board, pin.value) || !(0 <= channel.value < board.pwmChannels) { return InvalidPin; }
      if !(0.0 <= duty.value <= 1.0) || frequency.value <= 0 { return InvalidPin; }
      AttachPin(pin.value, channel.value, (duty.value * 255.0).Floor);
      reply := Ok;
    }

    method ServoCommand(pin: Field<int>, angle: Field<real>) returns (reply: Reply)
      requires Valid()
      modifies pulses, activeOutputs, activePwmPins, duties
      ensures (View(), reply) == HandleServo(board, old(View()), pin, angle)
    {
      if !pin.Value? || !angle.Value? { return InvalidPayload; }
      if !IsWritable(board, pin.value) { return InvalidPin; }
      if !(0.0 <= angle.value <= 180.0) { return InvalidPayload; }
      AttachPin(pin.value, board.servoBase + pin.value % (board.pwmChannels - board.servoBase), ServoDuty(angle.value));
      reply := Ok;
    }

    method MotorCommand(pwmPin: Field<int>, dirPin: Field<int>, speed: Field<real>) returns (reply: Reply)
      requires Valid()
      modifies pulses, pins, activeOutputs, activePwmPins, duties
      ensures (View(), reply) == HandleMotor(board, old(View()), pwmPin, dirPin, speed)
    {
      if !pwmPin.Value? || !speed.Value? { return InvalidPayload; }
      if !IsWritable(board, pwmPin.value) { return InvalidPin; }
      if dirPin.Value? && !IsWritable(board, dirPin.value) { return InvalidPin; }
      if !dirPin.Value? && !(0.0 <= speed.value <= 1.0) { return InvalidPayload; }
      if dirPin.Value? && !(-1.0 <= speed.value <= 1.0) { return InvalidPayload; }
      var magnitude := if speed.value < 0.0 then -speed.value else speed.value;
      if dirPin.Value? {
        CancelPulseForPin(dirPin.value);
      }
      AttachPin(pwmPin.value, pwmPin.value % board.motorChannels, (magnitude * 255.0).Floor);
      if dirPin.Value? {
        DrivePin(dirPin.value, speed.value >= 0.0);
      }
      reply := Ok;
    }

    method ActionCommand(a: Actuation) returns (reply: Reply)
      requires Valid()
      modifies configs, pulses, pins, activeOutputs, activePwmPins, duties
      ensures (View(), reply) == HandleAction(board, old(View()), a)
    {
      match a
      case SetMode(pin, mode, level, activeLow) => reply := ModeCommand(pin, mode, level, activeLow);
      case Write(pin, value) => reply := WriteCommand(pin, value);
      case BatchWrite(writes) => reply := BatchCommand(writes);
      case Toggle(pin) => reply := ToggleCommand(pin);
      case StartPulse(pin, value, durationMs) => reply := PulseCommand(pin, value, durationMs);
      case Pwm(pin, channel, duty, frequency) => reply := PwmCommand(pin, channel, duty, frequency);
      case Servo(pin, angle) => reply := ServoCommand(pin, angle);
      case Motor(pwmPin, dirPin, speed) => reply := MotorCommand(pwmPin, dirPin, speed);
    }

    method ArmCommand(timeoutMs: Field<int>) returns (reply: Reply)
      requires Valid()
      modifies this`phase, this`watchdogEnabled, this`watchdogTimeoutMs, this`watchdogDeadline, this`lastTouch
      ensures (View(), reply) == HandleArm(old(View()), timeoutMs)
    {
      if timeoutMs.Value? {
        if timeoutMs.value < 0 { return InvalidPayload; }
        watchdogTimeoutMs := timeoutMs.value;
        watchdogEnabled := timeoutMs.value > 0;
      }
      phase := Armed;
      TouchWatchdog();
      reply := Ok;
    }

    method ConfigureCommand(timeoutMs: Field<int>) returns (reply: Reply)
      requires Valid()
      modifies this`watchdogEnabled, this`watchdogTimeoutMs, this`watchdogDeadline, this`lastTouch
      ensures (View(), reply) == HandleConfigure(old(View()), timeoutMs)
    {
      if !timeoutMs.Value? || timeoutMs.value < 0 { return InvalidPayload; }
      watchdogTimeoutMs := timeoutMs.value;
      watchdogEnabled := timeoutMs.value > 0;
      if phase == Armed {
        TouchWatchdog();
      }
      reply := Ok;
    }

    method KickCommand(validityMs: Field<int>) returns (reply: Reply)
      requires Valid()
      modifies this`watchdogDeadline, this`lastTouch
      ensures (View(), reply) == HandleKick(old(View()), validityMs)
    {
      if ValidityOver(validityMs) { return CommandExpired; }
      if phase != Armed { return if phase == Tripped then WatchdogTripped else NotArmed; }
      TouchWatchdog();
      reply := Ok;
    }

    method ConfigSafeCommand(pin: Field<int>, level: Name<SafeLevel>, activeLow: Name<bool>) returns (reply: Reply)
      requires Valid()
      modifies configs
      ensures (View(), reply) == HandleConfigSafe(board, old(View()), pin, level, activeLow)
    {
      if !pin.Value? { return InvalidPayload; }
      if !IsWritable(board, pin.value) { return InvalidPin; }
      if level == Unknown || activeLow == Unknown { return InvalidPayload; }
      configs[pin.value] := PinConfig(if level.Known? then level.value else Low, activeLow.Known? && activeLow.value,
                                      true);
      reply := Ok;
    }

    method ReadCommand(pin: Field<int>) returns (reply: Reply)
      requires Valid()
      ensures (View(), reply) == Handle(board, View(), Read(pin))
    {
      if !pin.Value? { return InvalidPayload; }
      if !IsReadable(board, pin.value) { return InvalidPin; }
      reply := Level(DigitalRead(pins[pin.value]));
    }

    method AnalogReadCommand(pin: Field<int>) returns (reply: Reply)
      requires Valid()
      ensures (View(), reply) == Handle(board, View(), AnalogRead(pin))
    {
      if !pin.Value? { return InvalidPayload; }
      if !IsAdc(board, pin.value) || !IsReadable(board, pin.value) { return InvalidPin; }
      reply := Ok;
    }

    method HandleRequest(c: Command) returns (reply: Reply)
      requires Valid()
      modifies this`phase, this`watchdogEnabled, this`watchdogTimeoutMs, this`watchdogDeadline, this`lastTouch
      modifies configs, pulses, pins, activeOutputs, activePwmPins, duties
      ensures (View(), reply) == Handle(board, old(View()), c)
    {
      match c
      case Malformed => reply := InvalidMessage;
      case Info => reply := Ok;
      case Read(pin) => reply := ReadCommand(pin);
      case AnalogRead(pin) => reply := AnalogReadCommand(pin);
      case UnknownAction => reply := UnknownActionError;
      case Arm(timeoutMs) => reply := ArmCommand(timeoutMs);
      case Disarm =>
        phase := Disarmed;
        ApplySafe();
        reply := Ok;
      case Configure(timeoutMs) => reply := ConfigureCommand(timeoutMs);
      case Kick(validityMs) => reply := KickCommand(validityMs);
      case ConfigSafe(pin, level, activeLow) => reply := ConfigSafeCommand(pin, level, activeLow);
      case StopAll =>
        ApplySafe();
        reply := Ok;
      case Act(validityMs, action) =>
        if ValidityOver(validityMs) { return CommandExpired; }
        if phase == Disarmed { return NotArmed; }
        if phase == Tripped { return WatchdogTripped; }
        TouchWatchdog();
        reply := ActionCommand(action);
    }

    // ---- The byte loop ----

    /** The line buffer as the assembler sees it. */
    ghost predicate Assembles(a: Assembler)
      requires Valid()
      reads this, lineBuffer
    {
      a.overflow == lineOverflow && a.kept == lineBuffer[..lineLength] && a.errors == lineErrors
    }

    /** The end of a line: unless it overflowed, it is read and carried out. */
    method OnNewline(read: string -> Option<Command>, ghost a: Assembler)
      requires Valid() && Assembles(a)
      modifies this, configs, pulses, pins, activeOutputs, activePwmPins, duties, lineBuffer
      ensures Valid() && Assembles(EspByte(a, '\n', LINE_MAX - 1))
      ensures View() == LineStep(board, old(View()), a, read)
    {
      var line := lineBuffer[..lineLength];
      lineLength := 0;
      if !lineOverflow {
        var command := read(line);
        if command.Some? {
          var reply := HandleRequest(command.value);
        }
      }
      lineOverflow := false;
    }

    /** One turn of the read loop; `read` parses a line, None when it is no request. */
    method OnByte(c: char, read: string -> Option<Command>, ghost a: Assembler)
      requires Valid() && Assembles(a)
      modifies this, configs, pulses, pins, activeOutputs, activePwmPins, duties, lineBuffer
      ensures Valid() && Assembles(EspByte(a, c, LINE_MAX - 1))
      ensures View() == Run(board, old(View()), ByteEvents(a, c, read))
    {
      RunByte(board, View(), a, c, read);
      CheckDeadline();
      if c == '\n' {
        OnNewline(read, a);
        CheckDeadline();
        return;
      }
      if lineOverflow { return; }
      if lineLength >= LINE_MAX - 1 {
        lineOverflow := true;
        lineLength := 0;
        lineErrors := lineErrors + 1;
        return;
      }
      if c != '\r' {
        lineBuffer[lineLength] := c;
        lineLength := lineLength + 1;
      }
    }
  }

  /** The steps one received byte leads to. */
  function ByteEvents(a: Assembler, c: char, read: string -> Option<Command>): seq<Event> {
    if c == '\n' then
      if !a.overflow && read(a.kept).Some? then [Poll, Cmd(read(a.kept).value), Poll] else [Poll, Poll]
    else [Poll]
  }

  lemma {:induction false} RunOne(b: Board, s: State, e: Event)
    requires ValidBoard(b) && Sized(b, s)
    ensures Run(b, s, [e]) == Step(b, s, e)
  {
    assert [e][..0] == [];
  }

  lemma {:induction false} RunTwo(b: Board, s: State, e: Event, f: Event)
    requires ValidBoard(b) && Sized(b, s)
    ensures Run(b, s, [e, f]) == Step(b, Step(b, s, e), f)
  {
    assert [e, f][..1] == [e];
    RunOne(b, s, e);
  }

  /** What a finished line does to the state. */
  function LineStep(b: Board, s: State, a: Assembler, read: string -> Option<Command>): State
    requires ValidBoard(b) && Sized(b, s)
  {
    if !a.overflow && read(a.kept).Some? then Step(b, s, Cmd(read(a.kept).value)) else s
  }

  lemma {:induction false} RunByte(b: Board, s: State, a: Assembler, c: char, read: string -> Option<Command>)
    requires ValidBoard(b) && Sized(b, s)
    ensures Run(b, s, ByteEvents(a, c, read)) ==
            if c == '\n' then Step(b, LineStep(b, Step(b, s, Poll), a, read), Poll) else Step(b, s, Poll)
  {
    if c != '\n' {
      RunOne(b, s, Poll);
    } else if !a.overflow && read(a.kept).Some? {
      var command := Cmd(read(a.kept).value);
      assert [Poll, command, Poll][..2] == [Poll, command];
      RunTwo(b, s, Poll, command);
    } else {
      RunTwo(b, s, Poll, Poll);
    }
  }
}
