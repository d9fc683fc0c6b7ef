/**
 What the ESP32's actuation commands do when they are accepted, and that they do nothing
 when they are refused.
 */
module Esp32Effects {
  import opened Prelude
  import opened ArmedSession
  import opened Esp32
  import opened Esp32Safety
  import opened Esp32Runs

  /** A refused actuation changes nothing, except that while armed it still counts as a heartbeat. */
  lemma {:induction false} RefusedMovesNothing(b: Board, s: State, validityMs: Field<int>, a: Actuation)
    requires ValidBoard(b) && Sized(b, s) && HandleAct(b, s, validityMs, a).1 != Ok
    ensures HandleAct(b, s, validityMs, a).0 == if ValidityOver(validityMs) || s.phase != Armed then s else Touch(s)
  {
    match a
    case SetMode(pin, mode, level, activeLow) =>
    case Write(pin, value) =>
    case BatchWrite(writes) =>
    case Toggle(pin) =>
    case StartPulse(pin, value, durationMs) =>
    case Pwm(pin, channel, duty, frequency) =>
    case Servo(pin, angle) =>
    case Motor(pwmPin, dirPin, speed) =>
  }

  // ---- Batches ----

  /** The value a batch writes last to a pin, if it writes the pin at all. */
  function LastWrite(writes: seq<(Field<int>, Field<bool>)>, p: int): Option<bool> {
    if writes == [] then None
    else
      var last := writes[|writes| - 1];
      if last.0 == Value(p) && last.1.Value? then Some(last.1.value) else LastWrite(writes[..|writes| - 1], p)
  }

  ghost predicate AllGood(b: Board, writes: seq<(Field<int>, Field<bool>)>) {
    forall i :: 0 <= i < |writes| ==> GoodWrite(b, writes[i])
  }

  /**
   Each pin of the batch is driven to the value written to it last, and its pulse is gone; the
   others are as they were.
   */
  ghost predicate BatchDone(s: State, after: State, writes: seq<(Field<int>, Field<bool>)>, p: nat)
    requires p < |s.pins| == |after.pins| && |s.active| == |s.pins| == |after.active| && |s.pulses| == |after.pulses|
  {
    var value := LastWrite(writes, p);
    if value.Some? then
      && after.pins[p] == s.pins[p].(mode := Output, level := value.value) && after.active[p]
      && forall i :: 0 <= i < |after.pulses| ==> !(after.pulses[i].active && after.pulses[i].pin == p)
    else
      && after.pins[p] == s.pins[p] && after.active[p] == s.active[p]
      && forall i :: 0 <= i < |after.pulses| ==> (s.pulses[i].pin == p ==> after.pulses[i] == s.pulses[i])
                                                 && after.pulses[i].pin == s.pulses[i].pin
  }

  lemma {:induction false} ApplyBatchDone(b: Board, s: State, writes: seq<(Field<int>, Field<bool>)>, p: nat)
    requires Sized(b, s) && AllGood(b, writes) && p < |s.pins|
    ensures BatchDone(s, ApplyBatch(b, s, writes), writes, p)
    ensures forall i :: 0 <= i < PULSES ==> ApplyBatch(b, s, writes).pulses[i].pin == s.pulses[i].pin
    decreases |writes|
  {
    if writes != [] {
      var init, last := writes[..|writes| - 1], writes[|writes| - 1];
      ApplyBatchDone(b, s, init, p);
      assert GoodWrite(b, last);
    }
  }

  /** An accepted batch is carried out whole, and a refused one not at all. */
  lemma {:induction false} BatchIsAllOrNothing(b: Board, s: State, writes: Option<seq<(Field<int>, Field<bool>)>>,
                                               p: nat)
    requires Sized(b, s) && p < |s.pins|
    ensures HandleBatch(b, s, writes).1 == Ok <==>
              writes.Some? && 1 <= |writes.value| <= MAX_BATCH && AllGood(b, writes.value)
    ensures HandleBatch(b, s, writes).1 == Ok ==> BatchDone(s, HandleBatch(b, s, writes).0, writes.value, p)
    ensures HandleBatch(b, s, writes).1 != Ok ==> HandleBatch(b, s, writes).0 == s
  {
    if writes.Some? {
      FaultFound(b, writes.value);
      if HandleBatch(b, s, writes).1 == Ok { ApplyBatchDone(b, s, writes.value, p); }
    }
  }

  lemma {:induction false} FaultFound(b: Board, writes: seq<(Field<int>, Field<bool>)>)
    ensures BatchFault(b, writes) == Ok <==> AllGood(b, writes)
  {
    if writes != [] {
      FaultFound(b, writes[1..]);
      assert AllGood(b, writes) <==> GoodWrite(b, writes[0]) && AllGood(b, writes[1..]) by {
        assert forall i :: 0 < i < |writes| ==> writes[i] == writes[1..][i - 1];
      }
    }
  }

  // ---- Levels that stand ----

  /** A pin switched to output rests at its safe level, whatever was latched, until something addresses it. */
  lemma {:induction false} OutputStaysSafe(b: Board, s: State, validityMs: Field<int>, p: nat, level: Name<SafeLevel>,
                                           activeLow: Name<bool>, es: seq<Event>)
    requires ValidBoard(b) && Inv(b, s)
    requires Handle(b, s, Act(validityMs, SetMode(Value(p), Known(Output), level, activeLow))).1 == Ok
    requires Undisturbed(b, Handle(b, s, Act(validityMs, SetMode(Value(p), Known(Output), level, activeLow))).0, es, p)
    ensures p < |s.configs| &&
            var safe := if level.Known? then level.value else s.configs[p].level;
            RestsAt(Run(b, Handle(b, s, Act(validityMs, SetMode(Value(p), Known(Output), level, activeLow))).0, es),
                    p, safe == High)
  {
    var c := Act(validityMs, SetMode(Value(p), Known(Output), level, activeLow));
    HandleKeeps(b, s, c);
    var safe := if level.Known? then level.value else s.configs[p].level;
    RestStands(b, Handle(b, s, c).0, es, p, safe == High);
  }

  lemma {:induction false} ToggleRests(b: Board, s: State, validityMs: Field<int>, p: nat)
    requires ValidBoard(b) && Inv(b, s) && Handle(b, s, Act(validityMs, Toggle(Value(p)))).1 == Ok
    ensures Inv(b, Handle(b, s, Act(validityMs, Toggle(Value(p)))).0) && p < |s.pins|
    ensures RestsAt(Handle(b, s, Act(validityMs, Toggle(Value(p)))).0, p, !s.pins[p].level)
  {
    HandleKeeps(b, s, Act(validityMs, Toggle(Value(p))));
    TouchKeeps(b, s);
    CancelKeeps(b, Drive(b, Touch(s), p, !s.pins[p].level), p);
  }

  /** Two toggles of a pin leave it at the level latched before, with whatever else happens in between. */
  lemma {:induction false} TogglesCancel(b: Board, s: State, validityMs: Field<int>, p: nat, es: seq<Event>)
    requires ValidBoard(b) && Inv(b, s)
    requires Handle(b, s, Act(validityMs, Toggle(Value(p)))).1 == Ok
    requires Undisturbed(b, Handle(b, s, Act(validityMs, Toggle(Value(p)))).0, es, p)
    requires var s1 := Run(b, Handle(b, s, Act(validityMs, Toggle(Value(p)))).0, es);
             Handle(b, s1, Act(validityMs, Toggle(Value(p)))).1 == Ok
    ensures var s1 := Run(b, Handle(b, s, Act(validityMs, Toggle(Value(p)))).0, es);
            p < |s.pins| && RestsAt(Handle(b, s1, Act(validityMs, Toggle(Value(p)))).0, p, s.pins[p].level)
  {
    ToggleRests(b, s, validityMs, p);
    var once := Handle(b, s, Act(validityMs, Toggle(Value(p)))).0;
    RestStands(b, once, es, p, !s.pins[p].level);
    RunKeeps(b, once, es);
    ToggleRests(b, Run(b, once, es), validityMs, p);
  }

  /** A motor's direction pin keeps the sign of the speed asked for until something addresses it. */
  lemma {:induction false} DirectionStands(b: Board, s: State, validityMs: Field<int>, pwmPin: Field<int>, p: nat,
                                           speed: real,
                                           es: seq<Event>)
    requires ValidBoard(b) && Inv(b, s)
    requires Handle(b, s, Act(validityMs, Motor(pwmPin, Value(p), Value(speed)))).1 == Ok
    requires Undisturbed(b, Handle(b, s, Act(validityMs, Motor(pwmPin, Value(p), Value(speed)))).0, es, p)
    ensures RestsAt(Run(b, Handle(b, s, Act(validityMs, Motor(pwmPin, Value(p), Value(speed)))).0, es), p, speed >= 0.0)
  {
    var c := Act(validityMs, Motor(pwmPin, Value(p), Value(speed)));
    HandleKeeps(b, s, c);
    TouchKeeps(b, s);
    MotorRests(b, Touch(s), pwmPin, p, speed);
    RestStands(b, Handle(b, s, c).0, es, p, speed >= 0.0);
  }

  lemma {:induction false} MotorRests(b: Board, s: State, pwmPin: Field<int>, p: nat, speed: real)
    requires ValidBoard(b) && Inv(b, s) && HandleMotor(b, s, pwmPin, Value(p), Value(speed)).1 == Ok
    ensures RestsAt(HandleMotor(b, s, pwmPin, Value(p), Value(speed)).0, p, speed >= 0.0)
  {
    CancelKeeps(b, s, p);
  }

  // ---- PWM channels over a run ----

  datatype Load = Load(pin: int, duty: int)

  /** The channel a PWM, servo or motor command asks for, and what it puts there. */
  function Asked(b: Board, a: Actuation): Option<(int, Load)>
    requires ValidBoard(b)
  {
    match a
    case Pwm(Value(pin), Value(channel), Value(duty), _) => Some((channel, Load(pin, (duty * 255.0).Floor)))
    case Servo(Value(pin), Value(angle)) =>
      Some((b.servoBase + pin % (b.pwmChannels - b.servoBase), Load(pin, ServoDuty(angle))))
    case Motor(Value(pin), _, Value(speed)) =>
      Some((pin % b.motorChannels, Load(pin, ((if speed < 0.0 then -speed else speed) * 255.0).Floor)))
    case _ => None
  }

  predicate AsksFor(b: Board, a: Actuation, channel: nat)
    requires ValidBoard(b)
  {
    Asked(b, a).Some? && Asked(b, a).value.0 == channel
  }

  predicate StopsOutputs(b: Board, s: State, e: Event)
    requires ValidBoard(b) && Sized(b, s)
  {
    match e
    case Poll => Step(b, s, Poll).phase != s.phase
    case Cmd(Disarm) => true
    case Cmd(StopAll) => true
    case _ => false
  }

  /** Where a channel's load comes from: the start of the run, a stop of all outputs, or a command. */
  datatype Origin = Start | Stop | By(action: Actuation)

  predicate Loads(b: Board, s: State, e: Event, channel: nat)
    requires ValidBoard(b) && Sized(b, s)
  {
    e.Cmd? && e.c.Act? && Handle(b, s, e.c).1 == Ok && AsksFor(b, e.c.action, channel)
  }

  /** What the history says of a channel: the last accepted command on it, unless a stop came later. */
  ghost function LastOn(b: Board, s: State, es: seq<Event>, channel: nat): (o: Origin)
    requires ValidBoard(b) && Sized(b, s)
    ensures o.By? ==> AsksFor(b, o.action, channel)
  {
    if es == [] then Start
    else
      var init, e := es[..|es| - 1], es[|es| - 1];
      if StopsOutputs(b, Run(b, s, init), e) then Stop
      else if Loads(b, Run(b, s, init), e, channel) then By(e.c.action)
      else LastOn(b, s, init, channel)
  }

  function LoadAt(s: State, channel: nat): Load
    requires channel < |s.pwm| == |s.duty|
  {
    Load(s.pwm[channel], s.duty[channel])
  }

  /** The load of that origin, on a channel that began with `start`. */
  function LoadOf(b: Board, o: Origin, start: Load): Load
    requires ValidBoard(b) && (o.By? ==> Asked(b, o.action).Some?)
  {
    match o
    case Start => start
    case Stop => Load(NO_PIN, 0)
    case By(a) => Asked(b, a).value.1
  }

  /** Through any run each channel carries what the last accepted command on it asked for, or nothing after a stop. */
  lemma {:induction false} ChannelsFollowCommands(b: Board, s: State, es: seq<Event>, channel: nat)
    requires ValidBoard(b) && Sized(b, s) && channel < b.pwmChannels
    ensures LoadAt(Run(b, s, es), channel) == LoadOf(b, LastOn(b, s, es, channel), LoadAt(s, channel))
    decreases |es|
  {
    if es != [] {
      var init := es[..|es| - 1];
      ChannelsFollowCommands(b, s, init, channel);
      StepLoad(b, Run(b, s, init), es[|es| - 1], channel);
    }
  }

  lemma {:induction false} StepLoad(b: Board, s: State, e: Event, channel: nat)
    requires ValidBoard(b) && Sized(b, s) && channel < b.pwmChannels
    ensures LoadAt(Step(b, s, e), channel) ==
            if StopsOutputs(b, s, e) then Load(NO_PIN, 0)
            else if Loads(b, s, e, channel) then Asked(b, e.c.action).value.1
            else LoadAt(s, channel)
  {
    if e.Pulses? {
      PollsKeepChannels(b, s, PULSES);
    } else if e.Cmd? && e.c.Act? {
      if s.phase == Armed && !ValidityOver(e.c.validityMs) { ActionLoad(b, Touch(s), e.c.action, channel); }
    }
  }

  lemma {:induction false} PollsKeepChannels(b: Board, s: State, n: nat)
    requires Sized(b, s) && n <= PULSES
    ensures PollPulses(b, s, n).pwm == s.pwm && PollPulses(b, s, n).duty == s.duty
  {
    if n > 0 { PollsKeepChannels(b, s, n - 1); }
  }

  lemma {:induction false} BatchKeepsChannels(b: Board, s: State, writes: seq<(Field<int>, Field<bool>)>)
    requires Sized(b, s) && AllGood(b, writes)
    ensures ApplyBatch(b, s, writes).pwm == s.pwm && ApplyBatch(b, s, writes).duty == s.duty
    decreases |writes|
  {
    if writes != [] {
      assert GoodWrite(b, writes[|writes| - 1]);
      BatchKeepsChannels(b, s, writes[..|writes| - 1]);
    }
  }

  lemma {:induction false} ActionLoad(b: Board, s: State, a: Actuation, channel: nat)
    requires ValidBoard(b) && Sized(b, s) && channel < b.pwmChannels
    ensures LoadAt(HandleAction(b, s, a).0, channel) ==
            if HandleAction(b, s, a).1 == Ok && AsksFor(b, a, channel) then Asked(b, a).value.1
            else LoadAt(s, channel)
  {
    if a.BatchWrite? && a.writes.Some? {
      FaultFound(b, a.writes.value);
      if AllGood(b, a.writes.value) { BatchKeepsChannels(b, s, a.writes.value); }
    }
  }

  /** What an accepted command puts on a channel: a writable pin, and a duty its resolution has. */
  ghost predicate FairLoad(b: Board, a: Actuation)
    requires ValidBoard(b)
  {
    Asked(b, a).Some? ==>
      var load := Asked(b, a).value.1;
      IsWritable(b, load.pin) && if a.Servo? then 3276 <= load.duty <= 6553 else 0 <= load.duty <= 255
  }

  lemma {:induction false} AcceptedLoad(b: Board, s: State, a: Actuation)
    requires ValidBoard(b) && Sized(b, s) && HandleAction(b, s, a).1 == Ok
    ensures FairLoad(b, a)
  {
    if a.Servo? {
      ServoDutyInRange(a.angle.value, 180.0);
      ServoDutyInRange(0.0, a.angle.value);
    } else if a.Motor? {
      var magnitude := if a.speed.value < 0.0 then -a.speed.value else a.speed.value;
      assert 0.0 <= magnitude * 255.0 <= 255.0;
    } else if a.Pwm? {
      assert 0.0 <= a.duty.value * 255.0 <= 255.0;
    }
  }

  lemma {:induction false} LastOnFair(b: Board, s: State, es: seq<Event>, channel: nat)
    requires ValidBoard(b) && Sized(b, s)
    ensures var o := LastOn(b, s, es, channel); o.By? ==> FairLoad(b, o.action)
    decreases |es|
  {
    if es != [] {
      var init, e := es[..|es| - 1], es[|es| - 1];
      LastOnFair(b, s, init, channel);
      if Loads(b, Run(b, s, init), e, channel) { AcceptedLoad(b, Touch(Run(b, s, init)), e.c.action); }
    }
  }

  /**
   From power-up a channel is free and silent, or carries a writable pin: under a servo with a
   16-bit duty of one to two milliseconds, under a PWM or motor command with an 8-bit duty.
   */
  lemma {:induction false} LoadsStayInRange(b: Board, pins: seq<Pin>, es: seq<Event>, channel: nat)
    requires ValidBoard(b) && |pins| == |b.readable| && channel < b.pwmChannels
    ensures var o := LastOn(b, Boot(b, pins), es, channel);
            var load := LoadAt(Run(b, Boot(b, pins), es), channel);
            if !o.By? then load == Load(NO_PIN, 0)
            else IsWritable(b, load.pin)
                 && if o.action.Servo? then 3276 <= load.duty <= 6553 else 0 <= load.duty <= 255
  {
    ChannelsFollowCommands(b, Boot(b, pins), es, channel);
    LastOnFair(b, Boot(b, pins), es, channel);
  }

  /** Where the motor window ends below the servo base, no channel is asked for by a servo and by a motor. */
  lemma {:induction false} WindowsApart(b: Board, servo: Actuation, motor: Actuation, channel: nat)
    requires ValidBoard(b) && b.motorChannels <= b.servoBase && servo.Servo? && motor.Motor?
    ensures !(AsksFor(b, servo, channel) && AsksFor(b, motor, channel))
  {
    if AsksFor(b, servo, channel) {
      var pin := servo.pin.value;
      assert 0 <= pin % (b.pwmChannels - b.servoBase);
      assert channel >= b.servoBase;
    }
    if AsksFor(b, motor, channel) {
      var pin := motor.pwmPin.value;
      assert pin % b.motorChannels < b.motorChannels;
      assert channel < b.motorChannels;
    }
  }

  predicate OtherKind(a: Actuation, c: Actuation) {
    (a.Servo? && c.Motor?) || (a.Motor? && c.Servo?)
  }

  /** Along the run outputs are not stopped, and only commands of the other kind might ask for the channel. */
  ghost predicate OnlyOthers(b: Board, s: State, es: seq<Event>, a: Actuation, channel: nat)
    requires ValidBoard(b) && Sized(b, s)
  {
    es == [] ||
    (var init, e := es[..|es| - 1], es[|es| - 1];
     && OnlyOthers(b, s, init, a, channel) && !StopsOutputs(b, Run(b, s, init), e)
     && (e.Cmd? && e.c.Act? && AsksFor(b, e.c.action, channel) ==> OtherKind(a, e.c.action)))
  }

  /**
   There, a channel last taken by a servo keeps its load however many motor commands follow,
   and one taken by a motor however many servo commands.
   */
  lemma {:induction false} ServosAndMotorsApart(b: Board, s: State, es: seq<Event>, more: seq<Event>, channel: nat)
    requires ValidBoard(b) && Sized(b, s) && b.motorChannels <= b.servoBase && channel < b.pwmChannels
    requires LastOn(b, s, es, channel).By?
    requires OnlyOthers(b, Run(b, s, es), more, LastOn(b, s, es, channel).action, channel)
    ensures LoadAt(Run(b, Run(b, s, es), more), channel) == LoadAt(Run(b, s, es), channel)
    decreases |more|
  {
    if more != [] {
      var a, s1 := LastOn(b, s, es, channel).action, Run(b, s, es);
      var init, e := more[..|more| - 1], more[|more| - 1];
      ServosAndMotorsApart(b, s, es, init, channel);
      StepLoad(b, Run(b, s1, init), e, channel);
      if Loads(b, Run(b, s1, init), e, channel) {
        if a.Servo? { WindowsApart(b, a, e.c.action, channel); } else { WindowsApart(b, e.c.action, a, channel); }
      }
    }
  }

  /** The servo pulse stays between one and two milliseconds of a 20 ms frame, and grows with the angle. */
  lemma {:induction false} ServoDutyInRange(angle: real, wider: real)
    requires 0.0 <= angle <= wider <= 180.0
    ensures 3276 <= ServoDuty(angle) <= ServoDuty(wider) <= 6553
  {
    var near, far := angle / 180.0 * 1000.0, wider / 180.0 * 1000.0;
    assert 0.0 <= near <= far <= 1000.0;
    DutyGrows(near.Floor, far.Floor);
  }

  /**
   The duty stands for the pulse width asked for, one millisecond plus a share of another one:
   it is off by less than one step of the 16-bit duty and one microsecond.
   */
  lemma {:induction false} ServoDutyAccurate(angle: real)
    requires 0.0 <= angle <= 180.0
    ensures var width := 1000.0 + angle / 180.0 * 1000.0;
            var duty := ServoDuty(angle) as real;
            duty * 20000.0 <= width * 65535.0 < (duty + 1.0) * 20000.0 + 65535.0
  {
    var share := angle / 180.0 * 1000.0;
    var whole := share.Floor;
    var duty := (1000 + whole) * 65535 / 20000;
    assert 0.0 <= share <= 1000.0 && whole as real <= share < whole as real + 1.0;
    assert duty * 20000 <= (1000 + whole) * 65535 < (duty + 1) * 20000;
  }

  lemma {:induction false} DutyGrows(near: int, far: int)
    requires 0 <= near <= far <= 1000
    ensures 3276 <= (1000 + near) * 65535 / 20000 <= (1000 + far) * 65535 / 20000 <= 6553
  {
  }
}
