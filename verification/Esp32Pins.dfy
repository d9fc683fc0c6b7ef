/**
 The ESP32 bridge pin by pin: which commands are accepted and what the others are answered,
 what every step makes of every pin, spelled out, and the shape of a pulse.
 */
module Esp32Pins {
  import opened Prelude
  import opened ArmedSession
  import opened Esp32
  import opened Esp32Safety
  import opened Esp32Runs
  import opened Esp32Effects

  // ---- Acceptance ----

  /** A field the command cannot do without is missing or of another type. */
  predicate Incomplete(a: Actuation) {
    match a
    case SetMode(pin, mode, _, _) => !pin.Value? || mode == NotGiven
    case Write(pin, value) => !pin.Value? || !value.Value?
    case BatchWrite(writes) => writes.None? || |writes.value| < 1 || |writes.value| > 16
    case Toggle(pin) => !pin.Value?
    case StartPulse(pin, value, durationMs) => !pin.Value? || !value.Value? || !durationMs.Value?
    case Pwm(pin, channel, duty, frequency) =>
      !pin.Value? || !channel.Value? || !duty.Value? || !frequency.Value?
    case Servo(pin, angle) => !pin.Value? || !angle.Value?
    case Motor(pwmPin, _, speed) => !pwmPin.Value? || !speed.Value?
  }

  predicate MayDrive(b: Board, pin: Field<int>) {
    pin.Value? && 0 <= pin.value < |b.writable| && b.writable[pin.value]
  }

  predicate MayRead(b: Board, pin: Field<int>) {
    pin.Value? && 0 <= pin.value < |b.readable| && b.readable[pin.value]
  }

  /** A complete command names a pin it may not use, or a value that is answered like one. */
  predicate Misplaced(b: Board, a: Actuation)
    requires !Incomplete(a)
  {
    match a
    case SetMode(pin, mode, _, _) => !MayRead(b, pin) || (mode == Known(Output) && !MayDrive(b, pin))
    case Write(pin, _) => !MayDrive(b, pin)
    case BatchWrite(_) => false
    case Toggle(pin) => !MayDrive(b, pin)
    case StartPulse(pin, _, durationMs) => !MayDrive(b, pin) || durationMs.value <= 0
    case Pwm(pin, channel, duty, frequency) =>
      || !MayDrive(b, pin) || channel.value < 0 || channel.value >= b.pwmChannels
      || duty.value < 0.0 || duty.value > 1.0 || frequency.value <= 0
    case Servo(pin, _) => !MayDrive(b, pin)
    case Motor(pwmPin, dirPin, _) => !MayDrive(b, pwmPin) || (dirPin.Value? && !MayDrive(b, dirPin))
  }

  /** A complete and well placed command asks for something it knows no meaning for. */
  predicate OutOfRange(a: Actuation)
    requires !Incomplete(a)
  {
    match a
    case SetMode(_, mode, level, activeLow) => mode == Unknown || level == Unknown || activeLow == Unknown
    case Servo(_, angle) => angle.value < 0.0 || angle.value > 180.0
    case Motor(_, dirPin, speed) =>
      speed.value > 1.0 || speed.value < if dirPin.Value? then -1.0 else 0.0
    case _ => false
  }

  /** The first write of a batch that is not a value for a pin that may be driven. */
  ghost predicate FirstBad(b: Board, writes: seq<(Field<int>, Field<bool>)>, k: nat) {
    && k < |writes| && !(writes[k].1.Value? && MayDrive(b, writes[k].0))
    && forall j :: 0 <= j < k ==> writes[j].1.Value? && MayDrive(b, writes[j].0)
  }

  ghost predicate BatchBad(b: Board, a: Actuation) {
    a.BatchWrite? && a.writes.Some? && exists k: nat :: FirstBad(b, a.writes.value, k)
  }

  /** Every slot of the pulse table runs a pulse on another pin. */
  ghost predicate NoSlot(pulses: seq<Pulse>, a: Actuation) {
    a.StartPulse? && a.pin.Value? && forall i :: 0 <= i < |pulses| ==> pulses[i].active && pulses[i].pin != a.pin.value
  }

  ghost predicate Accepts(b: Board, pulses: seq<Pulse>, a: Actuation) {
    !Incomplete(a) && !Misplaced(b, a) && !OutOfRange(a) && !BatchBad(b, a) && !NoSlot(pulses, a)
  }

  lemma {:induction false} SlotExactly(pulses: seq<Pulse>, pin: int, i: nat, free: nat)
    requires i <= |pulses| && free <= |pulses|
    ensures FindSlot(pulses, pin, i, free) < |pulses| <==>
              free < |pulses| || exists j :: i <= j < |pulses| && (!pulses[j].active || pulses[j].pin == pin)
    decreases |pulses| - i
  {
    if i < |pulses| && !(pulses[i].active && pulses[i].pin == pin) {
      SlotExactly(pulses, pin, i + 1, if !pulses[i].active && free == |pulses| then i else free);
    }
  }

  lemma {:induction false} FirstBadLater(b: Board, writes: seq<(Field<int>, Field<bool>)>, k: nat)
    requires writes != [] && GoodWrite(b, writes[0])
    ensures FirstBad(b, writes, k + 1) <==> FirstBad(b, writes[1..], k)
    ensures !FirstBad(b, writes, 0)
  {
    var rest := writes[1..];
    assert forall j :: 0 <= j < |rest| ==> rest[j] == writes[j + 1];
    if FirstBad(b, rest, k) {
      forall j | 0 <= j < k + 1 ensures writes[j].1.Value? && MayDrive(b, writes[j].0) {
        if j > 0 { assert rest[j - 1] == writes[j]; }
      }
    }
  }

  /** The fault of a batch is that of its first bad write. */
  lemma {:induction false} BatchFaultExactly(b: Board, writes: seq<(Field<int>, Field<bool>)>) returns (k: nat)
    ensures BatchFault(b, writes) == Ok ==> forall j: nat :: !FirstBad(b, writes, j)
    ensures BatchFault(b, writes) != Ok ==>
              FirstBad(b, writes, k) &&
              BatchFault(b, writes) == if writes[k].0.Value? && writes[k].1.Value? then InvalidPin else InvalidPayload
  {
    k := 0;
    if writes != [] && GoodWrite(b, writes[0]) {
      var later := BatchFaultExactly(b, writes[1..]);
      k := later + 1;
      FirstBadLater(b, writes, later);
      forall j: nat | BatchFault(b, writes) == Ok ensures !FirstBad(b, writes, j) {
        FirstBadLater(b, writes, if j > 0 then j - 1 else 0);
      }
    }
  }

  lemma {:induction false} FirstBadUnique(b: Board, writes: seq<(Field<int>, Field<bool>)>, j: nat, k: nat)
    requires FirstBad(b, writes, j) && FirstBad(b, writes, k)
    ensures j == k
  {
  }

  lemma {:induction false} BatchReply(b: Board, s: State, a: Actuation)
    requires Sized(b, s) && a.BatchWrite? && !Incomplete(a)
    ensures BatchBad(b, a) <==> HandleBatch(b, s, a.writes).1 != Ok
    ensures forall k: nat :: FirstBad(b, a.writes.value, k) ==>
              HandleBatch(b, s, a.writes).1 ==
              if a.writes.value[k].0.Value? && a.writes.value[k].1.Value? then InvalidPin else InvalidPayload
  {
    var writes := a.writes.value;
    var k := BatchFaultExactly(b, writes);
    if BatchFault(b, writes) != Ok {
      forall j: nat | FirstBad(b, writes, j) ensures j == k { FirstBadUnique(b, writes, j, k); }
    }
  }

  lemma {:induction false} PulseReply(b: Board, s: State, a: Actuation)
    requires Sized(b, s) && a.StartPulse? && !Incomplete(a)
    ensures HandlePulse(b, s, a.pin, a.value, a.durationMs).1 ==
            if Misplaced(b, a) then InvalidPin else if NoSlot(s.pulses, a) then Busy else Ok
  {
    SlotExactly(s.pulses, a.pin.value, 0, PULSES);
  }

  lemma {:induction false} ActionReply(b: Board, s: State, a: Actuation)
    requires ValidBoard(b) && Sized(b, s)
    ensures var reply := HandleAction(b, s, a).1;
            if Incomplete(a) then reply == InvalidPayload
            else if Misplaced(b, a) then reply == InvalidPin
            else if OutOfRange(a) then reply == InvalidPayload
            else if BatchBad(b, a) then
              reply in {InvalidPin, InvalidPayload} &&
              forall k: nat :: FirstBad(b, a.writes.value, k) ==>
                reply == if a.writes.value[k].0.Value? && a.writes.value[k].1.Value?
                         then InvalidPin else InvalidPayload
            else reply == if NoSlot(s.pulses, a) then Busy else Ok
  {
    if !Incomplete(a) {
      if a.BatchWrite? { BatchReply(b, s, a); }
      if a.StartPulse? { PulseReply(b, s, a); }
    }
  }

  /** An actuation is carried out exactly while armed, in time, and when it is acceptable. */
  lemma {:induction false} AcceptedExactly(b: Board, s: State, validityMs: Field<int>, a: Actuation)
    requires ValidBoard(b) && Sized(b, s)
    ensures Handle(b, s, Act(validityMs, a)).1 == Ok <==>
            s.phase == Armed && !Expires(validityMs) && Accepts(b, s.pulses, a)
    ensures Handle(b, s, Act(validityMs, a)).1 == CommandExpired <==> Expires(validityMs)
    ensures Handle(b, s, Act(validityMs, a)).1 == NotArmed <==> !Expires(validityMs) && s.phase == Disarmed
    ensures Handle(b, s, Act(validityMs, a)).1 == WatchdogTripped <==> !Expires(validityMs) && s.phase == Tripped
  {
    ActionReply(b, Touch(s), a);
    assert Touch(s).pulses == s.pulses;
  }

  /** What the commands about the session are answered. */
  lemma {:induction false} SessionReplies(b: Board, s: State, ms: Field<int>)
    requires ValidBoard(b) && Sized(b, s)
    ensures Handle(b, s, Arm(ms)).1 == if ms.Value? && ms.value < 0 then InvalidPayload else Ok
    ensures Handle(b, s, Configure(ms)).1 == if ms.Value? && ms.value >= 0 then Ok else InvalidPayload
    ensures Handle(b, s, Kick(ms)).1 ==
            if Expires(ms) then CommandExpired
            else match s.phase case Disarmed => NotArmed case Tripped => WatchdogTripped case Armed => Ok
    ensures Handle(b, s, Disarm).1 == Ok && Handle(b, s, StopAll).1 == Ok && Handle(b, s, Info).1 == Ok
    ensures Handle(b, s, Malformed).1 == InvalidMessage && Handle(b, s, UnknownAction).1 == UnknownActionError
  {
  }

  /** A safe level is configured for a pin that may be driven. */
  lemma {:induction false} ConfigReply(b: Board, s: State, pin: Field<int>, level: Name<SafeLevel>,
                                       activeLow: Name<bool>)
    requires ValidBoard(b) && Sized(b, s)
    ensures Handle(b, s, ConfigSafe(pin, level, activeLow)).1 ==
            if !pin.Value? then InvalidPayload
            else if !MayDrive(b, pin) then InvalidPin
            else if level == Unknown || activeLow == Unknown then InvalidPayload else Ok
  {
  }

  /** A digital read gives the level of an output's latch, or the level applied to another pin. */
  lemma {:induction false} ReadReplies(b: Board, s: State, pin: Field<int>)
    requires ValidBoard(b) && Sized(b, s)
    ensures Handle(b, s, Read(pin)).1 ==
            if !pin.Value? then InvalidPayload
            else if !MayRead(b, pin) then InvalidPin
            else Level(if s.pins[pin.value].mode == Output then s.pins[pin.value].level else s.pins[pin.value].external)
    ensures Handle(b, s, AnalogRead(pin)).1 ==
            if !pin.Value? then InvalidPayload
            else if MayRead(b, pin) && pin.value < |b.adc| && b.adc[pin.value] then Ok else InvalidPin
  {
  }

  // ---- One pin ----

  /** A pin as one sees it: its drive, its activity flag, its configuration, and the pulse running on it. */
  datatype PinView = PinView(pin: Pin, active: bool, config: PinConfig, pulse: Option<Pulse>)

  function RunningOn(pulses: seq<Pulse>, p: int): (o: Option<Pulse>)
    ensures o.None? <==> NotPulsing(pulses, p)
    ensures o.Some? ==> o.value in pulses && o.value.active && o.value.pin == p
  {
    if pulses == [] then None
    else
      var last := pulses[|pulses| - 1];
      if last.active && last.pin == p then Some(last) else RunningOn(pulses[..|pulses| - 1], p)
  }

  function ViewOf(s: State, p: nat): PinView
    requires p < |s.pins| == |s.active| == |s.configs|
  {
    PinView(s.pins[p], s.active[p], s.configs[p], RunningOn(s.pulses, p))
  }

  /** Driven as an output at this level, with no pulse any more. */
  function Driven(v: PinView, level: bool): PinView {
    PinView(Pin(Output, level, v.pin.external), true, v.config, None)
  }

  /** The level that a pulse will return the pin to: that of the pulse it replaces, else the one read now. */
  function LevelBefore(v: PinView): bool {
    if v.pulse.Some? then v.pulse.value.previous else if v.pin.mode == Output then v.pin.level else v.pin.external
  }

  /** The last value that an accepted batch writes to the pin. */
  ghost predicate LastWritten(writes: seq<(Field<int>, Field<bool>)>, p: int, k: nat) {
    k < |writes| && writes[k].0 == Value(p) && forall j :: k < j < |writes| ==> writes[j].0 != Value(p)
  }

  /** An accepted actuation and one pin. */
  ghost predicate AfterAction(a: Actuation, now: nat, p: nat, v: PinView, w: PinView) {
    match a
    case SetMode(pin, mode, level, activeLow) =>
      if pin != Value(p) then w == v
      else
        && w.config.level == (if level.Known? then level.value else v.config.level)
        && w.config.activeLow == (if activeLow.Known? then activeLow.value else v.config.activeLow)
        && w.config.configured == (v.config.configured || level.Known? || activeLow.Known?)
        && mode == Known(w.pin.mode) && w.pin.external == v.pin.external && w.pulse.None?
        && w.pin.level == (if mode == Known(Output) then w.config.level == High else v.pin.level)
        && (w.active <==> mode != Known(Input))
    case Write(pin, value) => w == if pin == Value(p) && value.Value? then Driven(v, value.value) else v
    case BatchWrite(writes) =>
      writes.Some? &&
      if WritesPin(writes.value, p) then
        exists k: nat :: LastWritten(writes.value, p, k) && writes.value[k].1.Value?
                    && w == Driven(v, writes.value[k].1.value)
      else w == v
    case Toggle(pin) => w == if pin == Value(p) then Driven(v, !v.pin.level) else v
    case StartPulse(pin, value, durationMs) =>
      if pin != Value(p) then w == v
      else
        && value.Value? && durationMs.Value? && durationMs.value > 0
        && var due := now + durationMs.value;
        w == Driven(v, value.value).(pulse := Some(Pulse(p, due % WRAP, due, LevelBefore(v), true)))
    case Pwm(pin, _, _, _) => w == if pin == Value(p) then v.(active := true, pulse := None) else v
    case Servo(pin, _) => w == if pin == Value(p) then v.(active := true, pulse := None) else v
    case Motor(pwmPin, dirPin, speed) =>
      w == if dirPin == Value(p) && speed.Value? then Driven(v, speed.value >= 0.0)
           else if pwmPin == Value(p) then v.(active := true, pulse := None) else v
  }

  /** The outputs are stopped. */
  ghost predicate AfterStop(v: PinView, w: PinView) {
    && w.config == v.config && w.pulse.None?
    && if v.active || v.config.configured then
         AtSafeLevel(v.config.level, v.pin, w.pin) && SafeFlag(v.config.level, v.active, w.active)
       else w.pin == v.pin && !w.active
  }

  /** What a step makes of pin `p`. */
  ghost predicate PinAfter(b: Board, s: State, e: Event, p: nat, v: PinView, w: PinView)
    requires ValidBoard(b) && Sized(b, s)
  {
    if Stops(b, s, e) then AfterStop(v, w)
    else
      match e
      case External(q, level) => w == if q == p then v.(pin := v.pin.(external := level)) else v
      case Pulses =>
        w == if v.pulse.Some? && Due(Millis(s.now), v.pulse.value.until)
             then v.(pin := v.pin.(level := v.pulse.value.previous), pulse := None) else v
      case Cmd(ConfigSafe(pin, level, activeLow)) =>
        if pin == Value(p) && MayDrive(b, pin) && level != Unknown && activeLow != Unknown
        then w == v.(config := PinConfig(if level.Known? then level.value else Low, activeLow == Known(true), true))
        else w == v
      case Cmd(Act(validityMs, a)) =>
        if s.phase == Armed && !Expires(validityMs) && Accepts(b, s.pulses, a) then AfterAction(a, s.now, p, v, w)
        else w == v
      case _ => w == v
  }

  // ---- Pulses by pin ----

  lemma {:induction false} RunningIs(pulses: seq<Pulse>, p: int, i: nat)
    requires i < |pulses| && pulses[i].active && pulses[i].pin == p
    requires forall j :: 0 <= j < |pulses| && j != i ==> !(pulses[j].active && pulses[j].pin == p)
    ensures RunningOn(pulses, p) == Some(pulses[i])
  {
    if i < |pulses| - 1 {
      var init := pulses[..|pulses| - 1];
      assert forall j :: 0 <= j < |init| ==> init[j] == pulses[j];
      RunningIs(init, p, i);
    }
  }

  /** The same running pulses of a pin in the same slots are the same pulse. */
  lemma {:induction false} RunningSame(before: seq<Pulse>, after: seq<Pulse>, p: int)
    requires |before| == |after|
    requires forall i :: 0 <= i < |before| ==>
               (before[i].active && before[i].pin == p ==> after[i] == before[i])
               && (after[i].active && after[i].pin == p ==> after[i] == before[i])
    ensures RunningOn(after, p) == RunningOn(before, p)
  {
    if before != [] {
      var n := |before| - 1;
      assert forall i :: 0 <= i < n ==> before[..n][i] == before[i] && after[..n][i] == after[i];
      RunningSame(before[..n], after[..n], p);
    }
  }

  lemma {:induction false} SameSeen(b: Board, s: State, s': State, p: nat)
    requires Sized(b, s) && Sized(b, s') && SameFor(s, s', p)
    requires s'.pins[p].external == s.pins[p].external && s'.active[p] == s.active[p] && s'.configs == s.configs
    ensures ViewOf(s', p) == ViewOf(s, p)
  {
    RunningSame(s.pulses, s'.pulses, p);
  }

  lemma {:induction false} CancelSeen(s: State, q: int, p: int)
    ensures RunningOn(CancelPulse(s, q).pulses, p) == if p == q then None else RunningOn(s.pulses, p)
  {
    if p == q {
      assert NotPulsing(CancelPulse(s, q).pulses, p);
    } else {
      RunningSame(s.pulses, CancelPulse(s, q).pulses, p);
    }
  }

  // ---- Each kind of step ----

  lemma {:induction false} ModeSeen(b: Board, s: State, a: Actuation, p: nat)
    requires Sized(b, s) && p < |s.pins| && a.SetMode? && Accepts(b, s.pulses, a)
    ensures AfterAction(a, s.now, p, ViewOf(s, p), ViewOf(HandleMode(b, s, a.pin, a.mode, a.level, a.activeLow).0, p))
  {
    CancelSeen(s, a.pin.value, p);
  }

  lemma {:induction false} WriteSeen(b: Board, s: State, q: nat, level: bool, p: nat)
    requires Sized(b, s) && p < |s.pins| && q < |s.pins|
    ensures ViewOf(CancelPulse(Drive(b, s, q, level), q), p) ==
            if p == q then Driven(ViewOf(s, p), level) else ViewOf(s, p)
    ensures ViewOf(Drive(b, CancelPulse(s, q), q, level), p) ==
            if p == q then Driven(ViewOf(s, p), level) else ViewOf(s, p)
  {
    CancelSeen(s, q, p);
  }

  lemma {:induction false} AttachSeen(b: Board, s: State, q: nat, channel: nat, duty: int, p: nat)
    requires Sized(b, s) && p < |s.pins| && q < |s.pins| && channel < b.pwmChannels
    ensures ViewOf(Attach(b, s, q, channel, duty), p) ==
            if p == q then ViewOf(s, p).(active := true, pulse := None) else ViewOf(s, p)
  {
    CancelSeen(s, q, p);
  }

  /** What a list of writes makes of a pin. */
  ghost predicate Written(writes: seq<(Field<int>, Field<bool>)>, p: int, v: PinView, w: PinView) {
    if WritesPin(writes, p) then
      exists k: nat :: LastWritten(writes, p, k) && writes[k].1.Value? && w == Driven(v, writes[k].1.value)
    else w == v
  }

  lemma {:induction false} WrittenSnoc(writes: seq<(Field<int>, Field<bool>)>, last: (Field<int>, Field<bool>), p: int,
                                       v: PinView, w: PinView)
    requires Written(writes, p, v, w) && last.0.Value? && last.1.Value?
    ensures Written(writes + [last], p, v, if last.0 == Value(p) then Driven(w, last.1.value) else w)
  {
    var more, n := writes + [last], |writes|;
    assert forall i :: 0 <= i < n ==> more[i] == writes[i];
    assert more[n] == last;
    if last.0 == Value(p) {
      assert LastWritten(more, p, n);
      assert Driven(w, last.1.value) == Driven(v, last.1.value);
    } else if WritesPin(writes, p) {
      var k: nat :| LastWritten(writes, p, k) && writes[k].1.Value? && w == Driven(v, writes[k].1.value);
      assert LastWritten(more, p, k);
    }
  }

  lemma {:induction false} BatchSeen(b: Board, s: State, writes: seq<(Field<int>, Field<bool>)>, p: nat)
    requires Sized(b, s) && p < |s.pins| && forall i :: 0 <= i < |writes| ==> GoodWrite(b, writes[i])
    ensures Written(writes, p, ViewOf(s, p), ViewOf(ApplyBatch(b, s, writes), p))
    decreases |writes|
  {
    if writes != [] {
      var init, last := writes[..|writes| - 1], writes[|writes| - 1];
      assert GoodWrite(b, last);
      assert forall i :: 0 <= i < |init| ==> init[i] == writes[i];
      BatchSeen(b, s, init, p);
      var s1 := ApplyBatch(b, s, init);
      WriteSeen(b, s1, last.0.value, last.1.value, p);
      WrittenSnoc(init, last, p, ViewOf(s, p), ViewOf(s1, p));
      assert writes == init + [last];
    }
  }

  /** An accepted pulse takes the slot of the pulse it replaces, with its earlier level, or a free one. */
  lemma {:induction false} PulseTakesSlot(b: Board, s: State, a: Actuation) returns (slot: nat, previous: bool)
    requires Inv(b, s) && a.StartPulse? && Accepts(b, s.pulses, a)
    ensures slot < PULSES && MayDrive(b, a.pin)
    ensures if s.pulses[slot].active then s.pulses[slot].pin == a.pin.value else NotPulsing(s.pulses, a.pin.value)
    ensures previous == if s.pulses[slot].active then s.pulses[slot].previous else DigitalRead(s.pins[a.pin.value])
    ensures HandlePulse(b, s, a.pin, a.value, a.durationMs).0 ==
            Pulsing(Drive(b, s, a.pin.value, a.value.value), slot, a.pin.value, a.durationMs.value, previous)
  {
    slot := FindSlot(s.pulses, a.pin.value, 0, PULSES);
    SlotFound(s.pulses, a.pin.value, 0, PULSES);
    SlotExactly(s.pulses, a.pin.value, 0, PULSES);
    previous := if s.pulses[slot].active then s.pulses[slot].previous else DigitalRead(s.pins[a.pin.value]);
  }

  lemma {:induction false} SlotLevel(b: Board, s: State, slot: nat, p: nat, previous: bool)
    requires Inv(b, s) && p < |s.pins| && slot < PULSES
    requires if s.pulses[slot].active then s.pulses[slot].pin == p else NotPulsing(s.pulses, p)
    requires previous == if s.pulses[slot].active then s.pulses[slot].previous else DigitalRead(s.pins[p])
    ensures LevelBefore(ViewOf(s, p)) == previous
  {
    if s.pulses[slot].active { RunningIs(s.pulses, p, slot); }
  }

  lemma {:induction false} PulsingSeen(b: Board, s: State, slot: nat, q: nat, level: bool, ms: nat, previous: bool,
                                       p: nat)
    requires Sized(b, s) && PulsesInv(b, s) && p < |s.pins| && q < |s.pins| && slot < PULSES == |s.pulses|
    requires if s.pulses[slot].active then s.pulses[slot].pin == q else NotPulsing(s.pulses, q)
    ensures ViewOf(Pulsing(Drive(b, s, q, level), slot, q, ms, previous), p) ==
            if p == q then
              var u := Pulse(q, DeadlineAfter(s.now, ms), s.now + ms, previous, true);
              Driven(ViewOf(s, p), level).(pulse := Some(u))
            else ViewOf(s, p)
  {
    var driven := Drive(b, s, q, level);
    SlotSeen(b, s, slot, q, ms, previous, p);
    assert Pulsing(driven, slot, q, ms, previous).pulses == Pulsing(s, slot, q, ms, previous).pulses;
    assert ViewOf(driven, p).pulse == ViewOf(s, p).pulse;
  }

  lemma {:induction false} PulseAfter(a: Actuation, now: nat, p: nat, v: PinView, w: PinView, previous: bool)
    requires a.StartPulse? && a.pin.Value? && a.value.Value? && a.durationMs.Value? && a.durationMs.value > 0
    requires p == a.pin.value ==> LevelBefore(v) == previous
    requires w == if p != a.pin.value then v
                  else var ms := a.durationMs.value;
                       Driven(v, a.value.value).(pulse := Some(Pulse(p, DeadlineAfter(now, ms), now + ms, previous,
                                                                     true)))
    ensures AfterAction(a, now, p, v, w)
  {
    DueOfDeadline(now, a.durationMs.value);
  }

  lemma {:induction false} PulseSeen(b: Board, s: State, a: Actuation, p: nat)
    requires Inv(b, s) && p < |s.pins| && a.StartPulse? && Accepts(b, s.pulses, a)
    ensures AfterAction(a, s.now, p, ViewOf(s, p), ViewOf(HandlePulse(b, s, a.pin, a.value, a.durationMs).0, p))
  {
    var slot, previous := PulseTakesSlot(b, s, a);
    var q: nat, ms: nat := a.pin.value, a.durationMs.value;
    if p == q { SlotLevel(b, s, slot, p, previous); }
    PulsingSeen(b, s, slot, q, a.value.value, ms, previous, p);
    PulseAfter(a, s.now, p, ViewOf(s, p),
               ViewOf(Pulsing(Drive(b, s, q, a.value.value), slot, q, ms, previous), p), previous);
  }

  /** A pulse entered in the slot chosen for its pin. */
  lemma {:induction false} SlotSeen(b: Board, s: State, slot: nat, q: nat, ms: nat, previous: bool, p: nat)
    requires PulsesInv(b, s) && p < |s.pins| && q < |s.pins| && slot < PULSES == |s.pulses|
    requires if s.pulses[slot].active then s.pulses[slot].pin == q else NotPulsing(s.pulses, q)
    ensures RunningOn(Pulsing(s, slot, q, ms, previous).pulses, p) ==
            if p == q then Some(Pulse(q, DeadlineAfter(s.now, ms), s.now + ms, previous, true))
            else RunningOn(s.pulses, p)
  {
    var after := Pulsing(s, slot, q, ms, previous).pulses;
    if p == q { RunningIs(after, p, slot); } else { RunningSame(s.pulses, after, p); }
  }

  lemma {:induction false} MotorSeen(b: Board, s: State, a: Actuation, p: nat)
    requires ValidBoard(b) && Sized(b, s) && p < |s.pins| && a.Motor? && Accepts(b, s.pulses, a)
    ensures AfterAction(a, s.now, p, ViewOf(s, p), ViewOf(HandleMotor(b, s, a.pwmPin, a.dirPin, a.speed).0, p))
  {
    var s1 := if a.dirPin.Value? then CancelPulse(s, a.dirPin.value) else s;
    var magnitude := if a.speed.value < 0.0 then -a.speed.value else a.speed.value;
    AttachSeen(b, s1, a.pwmPin.value, a.pwmPin.value % b.motorChannels, (magnitude * 255.0).Floor, p);
    if a.dirPin.Value? { CancelSeen(s, a.dirPin.value, p); }
  }

  lemma {:induction false} GoodBatch(b: Board, writes: seq<(Field<int>, Field<bool>)>)
    requires forall k: nat :: !FirstBad(b, writes, k)
    ensures BatchFault(b, writes) == Ok && forall i :: 0 <= i < |writes| ==> GoodWrite(b, writes[i])
  {
    var k := BatchFaultExactly(b, writes);
  }

  lemma {:induction false} ActionSeen(b: Board, s: State, a: Actuation, p: nat)
    requires ValidBoard(b) && Inv(b, s) && p < |s.pins| && Accepts(b, s.pulses, a)
    ensures AfterAction(a, s.now, p, ViewOf(s, p), ViewOf(HandleAction(b, s, a).0, p))
  {
    match a
    case SetMode(_, _, _, _) => ModeSeen(b, s, a, p);
    case Write(pin, value) => WriteSeen(b, s, pin.value, value.value, p);
    case BatchWrite(writes) =>
      GoodBatch(b, writes.value);
      BatchSeen(b, s, writes.value, p);
    case Toggle(pin) => WriteSeen(b, s, pin.value, !s.pins[pin.value].level, p);
    case StartPulse(_, _, _) => PulseSeen(b, s, a, p);
    case Pwm(pin, channel, duty, _) => AttachSeen(b, s, pin.value, channel.value, (duty.value * 255.0).Floor, p);
    case Servo(pin, angle) =>
      AttachSeen(b, s, pin.value, b.servoBase + pin.value % (b.pwmChannels - b.servoBase), ServoDuty(angle.value), p);
    case Motor(_, _, _) => MotorSeen(b, s, a, p);
  }

  lemma {:induction false} TouchSeen(b: Board, s: State, p: nat)
    requires Sized(b, s) && p < |s.pins|
    ensures ViewOf(Touch(s), p) == ViewOf(s, p) && Touch(s).pulses == s.pulses && Touch(s).now == s.now
  {
  }

  lemma {:induction false} ActSeen(b: Board, s: State, validityMs: Field<int>, a: Actuation, p: nat)
    requires ValidBoard(b) && Inv(b, s) && p < |s.pins|
    ensures var w := ViewOf(Handle(b, s, Act(validityMs, a)).0, p);
            if s.phase == Armed && !Expires(validityMs) && Accepts(b, s.pulses, a)
            then AfterAction(a, s.now, p, ViewOf(s, p), w) else w == ViewOf(s, p)
  {
    TouchSeen(b, s, p);
    TouchKeeps(b, s);
    AcceptedExactly(b, s, validityMs, a);
    if Handle(b, s, Act(validityMs, a)).1 == Ok {
      ActionSeen(b, Touch(s), a, p);
    } else {
      RefusedMovesNothing(b, s, validityMs, a);
    }
  }

  lemma {:induction false} StopSeen(b: Board, s: State, e: Event, p: nat)
    requires ValidBoard(b) && Inv(b, s) && p < |s.pins| && Stops(b, s, e)
    ensures AfterStop(ViewOf(s, p), ViewOf(Step(b, s, e), p))
  {
    SessionEndDeenergizes(b, s, e);
    assert NotPulsing(Step(b, s, e).pulses, p);
  }

  lemma {:induction false} PollsSeen(b: Board, s: State, p: nat)
    requires Inv(b, s) && p < |s.pins|
    ensures var v, w := ViewOf(s, p), ViewOf(PollPulses(b, s, PULSES), p);
            w == if v.pulse.Some? && Due(Millis(s.now), v.pulse.value.until)
                 then v.(pin := v.pin.(level := v.pulse.value.previous), pulse := None) else v
  {
    var s' := PollPulses(b, s, PULSES);
    PollsKeepRest(b, s, PULSES, p);
    PollPulsesFor(b, s, PULSES, p);
    if i :| 0 <= i < |s.pulses| && s.pulses[i].active && s.pulses[i].pin == p {
      RunningIs(s.pulses, p, i);
      PollsEnd(b, s, PULSES, i);
      if SameFor(s, s', p) { SameSeen(b, s, s', p); }
    } else {
      SameSeen(b, s, s', p);
    }
  }

  lemma {:induction false} PollsKeepRest(b: Board, s: State, n: nat, p: nat)
    requires Sized(b, s) && n <= PULSES && p < |s.pins|
    ensures var s' := PollPulses(b, s, n);
            && s'.active == s.active && s'.configs == s.configs
            && s'.pins[p].external == s.pins[p].external && s'.pins[p].mode == s.pins[p].mode
  {
    if n > 0 { PollsKeepRest(b, s, n - 1, p); }
  }

  /** Every step does to every pin what it should, and to no other pin anything. */
  lemma {:induction false} StepPins(b: Board, s: State, e: Event, p: nat)
    requires ValidBoard(b) && Inv(b, s) && p < |s.pins|
    ensures PinAfter(b, s, e, p, ViewOf(s, p), ViewOf(Step(b, s, e), p))
  {
    if Stops(b, s, e) {
      StopSeen(b, s, e, p);
    } else {
      match e
      case Pulses => PollsSeen(b, s, p);
      case Cmd(Act(validityMs, a)) => ActSeen(b, s, validityMs, a, p);
      case Cmd(c) => CommandSeen(b, s, c, p);
      case _ =>
    }
  }

  lemma {:induction false} CommandSeen(b: Board, s: State, c: Command, p: nat)
    requires ValidBoard(b) && Sized(b, s) && p < |s.pins| && !c.Act? && c != Disarm && c != StopAll
    ensures var v, w := ViewOf(s, p), ViewOf(Handle(b, s, c).0, p);
            w == if c.ConfigSafe? && c.pin == Value(p) && MayDrive(b, c.pin)
                    && c.level != Unknown && c.activeLow != Unknown
                 then v.(config := PinConfig(if c.level.Known? then c.level.value else Low, c.activeLow == Known(true),
                                             true))
                 else v
  {
  }

  // ---- The life of one pin ----

  ghost predicate LifeOf(b: Board, pins: seq<Pin>, es: seq<Event>, p: nat, life: seq<PinView>)
    requires ValidBoard(b) && |pins| == |b.readable| && p < |pins|
  {
    && |life| == |es| + 1 && life[0] == PinView(pins[p], false, PinConfig(Low, false, false), None)
    && forall k :: 0 <= k < |es| ==> PinAfter(b, Run(b, Boot(b, pins), es[..k]), es[k], p, life[k], life[k + 1])
  }

  lemma {:induction false} LifeGoesOn(b: Board, pins: seq<Pin>, es: seq<Event>, p: nat, life: seq<PinView>, e: Event,
                                      next: PinView)
    requires ValidBoard(b) && |pins| == |b.readable| && p < |pins| && LifeOf(b, pins, es, p, life)
    requires PinAfter(b, Run(b, Boot(b, pins), es), e, p, life[|es|], next)
    ensures LifeOf(b, pins, es + [e], p, life + [next])
  {
    var more, lives := es + [e], life + [next];
    forall k | 0 <= k < |more|
      ensures PinAfter(b, Run(b, Boot(b, pins), more[..k]), more[k], p, lives[k], lives[k + 1])
    {
      assert more[..k] == es[..k];
      if k == |es| { assert es[..k] == es; }
    }
  }

  /** From power-up, over every run, each pin lives by the steps that concern it. */
  lemma {:induction false} EachPinLives(b: Board, pins: seq<Pin>, es: seq<Event>, p: nat) returns (life: seq<PinView>)
    requires ValidBoard(b) && |pins| == |b.readable| && p < |pins|
    requires forall q :: 0 <= q < |pins| ==> pins[q].mode == Input
    ensures LifeOf(b, pins, es, p, life) && life[|es|] == ViewOf(Run(b, Boot(b, pins), es), p)
    decreases |es|
  {
    BootInv(b, pins);
    if es == [] {
      assert NotPulsing(Boot(b, pins).pulses, p);
      life := [ViewOf(Boot(b, pins), p)];
    } else {
      var init, e := es[..|es| - 1], es[|es| - 1];
      var before := EachPinLives(b, pins, init, p);
      RunKeeps(b, Boot(b, pins), init);
      StepPins(b, Run(b, Boot(b, pins), init), e, p);
      LifeGoesOn(b, pins, init, p, before, e, ViewOf(Run(b, Boot(b, pins), es), p));
      assert es == init + [e];
      life := before + [ViewOf(Run(b, Boot(b, pins), es), p)];
    }
  }

  /** At power-up the bridge is disarmed, with a timeout of one second, and nothing runs. */
  lemma {:induction false} PowerUp(b: Board, pins: seq<Pin>)
    requires |pins| == |b.readable| == |b.writable|
    ensures Abstract(Boot(b, pins)) == Machine(Disarmed, 0, 0, 0, 1000) && Idle(Boot(b, pins))
  {
  }

  // ---- The shape of a pulse ----

  /** All along the run the due time lies ahead, at most 2^31 ms. */
  ghost predicate Before(b: Board, s: State, es: seq<Event>, due: nat)
    requires ValidBoard(b) && Sized(b, s)
  {
    forall k :: 0 <= k <= |es| ==> Run(b, s, es[..k]).now < due <= Run(b, s, es[..k]).now + HALF
  }

  lemma {:induction false} PulseHolds(b: Board, s: State, es: seq<Event>, p: nat, u: Pulse)
    requires ValidBoard(b) && Inv(b, s) && p < |s.pins| && u in s.pulses && u.active && u.pin == p
    requires Undisturbed(b, s, es, p) && Before(b, s, es, u.due)
    ensures SameFor(s, Run(b, s, es), p) && u in Run(b, s, es).pulses
    decreases |es|
  {
    if es != [] {
      var init, e := es[..|es| - 1], es[|es| - 1];
      assert forall k :: 0 <= k <= |init| ==> init[..k] == es[..k];
      assert init == es[..|init|];
      PulseHolds(b, s, init, p, u);
      RunKeeps(b, s, init);
      HoldsStep(b, Run(b, s, init), e, p, u);
      SameForTransitive(s, Run(b, s, init), Run(b, s, es), p);
    }
  }

  lemma {:induction false} HoldsStep(b: Board, s: State, e: Event, p: nat, u: Pulse)
    requires ValidBoard(b) && Inv(b, s) && p < |s.pins| && u in s.pulses && u.active && u.pin == p
    requires !Disturbs(b, s, e, p) && s.now < u.due <= s.now + HALF
    ensures SameFor(s, Step(b, s, e), p) && u in Step(b, s, e).pulses
  {
    var i :| 0 <= i < |s.pulses| && s.pulses[i] == u;
    if e.Pulses? {
      PollPulsesFor(b, s, PULSES, p);
      PulseEndsOnTime(b, s, i);
      assert Step(b, s, e).pulses[i].active;
      PollSlotKeepsPin(b, s, PULSES, i);
    } else {
      UndisturbedStep(b, s, e, p);
    }
    assert Step(b, s, e).pulses[i] == u;
  }

  lemma {:induction false} PollSlotKeepsPin(b: Board, s: State, n: nat, i: nat)
    requires Sized(b, s) && n <= PULSES && i < PULSES
    ensures PollPulses(b, s, n).pulses[i].pin == s.pulses[i].pin
  {
    if n > 0 { PollSlotKeepsPin(b, s, n - 1, i); }
  }

  /**
   An accepted pulse drives its pin to the value asked for, and the pin stays there through every
   undisturbed run until the duration is over; the first poll of the table after that, less than
   2^31 ms late, puts it back to the level before, and there it rests.
   */
  lemma {:induction false} PulseShape(b: Board, s: State, validityMs: Field<int>, p: nat, value: bool, ms: nat,
                                      es: seq<Event>, late: nat)
    requires ValidBoard(b) && Inv(b, s) && s.phase == Armed && !Expires(validityMs) && 0 < ms
    requires Accepts(b, s.pulses, StartPulse(Value(p), Value(value), Value(ms)))
    requires var s1 := Step(b, s, Cmd(Act(validityMs, StartPulse(Value(p), Value(value), Value(ms)))));
             Undisturbed(b, s1, es, p) && Before(b, s1, es, s.now + ms)
    requires var s1 := Step(b, s, Cmd(Act(validityMs, StartPulse(Value(p), Value(value), Value(ms)))));
             s.now + ms <= Run(b, s1, es).now + late < s.now + ms + HALF
    ensures p < |s.pins| &&
            var s1 := Step(b, s, Cmd(Act(validityMs, StartPulse(Value(p), Value(value), Value(ms)))));
            var s2 := Run(b, s1, es);
            && p < |s2.pins| && s2.pins[p].mode == Output && s2.pins[p].level == value && !NotPulsing(s2.pulses, p)
            && RestsAt(Step(b, Step(b, s2, Tick(late)), Pulses), p, LevelBefore(ViewOf(s, p)))
  {
    var a := StartPulse(Value(p), Value(value), Value(ms));
    var s1 := Step(b, s, Cmd(Act(validityMs, a)));
    ActSeen(b, s, validityMs, a, p);
    StepKeeps(b, s, Cmd(Act(validityMs, a)));
    var u := ViewOf(s1, p).pulse.value;
    PulseHolds(b, s1, es, p, u);
    RunKeeps(b, s1, es);
    var s2 := Run(b, s1, es);
    var later := Step(b, s2, Tick(late));
    StepKeeps(b, s2, Tick(late));
    PulseEnds(b, later, p, u);
  }

  lemma {:induction false} PulseEnds(b: Board, s: State, p: nat, u: Pulse)
    requires ValidBoard(b) && Inv(b, s) && p < |s.pins| && u in s.pulses && u.active && u.pin == p
    requires s.pins[p].mode == Output && u.due <= s.now < u.due + HALF
    ensures RestsAt(Step(b, s, Pulses), p, u.previous)
  {
    var i :| 0 <= i < |s.pulses| && s.pulses[i] == u;
    RunningIs(s.pulses, p, i);
    WrappedDifference(s.now, u.due);
    PollsSeen(b, s, p);
  }
}
