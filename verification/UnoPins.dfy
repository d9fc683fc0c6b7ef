/** The Uno bridge pin by pin: what every command is answered, and what every step makes of every pin. */
module UnoPins {
  import opened Prelude
  import opened ArmedSession
  import opened UnoBridge

  // ---- Replies ----

  predicate OnBoard(pin: Field<int>) {
    pin.Value? && 2 <= pin.value <= 19
  }

  /** Why an unarmed bridge refuses. */
  predicate Unarmed(s: State, r: Reply) {
    !s.armed && r == if s.tripped then WatchdogTripped else NotArmed
  }

  /** What the commands about the session are answered. */
  lemma {:induction false} SessionReplies(s: State, timeoutMs: Field<int>, hasValidity: bool)
    requires Sized(s)
    ensures Handle(s, Arm(timeoutMs)).1 ==
            if timeoutMs.Absent? || (timeoutMs.Value? && 250 <= timeoutMs.value <= 10000) then Ok else InvalidPayload
    ensures var r := Handle(s, Kick(hasValidity)).1;
            if s.armed then r == (if hasValidity then InvalidPayload else Ok) else Unarmed(s, r)
    ensures Handle(s, Disarm).1 == Ok && Handle(s, StopAll).1 == Ok && Handle(s, Query).1 == Ok
    ensures Handle(s, BadEnvelope).1 == InvalidPayload && Handle(s, Unsupported).1 == UnsupportedCapability
  {
  }

  /** What the commands about a pin are answered, the first fault first. */
  lemma {:induction false} PinReplies(s: State, pin: Field<int>, level: Name<SafeLevel>, polarityKnown: bool,
                                      mode: Name<PinMode>, value: Field<bool>, extra: bool)
    requires Sized(s)
    ensures Handle(s, ConfigSafe(pin, level, polarityKnown)).1 ==
            if !OnBoard(pin) then InvalidPin
            else if !polarityKnown || level == Unknown then InvalidPayload
            else if s.armed then AlreadyArmed else Ok
    ensures var r := Handle(s, SetMode(pin, mode, extra)).1;
            if !OnBoard(pin) then r == InvalidPin
            else if !s.armed then Unarmed(s, r)
            else r == if extra || !mode.Known? then InvalidPayload else Ok
    ensures var r := Handle(s, Write(pin, value, extra)).1;
            if !OnBoard(pin) then r == InvalidPin
            else if !s.armed then Unarmed(s, r)
            else r == if extra || !value.Value? then InvalidPayload else Ok
    ensures Handle(s, Read(pin)).1 == if OnBoard(pin) then Ok else InvalidPin
    ensures Handle(s, AnalogRead(pin)).1 == if pin.Value? && 14 <= pin.value <= 19 then Ok else InvalidPin
  {
  }

  // ---- One pin ----

  datatype PinView = PinView(pin: Pin, active: bool, safe: SafeLevel)

  function ViewOf(s: State, p: nat): PinView
    requires Sized(s) && p < PINS
  {
    PinView(s.pins[p], s.active[p], s.safe[p])
  }

  /** What a step makes of pin `p`; the outputs stop when a session ends, and on a command to disarm or to stop. */
  ghost predicate PinAfter(s: State, e: Event, p: nat, v: PinView, w: PinView)
    requires Sized(s)
  {
    if Stops(s, e) || e == Cmd(Disarm) || e == Cmd(StopAll) then
      w.safe == v.safe && !w.active && if v.active then AtSafeLevel(v.safe, v.pin, w.pin) else w.pin == v.pin
    else
      match e
      case Cmd(ConfigSafe(pin, level, polarityKnown)) =>
        w == if pin == Value(p) && OnBoard(pin) && polarityKnown && level != Unknown && !s.armed
             then v.(safe := if level.Known? then level.value else Low) else v
      case Cmd(SetMode(pin, Known(mode), extra)) =>
        if pin == Value(p) && OnBoard(pin) && s.armed && !extra then
          && w.safe == v.safe && w.pin.mode == mode && (w.active <==> mode != Input)
          && w.pin.level == (if mode == Output then v.safe == High else v.pin.level)
        else w == v
      case Cmd(Write(pin, Value(value), extra)) =>
        w == if pin == Value(p) && OnBoard(pin) && s.armed && !extra
             then PinView(Pin(Output, value), true, v.safe) else v
      case _ => w == v
  }

  /** Every step does to every pin what it should, and to no other pin anything. */
  lemma {:induction false} StepPins(s: State, e: Event, p: nat)
    requires Inv(s) && p < PINS
    ensures PinAfter(s, e, p, ViewOf(s, p), ViewOf(Step(s, e), p))
  {
    if e.Cmd? { CommandPins(s, e.c, p); }
  }

  lemma {:induction false} CommandPins(s: State, c: Command, p: nat)
    requires Inv(s) && p < PINS
    ensures PinAfter(s, Cmd(c), p, ViewOf(s, p), ViewOf(Step(s, Cmd(c)), p))
  {
  }

  // ---- The life of one pin ----

  ghost predicate LifeOf(pins: seq<Pin>, es: seq<Event>, p: nat, life: seq<PinView>)
    requires |pins| == PINS && p < PINS
  {
    && |life| == |es| + 1 && life[0] == PinView(pins[p], false, Low)
    && forall k :: 0 <= k < |es| ==> PinAfter(Run(Boot(pins), es[..k]), es[k], p, life[k], life[k + 1])
  }

  lemma {:induction false} LifeGoesOn(pins: seq<Pin>, es: seq<Event>, p: nat, life: seq<PinView>, e: Event,
                                      next: PinView)
    requires |pins| == PINS && p < PINS && LifeOf(pins, es, p, life)
    requires PinAfter(Run(Boot(pins), es), e, p, life[|es|], next)
    ensures LifeOf(pins, es + [e], p, life + [next])
  {
    var more, lives := es + [e], life + [next];
    forall k | 0 <= k < |more| ensures PinAfter(Run(Boot(pins), more[..k]), more[k], p, lives[k], lives[k + 1]) {
      assert more[..k] == es[..k];
      if k == |es| { assert es[..k] == es; }
    }
  }

  /** From power-up, over every run, each pin lives by the steps that concern it. */
  lemma {:induction false} EachPinLives(pins: seq<Pin>, es: seq<Event>, p: nat) returns (life: seq<PinView>)
    requires |pins| == PINS && p < PINS
    ensures LifeOf(pins, es, p, life) && life[|es|] == ViewOf(Run(Boot(pins), es), p)
    decreases |es|
  {
    if es == [] {
      life := [ViewOf(Boot(pins), p)];
    } else {
      var init, e := es[..|es| - 1], es[|es| - 1];
      var before := EachPinLives(pins, init, p);
      RunKeepsInv(Boot(pins), init);
      StepPins(Run(Boot(pins), init), e, p);
      LifeGoesOn(pins, init, p, before, e, ViewOf(Run(Boot(pins), es), p));
      assert es == init + [e];
      life := before + [ViewOf(Run(Boot(pins), es), p)];
    }
  }

  /** At power-up the bridge is disarmed, with a timeout of one second. */
  lemma {:induction false} PowerUp(pins: seq<Pin>)
    requires |pins| == PINS
    ensures Inv(Boot(pins)) && Abstract(Boot(pins)) == Machine(Phase.Disarmed, 0, 0, 0, 1000)
  {
  }
}
