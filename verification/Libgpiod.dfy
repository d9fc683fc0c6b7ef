/**
 The libgpiod backend: one holder process per driven line, pulses that end on a timer, and
 the sweep that brings every declared line to its safe level. Operations are serialised;
 whether a tool invocation succeeds is an input.
 */
module Libgpiod {
  import opened Prelude
  import opened Lines
  import opened LibgpiodConfig

  /** Starting: the cancel hook set before the drive; Waiting: the timer runs. */
  datatype Pulse = NoPulse | Starting | Waiting

  datatype LineState = LineState(config: Line, holder: Option<nat>, rawLevel: Option<Raw>, releasedOnExit: bool,
                                 pulse: Pulse)

  /** A live gpioset process and the level it keeps on one line. */
  datatype Process = Process(offset: nat, raw: Raw)

  datatype Backend = Backend(lines: seq<LineState>, processes: map<nat, Process>, nextPid: nat, closed: bool)

  datatype Target = ByName(name: string) | ByOffset(offset: nat)

  datatype Refusal = Disconnected | LineNotFound | NotAnOutput | BadValue | BadPulse | BadHold | ToolFailed

  datatype Outcome = Done | Refused(why: Refusal)

  // ---- Steps on values ----

  function Resolve(lines: seq<LineState>, target: Target): Option<nat> {
    ResolveFrom(lines, target, |lines|)
  }

  predicate Matches(line: Line, target: Target) {
    match target
    case ByName(name) => line.name == Trim(name)
    case ByOffset(offset) => line.offset == offset
  }

  function ResolveFrom(lines: seq<LineState>, target: Target, n: nat): (r: Option<nat>)
    requires n <= |lines|
    ensures r.Some? ==> r.value < n && Matches(lines[r.value].config, target)
    ensures r.None? ==> forall i :: 0 <= i < n ==> !Matches(lines[i].config, target)
  {
    if n == 0 then None
    else if Matches(lines[n - 1].config, target) then Some(n - 1)
    else ResolveFrom(lines, target, n - 1)
  }

  function Release(b: Backend, i: nat): Backend
    requires i < |b.lines|
  {
    var l := b.lines[i];
    if l.holder.None? then b
    else b.(lines := b.lines[i := l.(holder := None, rawLevel := None)], processes := b.processes - {l.holder.value})
  }

  /** Replace the holder of a line; a process that does not survive its start leaves nothing behind. */
  function Drive(b: Backend, i: nat, raw: Raw, ok: bool): Backend
    requires i < |b.lines|
  {
    var r := Release(b, i);
    if !ok then r
    else
      var l := r.lines[i];
      r.(lines := r.lines[i := l.(holder := Some(r.nextPid), rawLevel := Some(raw), releasedOnExit := false)],
         processes := r.processes[r.nextPid := Process(l.config.offset, raw)],
         nextPid := r.nextPid + 1)
  }

  function CancelPulse(b: Backend, i: nat): Backend
    requires i < |b.lines|
  {
    b.(lines := b.lines[i := b.lines[i].(pulse := NoPulse)])
  }

  /** The configured safe level on one line; false when its tool fails. */
  function ApplySafeLevel(b: Backend, i: nat, ok: bool): (Backend, bool)
    requires i < |b.lines|
  {
    var c := b.lines[i].config;
    if c.direction == Input then (b, true)
    else if c.safeLevel == HighZ then
      var r := Release(b, i);
      (r.(lines := r.lines[i := r.lines[i].(rawLevel := None, releasedOnExit := false)]), true)
    else if c.safeLevel == Hold then (b, true)
    else (Drive(b, i, SafeRaw(c.safeLevel), ok), ok)
  }

  datatype WriteRequest = WriteRequest(value: Field<bool>, pulseMs: Field<real>, hold: Field<bool>)

  /** Why a write is refused before anything is touched, in the order of the source. */
  function WriteRefusal(line: Line, request: WriteRequest): Option<Refusal> {
    if line.direction != Output then Some(NotAnOutput)
    else if !request.value.Value? then Some(BadValue)
    else if request.pulseMs.WrongType? || (request.pulseMs.Value? && request.pulseMs.value <= 0.0) then Some(BadPulse)
    else if request.hold.WrongType? then Some(BadHold)
    else None
  }

  function Write(b: Backend, i: nat, request: WriteRequest, ok: bool): (Backend, Outcome)
    requires i < |b.lines|
  {
    var config := b.lines[i].config;
    var refusal := WriteRefusal(config, request);
    if refusal.Some? then (b, Refused(refusal.value))
    else
      var raw := LogicalToRaw(request.value.value, config.polarity);
      var quiet := CancelPulse(b, i);
      var outcome := if ok then Done else Refused(ToolFailed);
      if request.hold == Value(false) then
        var momentary := quiet.lines[i].(rawLevel := Some(raw), releasedOnExit := true);
        (if ok then quiet.(lines := quiet.lines[i := momentary]) else quiet, outcome)
      else if request.pulseMs.Value? then
        var d := Drive(SetPulse(quiet, i, Starting), i, raw, ok);
        (if ok then SetPulse(d, i, Waiting) else d, outcome)
      else (Drive(quiet, i, raw, ok), outcome)
  }

  function WriteTo(b: Backend, target: Target, request: WriteRequest, ok: bool): (Backend, Outcome) {
    if b.closed then (b, Refused(Disconnected))
    else
      var i := Resolve(b.lines, target);
      if i.None? then (b, Refused(LineNotFound)) else Write(b, i.value, request, ok)
  }

  function SetPulse(b: Backend, i: nat, pulse: Pulse): Backend
    requires i < |b.lines|
  {
    b.(lines := b.lines[i := b.lines[i].(pulse := pulse)])
  }

  /** A pulse timer fires: the line goes to its safe level. */
  function PulseElapsed(b: Backend, i: nat, ok: bool): Backend
    requires i < |b.lines|
  {
    if b.lines[i].pulse != Waiting then b else ApplySafeLevel(SetPulse(b, i, NoPulse), i, ok).0
  }

  /** The holder of a line dies unasked. */
  function HolderExited(b: Backend, i: nat): Backend
    requires i < |b.lines|
  {
    Release(b, i)
  }

  /** A level read back or reported by the monitor. */
  function Observed(b: Backend, i: nat, raw: Raw): Backend
    requires i < |b.lines|
  {
    b.(lines := b.lines[i := b.lines[i].(rawLevel := Some(raw))])
  }

  /** The sweep over the lines in the given order; it stops at the first tool failure. */
  function SafeSweep(b: Backend, order: seq<nat>, failing: set<nat>): (r: (Backend, bool))
    requires forall k :: 0 <= k < |order| ==> order[k] < |b.lines|
    ensures |r.0.lines| == |b.lines|
    decreases |order|
  {
    if order == [] then (b, true)
    else
      var (before, ok) := SafeSweep(b, order[..|order| - 1], failing);
      if !ok then (before, false) else SafeOne(before, order[|order| - 1], failing)
  }

  function SafeOne(b: Backend, i: nat, failing: set<nat>): (r: (Backend, bool))
    requires i < |b.lines|
    ensures |r.0.lines| == |b.lines|
  {
    ApplySafeLevel(CancelPulse(b, i), i, i !in failing)
  }

  /** Driven outputs first, then outputs to release, then lines that need no command. */
  function Rank(line: Line): nat {
    if line.direction != Output then 2
    else if Driven(line.safeLevel) then 0
    else if line.safeLevel == HighZ then 1
    else 2
  }

  /** Indices of the first `n` lines of one rank, in declaration order. */
  function OfRank(lines: seq<LineState>, rank: nat, n: nat): (r: seq<nat>)
    requires n <= |lines|
    ensures forall k :: 0 <= k < |r| ==> r[k] < n && Rank(lines[r[k]].config) == rank
  {
    if n == 0 then []
    else
      var rest := OfRank(lines, rank, n - 1);
      if Rank(lines[n - 1].config) == rank then rest + [n - 1] else rest
  }

  function OrderForSafeState(lines: seq<LineState>): (r: seq<nat>)
    ensures forall k :: 0 <= k < |r| ==> r[k] < |lines|
  {
    OfRank(lines, 0, |lines|) + OfRank(lines, 1, |lines|) + OfRank(lines, 2, |lines|)
  }

  function SafeStateAll(b: Backend, failing: set<nat>): (r: (Backend, Outcome))
    ensures |r.0.lines| == |b.lines|
  {
    if b.closed then (b, Refused(Disconnected))
    else
      var (after, ok) := SafeSweep(b, OrderForSafeState(b.lines), failing);
      (after, if ok then Done else Refused(ToolFailed))
  }

  /** The safe state of one line. */
  function SafeStateOf(b: Backend, target: Target, failing: set<nat>): (Backend, Outcome) {
    if b.closed then (b, Refused(Disconnected))
    else
      var i := Resolve(b.lines, target);
      if i.None? then (b, Refused(LineNotFound))
      else
        var (after, ok) := SafeOne(b, i.value, failing);
        (after, if ok then Done else Refused(ToolFailed))
  }

  /** Cancel every pulse of the first `n` lines. */
  function CancelAll(b: Backend, n: nat): (r: Backend)
    requires n <= |b.lines|
    ensures |r.lines| == |b.lines|
  {
    if n == 0 then b else CancelPulse(CancelAll(b, n - 1), n - 1)
  }

  function ReleaseAll(b: Backend, n: nat): (r: Backend)
    requires n <= |b.lines|
    ensures |r.lines| == |b.lines|
  {
    if n == 0 then b else Release(ReleaseAll(b, n - 1), n - 1)
  }

  function Close(b: Backend): Backend {
    if b.closed then b else ReleaseAll(CancelAll(b.(closed := true), |b.lines|), |b.lines|)
  }

  function Boot(config: seq<Line>): Backend {
    var lines := seq(|config|, i requires 0 <= i < |config| => LineState(config[i], None, None, false, NoPulse));
    Backend(lines, map[], 0, false)
  }

  // ---- The backend object ----

  class LibgpiodBackend {
    const lines: array<LineState>
    var processes: map<nat, Process>
    var nextPid: nat
    var closed: bool

    function View(): Backend
      reads this, lines
    {
      Backend(lines[..], processes, nextPid, closed)
    }

    constructor (config: seq<Line>)
      ensures View() == Boot(config) && fresh(lines)
    {
      lines := new LineState[|config|](
        i requires 0 <= i < |config| => LineState(config[i], None, None, false, NoPulse));
      processes, nextPid, closed := map[], 0, false;
    }

    method ResolveLine(target: Target) returns (r: Option<nat>)
      ensures r == Resolve(lines[..], target)
    {
      var n := lines.Length;
      while n > 0
        invariant 0 <= n <= lines.Length
        invariant Resolve(lines[..], target) == ResolveFrom(lines[..], target, n)
      {
        if Matches(lines[n - 1].config, target) { return Some(n - 1); }
        n := n - 1;
      }
      r := None;
    }

    method ReleaseHolder(i: nat)
      requires i < lines.Length
      modifies this, lines
      ensures View() == Release(old(View()), i)
    {
      if lines[i].holder.Some? {
        processes := processes - {lines[i].holder.value};
        lines[i] := lines[i].(holder := None, rawLevel := None);
      }
    }

    method DriveLine(i: nat, raw: Raw, ok: bool)
      requires i < lines.Length
      modifies this, lines
      ensures View() == Drive(old(View()), i, raw, ok)
    {
      ReleaseHolder(i);
      if ok {
        processes := processes[nextPid := Process(lines[i].config.offset, raw)];
        lines[i] := lines[i].(holder := Some(nextPid), rawLevel := Some(raw), releasedOnExit := false);
        nextPid := nextPid + 1;
      }
    }

    method CancelLinePulse(i: nat)
      requires i < lines.Length
      modifies lines
      ensures View() == CancelPulse(old(View()), i)
    {
      lines[i] := lines[i].(pulse := NoPulse);
    }

    method ApplyLineSafeLevel(i: nat, ok: bool) returns (applied: bool)
      requires i < lines.Length
      modifies this, lines
      ensures (View(), applied) == ApplySafeLevel(old(View()), i, ok)
    {
      var c := lines[i].config;
      applied := true;
      if c.direction == Input {
        return;
      }
      if c.safeLevel == HighZ {
        ReleaseHolder(i);
        lines[i] := lines[i].(rawLevel := None, releasedOnExit := false);
        return;
      }
      if c.safeLevel == Hold {
        return;
      }
      DriveLine(i, SafeRaw(c.safeLevel), ok);
      applied := ok;
    }

    method InvokeWrite(target: Target, request: WriteRequest, ok: bool) returns (outcome: Outcome)
      modifies this, lines
      ensures (View(), outcome) == WriteTo(old(View()), target, request, ok)
    {
      if closed { return Refused(Disconnected); }
      var found := ResolveLine(target);
      if found.None? { return Refused(LineNotFound); }
      var i := found.value;
      var refusal := WriteRefusal(lines[i].config, request);
      if refusal.Some? { return Refused(refusal.value); }
      var raw := LogicalToRaw(request.value.value, lines[i].config.polarity);
      CancelLinePulse(i);
      outcome := if ok then Done else Refused(ToolFailed);
      if request.hold == Value(false) {
        if ok {
          lines[i] := lines[i].(rawLevel := Some(raw), releasedOnExit := true);
        }
      } else if request.pulseMs.Value? {
        lines[i] := lines[i].(pulse := Starting);
        DriveLine(i, raw, ok);
        if ok {
          lines[i] := lines[i].(pulse := Waiting);
        }
      } else {
        DriveLine(i, raw, ok);
      }
    }

    method OnPulseTimer(i: nat, ok: bool)
      requires i < lines.Length
      modifies this, lines
      ensures View() == PulseElapsed(old(View()), i, ok)
    {
      if lines[i].pulse == Waiting {
        lines[i] := lines[i].(pulse := NoPulse);
        var applied := ApplyLineSafeLevel(i, ok);
      }
    }

    method OnObservation(i: nat, raw: Raw)
      requires i < lines.Length
      modifies lines
      ensures View() == Observed(old(View()), i, raw)
    {
      lines[i] := lines[i].(rawLevel := Some(raw));
    }

    method SafeStateOneLine(i: nat, failing: set<nat>) returns (applied: bool)
      requires i < lines.Length
      modifies this, lines
      ensures (View(), applied) == SafeOne(old(View()), i, failing)
    {
      CancelLinePulse(i);
      applied := ApplyLineSafeLevel(i, i !in failing);
    }

    method SweepLines(order: seq<nat>, failing: set<nat>) returns (applied: bool)
      requires forall k :: 0 <= k < |order| ==> order[k] < lines.Length
      modifies this, lines
      ensures (View(), applied) == SafeSweep(old(View()), order, failing)
    {
      applied := true;
      var k := 0;
      while k < |order|
        invariant 0 <= k <= |order| && applied
        invariant (View(), true) == SafeSweep(old(View()), order[..k], failing)
      {
        assert order[..k + 1][..k] == order[..k];
        applied := SafeStateOneLine(order[k], failing);
        k := k + 1;
        if !applied {
          SweepStops(old(View()), order, failing, k);
          return;
        }
      }
      assert order[..|order|] == order;
    }

    method InvokeSafeState(target: Option<Target>, failing: set<nat>) returns (outcome: Outcome)
      modifies this, lines
      ensures (View(), outcome) ==
              if target.Some? then SafeStateOf(old(View()), target.value, failing)
              else SafeStateAll(old(View()), failing)
    {
      if closed { return Refused(Disconnected); }
      if target.Some? {
        var found := ResolveLine(target.value);
        if found.None? { return Refused(LineNotFound); }
        var applied := SafeStateOneLine(found.value, failing);
        return if applied then Done else Refused(ToolFailed);
      }
      var order := OrderForSafeState(lines[..]);
      var swept := SweepLines(order, failing);
      outcome := if swept then Done else Refused(ToolFailed);
    }

    method Shutdown()
      modifies this, lines
      ensures View() == Close(old(View()))
    {
      if closed { return; }
      closed := true;
      ghost var start := View();
      for i := 0 to lines.Length
        invariant View() == CancelAll(start, i)
      {
        CancelLinePulse(i);
      }
      ghost var quiet := View();
      for i := 0 to lines.Length
        invariant View() == ReleaseAll(quiet, i)
      {
        ReleaseHolder(i);
      }
    }
  }

  /** Once the sweep stopped, the rest of the order changes nothing. */
  lemma {:induction false} SweepStops(b: Backend, order: seq<nat>, failing: set<nat>, k: nat)
    requires k <= |order| && forall j :: 0 <= j < |order| ==> order[j] < |b.lines|
    requires !SafeSweep(b, order[..k], failing).1
    ensures SafeSweep(b, order, failing) == SafeSweep(b, order[..k], failing)
    decreases |order|
  {
    if k == |order| {
      assert order[..k] == order;
    } else {
      var init := order[..|order| - 1];
      assert init[..k] == order[..k];
      SweepStops(b, init, failing, k);
    }
  }
}
