/**
 The libgpiod backend line by line: when a request is accepted, what every action makes of
 every line, spelled out in levels, and how far the safe-state sweep reaches.
 */
module LibgpiodLines {
  import opened Prelude
  import opened LibgpiodConfig
  import opened Libgpiod
  import opened LibgpiodSafety
  import Lines

  // ---- Levels ----

  /** The electrical level at which the load of a line has power. */
  function OnLevel(line: Line): Raw {
    match line.polarity
    case ActiveHigh => Raw1
    case ActiveLow => Raw0
  }

  /** The level that a logical value asks for: the one with power for true, the other one for false. */
  ghost predicate MeansLevel(line: Line, value: bool, raw: Raw) {
    raw == OnLevel(line) <==> value
  }

  lemma {:induction false} LevelMeant(line: Line, value: bool, raw: Raw)
    ensures MeansLevel(line, value, LogicalToRaw(value, line.polarity))
    ensures MeansLevel(line, RawToLogical(raw, line.polarity), raw)
  {
  }

  // ---- Acceptance ----

  ghost predicate Names(line: Line, target: Target) {
    match target
    case ByName(name) => Lines.Trim(name) == line.name
    case ByOffset(offset) => offset == line.offset
  }

  lemma {:induction false} ResolvesTo(b: Backend, config: seq<Line>, target: Target)
    requires Inv(b, config)
    ensures var r := Resolve(b.lines, target);
            if r.Some? then r.value < |config| && Names(config[r.value], target)
            else forall i :: 0 <= i < |config| ==> !Names(config[i], target)
  {
    forall i | 0 <= i < |config| ensures b.lines[i].config == config[i] { assert LineInv(b, config, i); }
    var r := Resolve(b.lines, target);
    if r.None? {
      forall i | 0 <= i < |config| ensures !Names(config[i], target) {
        assert !Matches(b.lines[i].config, target);
      }
    }
  }

  lemma {:induction false} NamedResolves(b: Backend, config: seq<Line>, target: Target, i: nat)
    requires Inv(b, config) && i < |config|
    ensures Resolve(b.lines, target) == Some(i) <==> Names(config[i], target)
  {
    match target
    case ByName(name) => LinesResolve(b, config, i, name);
    case ByOffset(offset) =>
      ResolvesTo(b, config, target);
      if offset == config[i].offset { LinesResolve(b, config, i, ""); }
  }

  /**
   A write is carried out exactly when the backend is open, the target an output, the request
   well formed and the tool works.
   */
  lemma {:induction false} WriteAcceptedExactly(b: Backend, config: seq<Line>, target: Target, request: WriteRequest,
                                                ok: bool)
    requires Inv(b, config)
    ensures WriteTo(b, target, request, ok).1 == Done <==>
            && !b.closed && GoodRequest(request) && ok
            && exists i :: 0 <= i < |config| && Names(config[i], target) && config[i].direction == Output
    ensures WriteTo(b, target, request, ok).1 == Refused(Disconnected) <==> b.closed
    ensures WriteTo(b, target, request, ok).1 == Refused(LineNotFound) <==>
            !b.closed && forall i :: 0 <= i < |config| ==> !Names(config[i], target)
  {
    ResolvesTo(b, config, target);
    forall i | 0 <= i < |config| ensures Resolve(b.lines, target) == Some(i) <==> Names(config[i], target) {
      NamedResolves(b, config, target, i);
    }
    var r := Resolve(b.lines, target);
    if r.Some? {
      assert LineInv(b, config, r.value) && Names(config[r.value], target);
      DoneExactly(b, r.value, request, ok);
    }
  }

  lemma {:induction false} DoneExactly(b: Backend, i: nat, request: WriteRequest, ok: bool)
    requires i < |b.lines|
    ensures Write(b, i, request, ok).1 == Done <==>
            b.lines[i].config.direction == Output && GoodRequest(request) && ok
    ensures Write(b, i, request, ok).1 !in {Refused(Disconnected), Refused(LineNotFound)}
  {
  }

  /** Why a write to a declared line is refused, the first fault first; nothing is touched unless it is the tool. */
  lemma {:induction false} WriteRefusedBecause(b: Backend, config: seq<Line>, target: Target, request: WriteRequest,
                                               ok: bool, i: nat)
    requires Inv(b, config) && !b.closed && i < |config| && Names(config[i], target)
    ensures var r := WriteTo(b, target, request, ok);
            && (r.1 == Refused(NotAnOutput) <==> config[i].direction == Input)
            && (r.1 == Refused(BadValue) <==> config[i].direction == Output && !request.value.Value?)
            && (r.1 == Refused(BadPulse) <==>
                config[i].direction == Output && request.value.Value?
                && (request.pulseMs.WrongType? || (request.pulseMs.Value? && request.pulseMs.value <= 0.0)))
            && (r.1 == Refused(BadHold) <==>
                config[i].direction == Output && request.hold.WrongType?
                && GoodRequest(request.(hold := Absent)))
            && (r.1 == Refused(ToolFailed) <==> config[i].direction == Output && GoodRequest(request) && !ok)
            && (r.1.Refused? && r.1 != Refused(ToolFailed) ==> r.0 == b)
  {
    NamedResolves(b, config, target, i);
    assert LineInv(b, config, i);
  }

  /**
   The safe state of one line is carried out exactly when the line is declared and its tool, if
   it needs it, works.
   */
  lemma {:induction false} SafeLineAcceptedExactly(b: Backend, config: seq<Line>, target: Target, failing: set<nat>)
    requires Inv(b, config)
    ensures SafeStateOf(b, target, failing).1 == Done <==>
            !b.closed && exists i :: 0 <= i < |config| && Names(config[i], target) && !Trouble(config[i], i, failing)
    ensures SafeStateOf(b, target, failing).1 == Refused(Disconnected) <==> b.closed
    ensures SafeStateOf(b, target, failing).1 == Refused(LineNotFound) <==>
            !b.closed && forall i :: 0 <= i < |config| ==> !Names(config[i], target)
    ensures SafeStateOf(b, target, failing).1 in
              {Done, Refused(Disconnected), Refused(LineNotFound), Refused(ToolFailed)}
  {
    ResolvesTo(b, config, target);
    forall i | 0 <= i < |config| ensures Resolve(b.lines, target) == Some(i) <==> Names(config[i], target) {
      NamedResolves(b, config, target, i);
    }
    var r := Resolve(b.lines, target);
    if r.Some? {
      assert Names(config[r.value], target);
      OneFails(b, config, r.value, failing);
    }
  }

  // ---- One line ----

  /**
   A line as one sees it: the level a process keeps on it, the level last known, whether that was
   momentary, its pulse.
   */
  datatype View = View(held: Option<Raw>, known: Option<Raw>, momentary: bool, pulse: Pulse)

  ghost function ViewOf(b: Backend, i: nat): View
    requires i < |b.lines|
  {
    var l := b.lines[i];
    var held := if l.holder.Some? && l.holder.value in b.processes then Some(b.processes[l.holder.value].raw) else None;
    View(held, l.rawLevel, l.releasedOnExit, l.pulse)
  }

  /** The process on the line ends, and with it what was known of the level. */
  ghost predicate LetGo(v: View, w: View) {
    && w.held.None? && w.known == (if v.held.Some? then None else v.known)
    && w.momentary == v.momentary && w.pulse == v.pulse
  }

  /** A new process keeps the line at this level. */
  ghost predicate Takes(v: View, w: View, raw: Raw) {
    w == View(Some(raw), Some(raw), false, v.pulse)
  }

  /** A write to the line. */
  ghost predicate AfterWrite(line: Line, v: View, request: WriteRequest, ok: bool, w: View) {
    if line.direction == Input || !GoodRequest(request) then w == v
    else
      var quiet := v.(pulse := NoPulse);
      if request.hold == Value(false) then
        if ok then
          && w.held == v.held && w.momentary && w.pulse == NoPulse
          && w.known.Some? && MeansLevel(line, request.value.value, w.known.value)
        else w == quiet
      else if ok then
        && w.held.Some? && MeansLevel(line, request.value.value, w.held.value) && w.known == w.held && !w.momentary
        && w.pulse == (if request.pulseMs.Value? then Waiting else NoPulse)
      else LetGo(if request.pulseMs.Value? then quiet.(pulse := Starting) else quiet, w)
  }

  /** The safe level of the line. */
  ghost predicate AfterSafeLevel(line: Line, v: View, ok: bool, w: View) {
    if line.direction == Input then w == v
    else
      match line.safeLevel
      case HighZ => w == View(None, None, false, v.pulse)
      case Hold => w == v
      case Low => if ok then Takes(v, w, Raw0) else LetGo(v, w)
      case High => if ok then Takes(v, w, Raw1) else LetGo(v, w)
  }

  lemma {:induction false} ReleaseSeen(b: Backend, config: seq<Line>, i: nat)
    requires Inv(b, config) && i < |config|
    ensures LetGo(ViewOf(b, i), ViewOf(Release(b, i), i))
  {
    assert LineInv(b, config, i);
  }

  lemma {:induction false} DriveSeen(b: Backend, config: seq<Line>, i: nat, raw: Raw, ok: bool)
    requires Inv(b, config) && i < |config| && config[i].direction == Output
    ensures if ok then Takes(ViewOf(b, i), ViewOf(Drive(b, i, raw, ok), i), raw)
            else LetGo(ViewOf(b, i), ViewOf(Drive(b, i, raw, ok), i))
  {
    ReleaseSeen(b, config, i);
  }

  lemma {:induction false} SafeLevelSeen(b: Backend, config: seq<Line>, i: nat, ok: bool)
    requires Inv(b, config) && i < |config|
    ensures AfterSafeLevel(config[i], ViewOf(b, i), ok, ViewOf(ApplySafeLevel(b, i, ok).0, i))
  {
    assert LineInv(b, config, i);
    ReleaseSeen(b, config, i);
    if config[i].direction == Output && Driven(config[i].safeLevel) {
      DriveSeen(b, config, i, SafeRaw(config[i].safeLevel), ok);
    }
  }

  lemma {:induction false} WriteSeen(b: Backend, config: seq<Line>, i: nat, request: WriteRequest, ok: bool)
    requires Inv(b, config) && i < |config|
    ensures AfterWrite(config[i], ViewOf(b, i), request, ok, ViewOf(Write(b, i, request, ok).0, i))
  {
    assert LineInv(b, config, i);
    if config[i].direction == Output && GoodRequest(request) {
      LevelMeant(config[i], request.value.value, LogicalToRaw(request.value.value, config[i].polarity));
      if request.hold != Value(false) { HeldWriteSeen(b, config, i, request, ok); }
    }
  }

  lemma {:induction false} HeldWriteSeen(b: Backend, config: seq<Line>, i: nat, request: WriteRequest, ok: bool)
    requires Inv(b, config) && i < |config| && config[i].direction == Output && GoodRequest(request)
    requires request.hold != Value(false)
    ensures var raw := LogicalToRaw(request.value.value, config[i].polarity);
            var v, w := ViewOf(b, i), ViewOf(Write(b, i, request, ok).0, i);
            if ok then w == View(Some(raw), Some(raw), false, if request.pulseMs.Value? then Waiting else NoPulse)
            else LetGo(v.(pulse := if request.pulseMs.Value? then Starting else NoPulse), w)
  {
    var raw := LogicalToRaw(request.value.value, config[i].polarity);
    var quiet := CancelPulse(b, i);
    CancelKeeps(b, config, i);
    assert LineInv(b, config, i) && LineInv(quiet, config, i);
    Touch(quiet, config, i, quiet.lines[i].(pulse := Starting));
    DriveSeen(if request.pulseMs.Value? then SetPulse(quiet, i, Starting) else quiet, config, i, raw, ok);
  }

  // ---- Every action, every line ----

  /** A driven line on which the tool fails comes before this one in the sweep: by rank, then by declaration. */
  ghost predicate CutOff(config: seq<Line>, failing: set<nat>, i: nat)
    requires i < |config|
  {
    exists j :: 0 <= j < |config| && Trouble(config[j], j, failing) && SweptBefore(config, j, i)
  }

  /** Driven outputs are swept first, then outputs let go, then the rest; in the order declared. */
  predicate SweptBefore(config: seq<Line>, i: nat, j: nat)
    requires i < |config| && j < |config|
  {
    var (first, second) := (SweepClass(config[i]), SweepClass(config[j]));
    first < second || (first == second && i < j)
  }

  function SweepClass(line: Line): nat {
    if line.direction == Output && line.safeLevel in {Low, High} then 0
    else if line.direction == Output && line.safeLevel == HighZ then 1
    else 2
  }

  /** What an action makes of line `i`. */
  ghost predicate LineAfter(config: seq<Line>, closed: bool, a: Action, i: nat, v: View, w: View)
    requires i < |config|
  {
    var line, quiet := config[i], v.(pulse := NoPulse);
    match a
    case WriteLine(target, request, ok) =>
      if closed || !Names(line, target) then w == v else AfterWrite(line, v, request, ok, w)
    case PulseTimer(j, ok) =>
      if j != i || v.pulse != Waiting then w == v else AfterSafeLevel(line, quiet, ok, w)
    case HolderDies(j) => if j != i then w == v else LetGo(v, w)
    case Observation(j, raw) => w == if j != i then v else v.(known := Some(raw))
    case SafeAll(failing) =>
      if closed || CutOff(config, failing, i) then w == v else AfterSafeLevel(line, quiet, i !in failing, w)
    case SafeLine(target, failing) =>
      if closed || !Names(line, target) then w == v else AfterSafeLevel(line, quiet, i !in failing, w)
    case CloseIt => if closed then w == v else LetGo(quiet, w)
  }

  lemma {:induction false} UntouchedSeen(b: Backend, after: Backend, i: nat)
    requires i < |b.lines| && Untouched(b, after, i)
    requires b.lines[i].holder.Some? ==> b.lines[i].holder.value in b.processes
    ensures ViewOf(after, i) == ViewOf(b, i)
  {
  }

  lemma {:induction false} OnlyLineSeen(b: Backend, config: seq<Line>, after: Backend, i: nat, j: nat)
    requires Inv(b, config) && OnlyLine(b, after, j) && i < |config| && i != j
    ensures ViewOf(after, i) == ViewOf(b, i)
  {
    assert LineInv(b, config, i) && Untouched(b, after, i);
    UntouchedSeen(b, after, i);
  }

  lemma {:induction false} SafeOneSeen(b: Backend, config: seq<Line>, j: nat, failing: set<nat>, i: nat)
    requires Inv(b, config) && i < |config| && j < |config|
    ensures if i != j then ViewOf(SafeOne(b, j, failing).0, i) == ViewOf(b, i)
            else AfterSafeLevel(config[i], ViewOf(b, i).(pulse := NoPulse), i !in failing,
                                ViewOf(SafeOne(b, j, failing).0, i))
  {
    SafeOneKeeps(b, config, j, failing);
    if i != j {
      OnlyLineSeen(b, config, SafeOne(b, j, failing).0, i, j);
    } else {
      CancelKeeps(b, config, i);
      SafeLevelSeen(CancelPulse(b, i), config, i, i !in failing);
    }
  }

  /** Position k of the order is reached: no line before it failed. */
  ghost predicate Reached(config: seq<Line>, order: seq<nat>, failing: set<nat>, k: nat)
    requires k <= |order| && forall m :: 0 <= m < |order| ==> order[m] < |config|
  {
    forall m :: 0 <= m < k ==> !Trouble(config[order[m]], order[m], failing)
  }

  lemma {:induction false} SweepSeen(b: Backend, config: seq<Line>, order: seq<nat>, failing: set<nat>, k: nat)
    requires Inv(b, config) && k < |order| && forall m :: 0 <= m < |order| ==> order[m] < |config|
    requires forall m, n :: 0 <= m < n < |order| ==> order[m] != order[n]
    ensures var i := order[k];
            var w := ViewOf(SafeSweep(b, order, failing).0, i);
            if Reached(config, order, failing, k)
            then AfterSafeLevel(config[i], ViewOf(b, i).(pulse := NoPulse), i !in failing, w)
            else w == ViewOf(b, i)
    decreases |order|
  {
    var init, last := order[..|order| - 1], order[|order| - 1];
    var before := SafeSweep(b, init, failing);
    SweepKeeps(b, config, init, failing);
    SweepFails(b, config, init, failing);
    assert forall m :: 0 <= m < |init| ==> init[m] == order[m];
    if k < |init| {
      SweepSeen(b, config, init, failing, k);
      assert Reached(config, init, failing, k) <==> Reached(config, order, failing, k);
      if before.1 { SafeOneSeen(before.0, config, last, failing, order[k]); }
    } else {
      assert last !in init && Untouched(b, before.0, last);
      assert LineInv(b, config, last);
      UntouchedSeen(b, before.0, last);
      assert before.1 <==> Reached(config, order, failing, k);
      if before.1 { SafeOneSeen(before.0, config, last, failing, last); }
    }
  }

  lemma {:induction false} ClassIsRank(line: Line)
    ensures SweepClass(line) == Rank(line)
  {
  }

  lemma {:induction false} ReachedExactly(b: Backend, config: seq<Line>, failing: set<nat>, k: nat)
    requires Inv(b, config) && k < |OrderForSafeState(b.lines)|
    ensures forall m :: 0 <= m < |OrderForSafeState(b.lines)| ==> OrderForSafeState(b.lines)[m] < |config|
    ensures Reached(config, OrderForSafeState(b.lines), failing, k) <==>
            !CutOff(config, failing, OrderForSafeState(b.lines)[k])
  {
    var order := OrderForSafeState(b.lines);
    OrderVisitsAll(b.lines);
    forall m | 0 <= m < |order| ensures SweptBefore(config, order[m], order[k]) <==> m < k {
      assert LineInv(b, config, order[m]) && LineInv(b, config, order[k]);
      ClassIsRank(config[order[m]]);
      ClassIsRank(config[order[k]]);
      if m < k { assert Precedes(b.lines, order[m], order[k]); }
      if k < m { assert Precedes(b.lines, order[k], order[m]); }
    }
    if CutOff(config, failing, order[k]) {
      var j :| 0 <= j < |config| && Trouble(config[j], j, failing) && SweptBefore(config, j, order[k]);
      assert j in order;
      var m :| 0 <= m < |order| && order[m] == j;
    }
  }

  /** The sweep reaches exactly the lines before which no driven line fails, the failing one included. */
  lemma {:induction false} SafeAllSeen(b: Backend, config: seq<Line>, failing: set<nat>, i: nat)
    requires Inv(b, config) && i < |config| && !b.closed
    ensures var w := ViewOf(SafeStateAll(b, failing).0, i);
            if CutOff(config, failing, i) then w == ViewOf(b, i)
            else AfterSafeLevel(config[i], ViewOf(b, i).(pulse := NoPulse), i !in failing, w)
  {
    var order := OrderForSafeState(b.lines);
    OrderVisitsAll(b.lines);
    assert i in order;
    var k :| 0 <= k < |order| && order[k] == i;
    ReachedExactly(b, config, failing, k);
    SweepSeen(b, config, order, failing, k);
  }

  lemma {:induction false} CancelAllSeen(b: Backend, config: seq<Line>, n: nat, i: nat)
    requires Inv(b, config) && n <= |config| && i < |config|
    ensures Inv(CancelAll(b, n), config)
    ensures ViewOf(CancelAll(b, n), i) == if i < n then ViewOf(b, i).(pulse := NoPulse) else ViewOf(b, i)
  {
    CancelAllKeeps(b, config, n);
    if n > 0 {
      CancelAllSeen(b, config, n - 1, i);
      CancelAllKeeps(b, config, n - 1);
    }
  }

  lemma {:induction false} ReleaseAllSeen(b: Backend, config: seq<Line>, n: nat, i: nat)
    requires Inv(b, config) && n <= |config| && i < |config|
    requires forall j :: 0 <= j < |config| ==> b.lines[j].pulse == NoPulse
    ensures if i < n then LetGo(ViewOf(b, i), ViewOf(ReleaseAll(b, n), i))
            else ViewOf(ReleaseAll(b, n), i) == ViewOf(b, i)
  {
    if n > 0 {
      ReleaseAllSeen(b, config, n - 1, i);
      ReleaseAllKeeps(b, config, n - 1);
      ReleaseOneSeen(ReleaseAll(b, n - 1), config, n - 1, i);
    }
  }

  lemma {:induction false} ReleaseOneSeen(b: Backend, config: seq<Line>, j: nat, i: nat)
    requires Inv(b, config) && j < |config| && i < |config|
    ensures if i == j then LetGo(ViewOf(b, i), ViewOf(Release(b, j), i)) else ViewOf(Release(b, j), i) == ViewOf(b, i)
  {
    ReleaseKeeps(b, config, j);
    if i == j { ReleaseSeen(b, config, i); } else { OnlyLineSeen(b, config, Release(b, j), i, j); }
  }

  lemma {:induction false} CloseSeen(b: Backend, config: seq<Line>, i: nat)
    requires Inv(b, config) && i < |config| && !b.closed
    ensures LetGo(ViewOf(b, i).(pulse := NoPulse), ViewOf(Close(b), i))
  {
    var shut := b.(closed := true);
    forall j | 0 <= j < |config| ensures LineInv(shut, config, j) { assert LineInv(b, config, j); }
    CancelAllKeeps(shut, config, |b.lines|);
    CancelAllSeen(shut, config, |b.lines|, i);
    ReleaseAllSeen(CancelAll(shut, |b.lines|), config, |b.lines|, i);
  }

  lemma {:induction false} TargetedSeen(b: Backend, config: seq<Line>, target: Target, i: nat)
    requires Inv(b, config) && i < |config|
    ensures Names(config[i], target) <==> Resolve(b.lines, target) == Some(i)
    ensures Resolve(b.lines, target).Some? ==> Resolve(b.lines, target).value < |config|
  {
    NamedResolves(b, config, target, i);
    ResolvesTo(b, config, target);
  }

  /** Every action does to every line what it should, and to no other line anything. */
  lemma {:induction false} StepLines(b: Backend, config: seq<Line>, a: Action, i: nat)
    requires Inv(b, config) && i < |config|
    ensures LineAfter(config, b.closed, a, i, ViewOf(b, i), ViewOf(Step(b, a), i))
    ensures Step(b, a).closed == (b.closed || a.CloseIt?)
  {
    assert LineInv(b, config, i);
    StepKeeps(b, config, a);
    match a
    case WriteLine(target, request, ok) =>
      TargetedSeen(b, config, target, i);
      var j := Resolve(b.lines, target);
      if !b.closed && j.Some? {
        WriteKeeps(b, config, j.value, request, ok);
        if j == Some(i) {
          WriteSeen(b, config, i, request, ok);
        } else {
          OnlyLineSeen(b, config, Step(b, a), i, j.value);
        }
      }
    case PulseTimer(j, ok) => TimerSeen(b, config, j, ok, i);
    case HolderDies(j) =>
      if j < |b.lines| {
        ReleaseKeeps(b, config, j);
        if j == i { ReleaseSeen(b, config, i); } else { OnlyLineSeen(b, config, Step(b, a), i, j); }
      }
    case Observation(j, raw) =>
      if j < |b.lines| && j != i {
        ObservedKeeps(b, config, j, raw);
        OnlyLineSeen(b, config, Step(b, a), i, j);
      }
    case SafeAll(failing) =>
      if !b.closed {
        SafeAllSeen(b, config, failing, i);
        OrderVisitsAll(b.lines);
        SweepKeeps(b, config, OrderForSafeState(b.lines), failing);
      }
    case SafeLine(target, failing) =>
      TargetedSeen(b, config, target, i);
      var j := Resolve(b.lines, target);
      if !b.closed && j.Some? {
        SafeOneSeen(b, config, j.value, failing, i);
        SafeOneKeeps(b, config, j.value, failing);
      }
    case CloseIt =>
      if !b.closed {
        CloseSeen(b, config, i);
        CloseRests(b, config);
      }
  }

  lemma {:induction false} TimerSeen(b: Backend, config: seq<Line>, j: nat, ok: bool, i: nat)
    requires Inv(b, config) && i < |config|
    ensures var after := Step(b, PulseTimer(j, ok));
            && after.closed == b.closed
            && if j != i || b.lines[i].pulse != Waiting then ViewOf(after, i) == ViewOf(b, i)
               else AfterSafeLevel(config[i], ViewOf(b, i).(pulse := NoPulse), ok, ViewOf(after, i))
  {
    if j < |b.lines| {
      ElapseKeeps(b, config, j, ok);
      if j != i {
        OnlyLineSeen(b, config, Step(b, PulseTimer(j, ok)), i, j);
      } else if b.lines[i].pulse == Waiting {
        CancelKeeps(b, config, i);
        SafeLevelSeen(SetPulse(b, i, NoPulse), config, i, ok);
      }
    }
  }

  // ---- The life of one line ----

  ghost predicate LifeOf(config: seq<Line>, actions: seq<Action>, i: nat, life: seq<View>)
    requires i < |config|
  {
    && |life| == |actions| + 1
    && life[0] == View(None, None, false, NoPulse)
    && forall k :: 0 <= k < |actions| ==>
         LineAfter(config, Closes(actions[..k]), actions[k], i, life[k], life[k + 1])
  }

  /** Some action closes the backend. */
  predicate Closes(actions: seq<Action>) {
    actions != [] && (actions[|actions| - 1].CloseIt? || Closes(actions[..|actions| - 1]))
  }

  lemma {:induction false} RunCloses(config: seq<Line>, actions: seq<Action>)
    requires SafeConfig(config)
    ensures Run(Boot(config), actions).closed == Closes(actions)
    decreases |actions|
  {
    if actions != [] {
      var init := actions[..|actions| - 1];
      RunCloses(config, init);
      RunKeeps(config, init);
      StepCloses(Run(Boot(config), init), config, actions[|actions| - 1]);
    }
  }

  lemma {:induction false} StepCloses(b: Backend, config: seq<Line>, a: Action)
    requires Inv(b, config)
    ensures Step(b, a).closed == (b.closed || a.CloseIt?)
  {
    if |config| > 0 {
      StepLines(b, config, a, 0);
    } else {
      assert OrderForSafeState(b.lines) == [];
    }
  }

  lemma {:induction false} LifeGoesOn(config: seq<Line>, actions: seq<Action>, i: nat, life: seq<View>, a: Action,
                                      next: View)
    requires i < |config| && LifeOf(config, actions, i, life)
    requires LineAfter(config, Closes(actions), a, i, life[|actions|], next)
    ensures LifeOf(config, actions + [a], i, life + [next])
  {
    var more, lives := actions + [a], life + [next];
    forall k | 0 <= k < |more| ensures LineAfter(config, Closes(more[..k]), more[k], i, lives[k], lives[k + 1]) {
      assert more[..k] == actions[..k];
      if k == |actions| { assert actions[..k] == actions; }
    }
  }

  /** Over every run each line lives by the actions that concern it, from released and unknown on. */
  lemma {:induction false} EachLineLives(config: seq<Line>, actions: seq<Action>, i: nat) returns (life: seq<View>)
    requires SafeConfig(config) && i < |config|
    ensures |Run(Boot(config), actions).lines| == |config| && LifeOf(config, actions, i, life)
    ensures life[|actions|] == ViewOf(Run(Boot(config), actions), i)
    decreases |actions|
  {
    RunKeeps(config, actions);
    if actions == [] {
      life := [ViewOf(Boot(config), i)];
    } else {
      var init, a := actions[..|actions| - 1], actions[|actions| - 1];
      var before := EachLineLives(config, init, i);
      RunKeeps(config, init);
      RunCloses(config, init);
      StepLines(Run(Boot(config), init), config, a, i);
      LifeGoesOn(config, init, i, before, a, ViewOf(Run(Boot(config), actions), i));
      assert actions == init + [a];
      life := before + [ViewOf(Run(Boot(config), actions), i)];
    }
  }
}
