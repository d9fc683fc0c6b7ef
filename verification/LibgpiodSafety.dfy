/**
 What the libgpiod backend keeps over every run: no holder process is lost or doubled, the
 safe-state sweep takes power from every load it may touch, and only a write gives it back.
 */
module LibgpiodSafety {
  import opened Prelude
  import opened LibgpiodConfig
  import opened Libgpiod
  import Lines

  // ---- The invariant ----

  /** The live processes are exactly the holders of the lines, one per line, on that line's offset. */
  ghost predicate Inv(b: Backend, config: seq<Line>) {
    && SafeConfig(config) && |b.lines| == |config|
    && (forall i :: 0 <= i < |config| ==> LineInv(b, config, i))
    && (forall p :: p in b.processes ==>
        p < b.nextPid && exists i :: 0 <= i < |b.lines| && b.lines[i].holder == Some(p))
  }

  ghost predicate LineInv(b: Backend, config: seq<Line>, i: nat)
    requires i < |config| && |b.lines| == |config|
  {
    var l := b.lines[i];
    && l.config == config[i]
    && (l.holder.Some? ==> l.holder.value in b.processes && b.processes[l.holder.value].offset == config[i].offset)
    && (config[i].direction == Input ==> l.holder.None? && l.pulse == NoPulse)
  }

  /** No two lines share a holder, because no two share an offset. */
  lemma {:induction false} HoldersDiffer(b: Backend, config: seq<Line>, i: nat, j: nat)
    requires Inv(b, config) && i < |config| && j < |config| && i != j && b.lines[i].holder.Some?
    ensures b.lines[i].holder != b.lines[j].holder
  {
    assert LineInv(b, config, i) && LineInv(b, config, j);
  }

  /** At most one live process ever drives an offset, and it is the holder of the line declared there. */
  lemma {:induction false} OneHolderPerOffset(b: Backend, config: seq<Line>, p: nat, i: nat)
    requires Inv(b, config) && p in b.processes && i < |config| && b.processes[p].offset == config[i].offset
    ensures b.lines[i].holder == Some(p)
  {
    var j :| 0 <= j < |b.lines| && b.lines[j].holder == Some(p);
    assert LineInv(b, config, j);
  }

  lemma {:induction false} BootInv(config: seq<Line>)
    requires SafeConfig(config)
    ensures Inv(Boot(config), config)
  {
  }

  // ---- One line changes, the others do not ----

  /** Line `j` and the process behind it are as before. */
  ghost predicate Untouched(b: Backend, after: Backend, j: nat) {
    && j < |b.lines| && |after.lines| == |b.lines|
    && after.lines[j] == b.lines[j]
    && (b.lines[j].holder.Some? && b.lines[j].holder.value in b.processes ==>
          b.lines[j].holder.value in after.processes
          && after.processes[b.lines[j].holder.value] == b.processes[b.lines[j].holder.value])
  }

  /** Only line `i` may differ. */
  ghost predicate OnlyLine(b: Backend, after: Backend, i: nat) {
    && |after.lines| == |b.lines| && after.nextPid >= b.nextPid && after.closed == b.closed
    && forall j :: 0 <= j < |b.lines| && j != i ==> Untouched(b, after, j)
  }

  lemma {:induction false} Touch(b: Backend, config: seq<Line>, i: nat, l: LineState)
    requires Inv(b, config) && i < |config|
    requires l.config == config[i] && l.holder == b.lines[i].holder &&
               (config[i].direction == Input ==> l.pulse == NoPulse)
    ensures Inv(b.(lines := b.lines[i := l]), config) && OnlyLine(b, b.(lines := b.lines[i := l]), i)
  {
    var after := b.(lines := b.lines[i := l]);
    forall j | 0 <= j < |config| ensures LineInv(after, config, j) { assert LineInv(b, config, j); }
    forall p | p in b.processes ensures exists j :: 0 <= j < |after.lines| && after.lines[j].holder == Some(p) {
      var j :| 0 <= j < |b.lines| && b.lines[j].holder == Some(p);
      assert after.lines[j].holder == Some(p);
    }
  }

  lemma {:induction false} ReleaseKeeps(b: Backend, config: seq<Line>, i: nat)
    requires Inv(b, config) && i < |config|
    ensures Inv(Release(b, i), config) && OnlyLine(b, Release(b, i), i)
    ensures Release(b, i).lines[i].holder.None? && Release(b, i).lines[i].pulse == b.lines[i].pulse
  {
    assert LineInv(b, config, i);
    var after := Release(b, i);
    if b.lines[i].holder.Some? {
      forall j | 0 <= j < |config| ensures LineInv(after, config, j) && (j != i ==> Untouched(b, after, j)) {
        assert LineInv(b, config, j);
        if j != i { HoldersDiffer(b, config, i, j); }
      }
      forall p | p in after.processes ensures exists j :: 0 <= j < |after.lines| && after.lines[j].holder == Some(p) {
        var j :| 0 <= j < |b.lines| && b.lines[j].holder == Some(p);
        assert after.lines[j].holder == Some(p);
      }
    }
  }

  /** Starting a holder for a line that has none. */
  lemma {:induction false} StartKeeps(r: Backend, config: seq<Line>, i: nat, raw: Raw, after: Backend)
    requires Inv(r, config) && i < |config| && r.lines[i].holder.None? && config[i].direction == Output
    requires var held := r.lines[i].(holder := Some(r.nextPid), rawLevel := Some(raw), releasedOnExit := false);
             after == r.(lines := r.lines[i := held],
                         processes := r.processes[r.nextPid := Process(config[i].offset, raw)],
                         nextPid := r.nextPid + 1)
    ensures Inv(after, config) && OnlyLine(r, after, i)
  {
    forall j | 0 <= j < |config| ensures LineInv(after, config, j) && (j != i ==> Untouched(r, after, j)) {
      assert LineInv(r, config, j);
    }
    forall p | p in after.processes ensures exists j :: 0 <= j < |after.lines| && after.lines[j].holder == Some(p) {
      if p in r.processes {
        var j :| 0 <= j < |r.lines| && r.lines[j].holder == Some(p);
        assert after.lines[j].holder == Some(p);
      } else {
        assert after.lines[i].holder == Some(p);
      }
    }
  }

  lemma {:induction false} Trans(a: Backend, b: Backend, c: Backend, i: nat)
    requires OnlyLine(a, b, i) && OnlyLine(b, c, i)
    ensures OnlyLine(a, c, i)
  {
    forall j | 0 <= j < |a.lines| && j != i ensures Untouched(a, c, j) {
      assert Untouched(a, b, j) && Untouched(b, c, j);
    }
  }

  lemma {:induction false} DriveKeeps(b: Backend, config: seq<Line>, i: nat, raw: Raw, ok: bool)
    requires Inv(b, config) && i < |config| && config[i].direction == Output
    ensures Inv(Drive(b, i, raw, ok), config) && OnlyLine(b, Drive(b, i, raw, ok), i)
    ensures Drive(b, i, raw, ok).lines[i].pulse == b.lines[i].pulse
    ensures ok ==> HeldAt(Drive(b, i, raw, ok), i, raw)
    ensures !ok ==> Drive(b, i, raw, ok).lines[i].holder.None?
  {
    ReleaseKeeps(b, config, i);
    if ok {
      var r := Release(b, i);
      assert LineInv(r, config, i);
      StartKeeps(r, config, i, raw, Drive(b, i, raw, true));
      Trans(b, r, Drive(b, i, raw, true), i);
    }
  }

  /** The line has a live holder that keeps it at `raw`, and the backend says so. */
  ghost predicate HeldAt(b: Backend, i: nat, raw: Raw) {
    && i < |b.lines| && b.lines[i].holder.Some? && b.lines[i].rawLevel == Some(raw)
    && b.lines[i].holder.value in b.processes
    && b.processes[b.lines[i].holder.value] == Process(b.lines[i].config.offset, raw)
  }

  // ---- The safe level of one line ----

  /** What a line must look like after its safe level was applied to `b`. */
  ghost predicate Settled(b: Backend, after: Backend, i: nat) {
    && i < |b.lines| == |after.lines| && after.lines[i].pulse == NoPulse
    && var c := b.lines[i].config;
       if c.direction == Output && Driven(c.safeLevel) then
         HeldAt(after, i, SafeRaw(c.safeLevel)) && !RawToLogical(SafeRaw(c.safeLevel), c.polarity)
       else if c.direction == Output && c.safeLevel == HighZ then
         after.lines[i].holder.None? && after.lines[i].rawLevel.None?
       else Untouched(CancelPulse(b, i), after, i)
  }

  lemma {:induction false} CancelKeeps(b: Backend, config: seq<Line>, i: nat)
    requires Inv(b, config) && i < |config|
    ensures Inv(CancelPulse(b, i), config) && OnlyLine(b, CancelPulse(b, i), i)
  {
    assert LineInv(b, config, i);
    Touch(b, config, i, b.lines[i].(pulse := NoPulse));
  }

  lemma {:induction false} ApplyKeeps(b: Backend, config: seq<Line>, i: nat, ok: bool)
    requires Inv(b, config) && i < |config|
    ensures Inv(ApplySafeLevel(b, i, ok).0, config) && OnlyLine(b, ApplySafeLevel(b, i, ok).0, i)
    ensures ApplySafeLevel(b, i, ok).0.lines[i].pulse == b.lines[i].pulse
    ensures ApplySafeLevel(b, i, ok).1 && b.lines[i].pulse == NoPulse ==> Settled(b, ApplySafeLevel(b, i, ok).0, i)
    ensures !ApplySafeLevel(b, i, ok).1 ==>
      !ok && config[i].direction == Output && Driven(config[i].safeLevel) &&
        ApplySafeLevel(b, i, ok).0.lines[i].holder.None?
  {
    assert LineInv(b, config, i);
    var c := config[i];
    if c.direction == Output && c.safeLevel == HighZ {
      ReleaseKeeps(b, config, i);
      var r := Release(b, i);
      assert LineInv(r, config, i);
      Touch(r, config, i, r.lines[i].(rawLevel := None, releasedOnExit := false));
      Trans(b, r, ApplySafeLevel(b, i, ok).0, i);
    } else if c.direction == Output && Driven(c.safeLevel) {
      DriveKeeps(b, config, i, SafeRaw(c.safeLevel), ok);
    }
  }

  lemma {:induction false} SafeOneKeeps(b: Backend, config: seq<Line>, i: nat, failing: set<nat>)
    requires Inv(b, config) && i < |config|
    ensures Inv(SafeOne(b, i, failing).0, config) && OnlyLine(b, SafeOne(b, i, failing).0, i)
    ensures SafeOne(b, i, failing).0.lines[i].pulse == NoPulse
    ensures SafeOne(b, i, failing).1 ==> Settled(b, SafeOne(b, i, failing).0, i)
    ensures SafeOne(b, i, failing).1 <==>
              !(i in failing && config[i].direction == Output && Driven(config[i].safeLevel))
    ensures !SafeOne(b, i, failing).1 ==> SafeOne(b, i, failing).0.lines[i].holder.None?
  {
    var q := CancelPulse(b, i);
    assert LineInv(b, config, i);
    CancelKeeps(b, config, i);
    ApplyKeeps(q, config, i, i !in failing);
    Trans(b, q, SafeOne(b, i, failing).0, i);
    assert CancelPulse(q, i) == q;
  }

  // ---- The order of the sweep ----

  predicate Precedes(lines: seq<LineState>, i: nat, j: nat)
    requires i < |lines| && j < |lines|
  {
    var ri, rj := Rank(lines[i].config), Rank(lines[j].config);
    ri < rj || (ri == rj && i < j)
  }

  ghost predicate Ordered(lines: seq<LineState>, order: seq<nat>) {
    && (forall k :: 0 <= k < |order| ==> order[k] < |lines|)
    && (forall k, m :: 0 <= k < m < |order| ==> Precedes(lines, order[k], order[m]))
  }

  lemma {:induction false} OfRankExactly(lines: seq<LineState>, rank: nat, n: nat)
    requires n <= |lines|
    ensures forall i: nat :: i in OfRank(lines, rank, n) <==> i < n && Rank(lines[i].config) == rank
    ensures forall k, m :: 0 <= k < m < |OfRank(lines, rank, n)| ==>
              OfRank(lines, rank, n)[k] < OfRank(lines, rank, n)[m]
  {
    if n > 0 { OfRankExactly(lines, rank, n - 1); }
  }

  /** The sweep visits every line once, by rank and then by declaration. */
  lemma {:induction false} OrderVisitsAll(lines: seq<LineState>)
    ensures Ordered(lines, OrderForSafeState(lines))
    ensures forall i: nat :: i in OrderForSafeState(lines) <==> i < |lines|
  {
    var n := |lines|;
    OfRankExactly(lines, 0, n);
    OfRankExactly(lines, 1, n);
    OfRankExactly(lines, 2, n);
    var first, second, third := OfRank(lines, 0, n), OfRank(lines, 1, n), OfRank(lines, 2, n);
    forall i: nat ensures i in first + second + third <==> i < n {
      if i < n { assert Rank(lines[i].config) in {0, 1, 2}; }
    }
  }

  lemma {:induction false} LastIsLast(lines: seq<LineState>, s: seq<nat>, i: nat)
    requires Ordered(lines, s) && i in s
    ensures s[|s| - 1] < |lines| && i < |lines| && (i == s[|s| - 1] || Precedes(lines, i, s[|s| - 1]))
  {
    var k :| 0 <= k < |s| && s[k] == i;
  }

  lemma {:induction false} InitsAgree(lines: seq<LineState>, s0: seq<nat>, t0: seq<nat>, x: nat)
    requires Ordered(lines, s0 + [x]) && Ordered(lines, t0 + [x])
    requires forall i: nat :: i in s0 + [x] <==> i in t0 + [x]
    ensures Ordered(lines, s0) && Ordered(lines, t0) && forall i: nat :: i in s0 <==> i in t0
  {
    InitOrdered(lines, s0, x);
    InitOrdered(lines, t0, x);
    assert forall i: nat :: i in s0 <==> i in s0 + [x] && i != x;
    assert forall i: nat :: i in t0 <==> i in t0 + [x] && i != x;
  }

  lemma {:induction false} InitOrdered(lines: seq<LineState>, s0: seq<nat>, x: nat)
    requires Ordered(lines, s0 + [x])
    ensures Ordered(lines, s0) && x !in s0
  {
    var s := s0 + [x];
    assert s[|s0|] == x && forall k :: 0 <= k < |s0| ==> s[k] == s0[k];
    forall k | 0 <= k < |s0| ensures s0[k] != x {
      assert Precedes(lines, s[k], s[|s0|]);
    }
  }

  /** Any sort by rank with ties kept in declaration order gives this order. */
  lemma {:induction false} OrderUnique(lines: seq<LineState>, s: seq<nat>, t: seq<nat>)
    requires Ordered(lines, s) && Ordered(lines, t) && forall i: nat :: i in s <==> i in t
    ensures s == t
    decreases |s|
  {
    assert t != [] ==> t[0] in t;
    if s != [] {
      assert s[|s| - 1] in t;
      var x, y := s[|s| - 1], t[|t| - 1];
      assert y in t;
      LastIsLast(lines, s, y);
      LastIsLast(lines, t, x);
      var s0, t0 := s[..|s| - 1], t[..|t| - 1];
      assert s == s0 + [x] && t == t0 + [x];
      InitsAgree(lines, s0, t0, x);
      OrderUnique(lines, s0, t0);
    }
  }

  // ---- The sweep ----

  lemma {:induction false} SweepKeeps(b: Backend, config: seq<Line>, order: seq<nat>, failing: set<nat>)
    requires Inv(b, config) && forall k :: 0 <= k < |order| ==> order[k] < |config|
    requires forall k, m :: 0 <= k < m < |order| ==> order[k] != order[m]
    ensures Inv(SafeSweep(b, order, failing).0, config) && SafeSweep(b, order, failing).0.closed == b.closed
    ensures forall j :: 0 <= j < |config| && j !in order ==> Untouched(b, SafeSweep(b, order, failing).0, j)
    ensures SafeSweep(b, order, failing).1 ==> forall k :: 0 <= k < |order| ==>
              Settled(b, SafeSweep(b, order, failing).0, order[k])
    decreases |order|
  {
    if order != [] {
      var init, last := order[..|order| - 1], order[|order| - 1];
      SweepKeeps(b, config, init, failing);
      var before := SafeSweep(b, init, failing);
      assert order == init + [last];
      if before.1 {
        var after := SafeOne(before.0, last, failing).0;
        SafeOneKeeps(before.0, config, last, failing);
        assert last !in init && Untouched(b, before.0, last);
        forall j | 0 <= j < |config| && j !in order ensures Untouched(b, after, j) {
          UntouchedTwice(b, before.0, after, j);
        }
        if SafeOne(before.0, last, failing).1 {
          SettledLater(b, before.0, after, last);
          forall k | 0 <= k < |order| ensures Settled(b, after, order[k]) {
            if k < |init| {
              assert order[k] == init[k] != last;
              SettledStays(b, config, before.0, after, order[k]);
            }
          }
        }
      }
    }
  }

  lemma {:induction false} UntouchedTwice(a: Backend, b: Backend, c: Backend, j: nat)
    requires Untouched(a, b, j) && Untouched(b, c, j)
    ensures Untouched(a, c, j)
  {
  }

  lemma {:induction false} SettledLater(a: Backend, b: Backend, c: Backend, i: nat)
    requires Untouched(a, b, i) && Settled(b, c, i)
    ensures Settled(a, c, i)
  {
  }

  lemma {:induction false} SettledStays(a: Backend, config: seq<Line>, b: Backend, c: Backend, i: nat)
    requires Inv(a, config) && Settled(a, b, i) && Untouched(b, c, i)
    ensures Settled(a, c, i)
  {
    assert LineInv(a, config, i);
  }

  lemma {:induction false} AllSettled(b: Backend, config: seq<Line>, failing: set<nat>)
    requires Inv(b, config)
    ensures Inv(SafeStateAll(b, failing).0, config)
    ensures SafeStateAll(b, failing).1.Done? ==> forall i :: 0 <= i < |config| ==>
              Settled(b, SafeStateAll(b, failing).0, i)
  {
    var order := OrderForSafeState(b.lines);
    OrderVisitsAll(b.lines);
    SweepKeeps(b, config, order, failing);
    if SafeStateAll(b, failing).1.Done? {
      forall i | 0 <= i < |config| ensures Settled(b, SafeStateAll(b, failing).0, i) {
        assert i in order;
        var k :| 0 <= k < |order| && order[k] == i;
      }
    }
  }

  // ---- Runs ----

  datatype Action =
    | WriteLine(target: Target, request: WriteRequest, ok: bool)
    | PulseTimer(i: nat, ok: bool)
    | HolderDies(i: nat)
    | Observation(i: nat, raw: Raw)
    | SafeAll(failing: set<nat>)
    | SafeLine(target: Target, failing: set<nat>)
    | CloseIt

  function Step(b: Backend, a: Action): Backend {
    match a
    case WriteLine(target, request, ok) => WriteTo(b, target, request, ok).0
    case PulseTimer(i, ok) => if i < |b.lines| then PulseElapsed(b, i, ok) else b
    case HolderDies(i) => if i < |b.lines| then HolderExited(b, i) else b
    case Observation(i, raw) => if i < |b.lines| then Observed(b, i, raw) else b
    case SafeAll(failing) => SafeStateAll(b, failing).0
    case SafeLine(target, failing) => SafeStateOf(b, target, failing).0
    case CloseIt => Close(b)
  }

  function Run(b: Backend, actions: seq<Action>): Backend {
    if actions == [] then b else Step(Run(b, actions[..|actions| - 1]), actions[|actions| - 1])
  }

  lemma {:induction false} WriteKeeps(b: Backend, config: seq<Line>, i: nat, request: WriteRequest, ok: bool)
    requires Inv(b, config) && i < |config|
    ensures Inv(Write(b, i, request, ok).0, config) && OnlyLine(b, Write(b, i, request, ok).0, i)
  {
    assert LineInv(b, config, i);
    if WriteRefusal(config[i], request).None? {
      var raw := LogicalToRaw(request.value.value, config[i].polarity);
      var quiet := CancelPulse(b, i);
      CancelKeeps(b, config, i);
      assert LineInv(quiet, config, i);
      if request.hold == Value(false) {
        Touch(quiet, config, i, quiet.lines[i].(rawLevel := Some(raw), releasedOnExit := true));
      } else if request.pulseMs.Value? {
        var starting := SetPulse(quiet, i, Starting);
        Touch(quiet, config, i, quiet.lines[i].(pulse := Starting));
        Trans(b, quiet, starting, i);
        DriveKeeps(starting, config, i, raw, ok);
        var d := Drive(starting, i, raw, ok);
        Trans(b, starting, d, i);
        assert LineInv(d, config, i);
        Touch(d, config, i, d.lines[i].(pulse := Waiting));
        if ok { Trans(b, d, SetPulse(d, i, Waiting), i); }
      } else {
        DriveKeeps(quiet, config, i, raw, ok);
      }
      if !(request.hold != Value(false) && request.pulseMs.Value?) { Trans(b, quiet, Write(b, i, request, ok).0, i); }
    }
  }

  lemma {:induction false} ElapseKeeps(b: Backend, config: seq<Line>, i: nat, ok: bool)
    requires Inv(b, config) && i < |config|
    ensures Inv(PulseElapsed(b, i, ok), config) && OnlyLine(b, PulseElapsed(b, i, ok), i)
  {
    if b.lines[i].pulse == Waiting {
      CancelKeeps(b, config, i);
      ApplyKeeps(SetPulse(b, i, NoPulse), config, i, ok);
      Trans(b, SetPulse(b, i, NoPulse), PulseElapsed(b, i, ok), i);
    }
  }

  lemma {:induction false} ObservedKeeps(b: Backend, config: seq<Line>, i: nat, raw: Raw)
    requires Inv(b, config) && i < |config|
    ensures Inv(Observed(b, i, raw), config) && OnlyLine(b, Observed(b, i, raw), i)
  {
    assert LineInv(b, config, i);
    Touch(b, config, i, b.lines[i].(rawLevel := Some(raw)));
  }

  lemma {:induction false} CancelAllKeeps(b: Backend, config: seq<Line>, n: nat)
    requires Inv(b, config) && n <= |config|
    ensures Inv(CancelAll(b, n), config)
    ensures forall i :: 0 <= i < n ==> CancelAll(b, n).lines[i].pulse == NoPulse
    ensures CancelAll(b, n).closed == b.closed
  {
    if n > 0 {
      CancelAllKeeps(b, config, n - 1);
      CancelKeeps(CancelAll(b, n - 1), config, n - 1);
    }
  }

  lemma {:induction false} ReleaseAllKeeps(b: Backend, config: seq<Line>, n: nat)
    requires Inv(b, config) && n <= |config| && forall i :: 0 <= i < |config| ==> b.lines[i].pulse == NoPulse
    ensures Inv(ReleaseAll(b, n), config)
    ensures forall i :: 0 <= i < n ==> ReleaseAll(b, n).lines[i].holder.None?
    ensures forall i :: 0 <= i < |config| ==> ReleaseAll(b, n).lines[i].pulse == NoPulse
    ensures ReleaseAll(b, n).closed == b.closed
  {
    if n > 0 {
      ReleaseAllKeeps(b, config, n - 1);
      ReleaseKeeps(ReleaseAll(b, n - 1), config, n - 1);
    }
  }

  /** Nothing is held, running or waiting. */
  ghost predicate AtRest(b: Backend) {
    && b.closed && b.processes == map[]
    && forall i :: 0 <= i < |b.lines| ==> b.lines[i].holder.None? && b.lines[i].pulse == NoPulse
  }

  lemma {:induction false} CloseRests(b: Backend, config: seq<Line>)
    requires Inv(b, config)
    ensures Inv(Close(b), config)
    ensures !b.closed ==> AtRest(Close(b))
  {
    if !b.closed {
      var shut := b.(closed := true);
      forall i | 0 <= i < |config| ensures LineInv(shut, config, i) { assert LineInv(b, config, i); }
      CancelAllKeeps(shut, config, |b.lines|);
      ReleaseAllKeeps(CancelAll(shut, |b.lines|), config, |b.lines|);
    }
  }

  lemma {:induction false} StepKeeps(b: Backend, config: seq<Line>, a: Action)
    requires Inv(b, config)
    ensures Inv(Step(b, a), config)
  {
    match a
    case WriteLine(target, request, ok) =>
      var i := Resolve(b.lines, target);
      if i.Some? { WriteKeeps(b, config, i.value, request, ok); }
    case PulseTimer(i, ok) => if i < |b.lines| { ElapseKeeps(b, config, i, ok); }
    case HolderDies(i) => if i < |b.lines| { ReleaseKeeps(b, config, i); }
    case Observation(i, raw) => if i < |b.lines| { ObservedKeeps(b, config, i, raw); }
    case SafeAll(failing) => AllSettled(b, config, failing);
    case SafeLine(target, failing) =>
      var i := Resolve(b.lines, target);
      if i.Some? { SafeOneKeeps(b, config, i.value, failing); }
    case CloseIt => CloseRests(b, config);
  }

  /** In every run from an accepted configuration the live processes are exactly the holders of the lines. */
  lemma {:induction false} RunKeeps(config: seq<Line>, actions: seq<Action>)
    requires SafeConfig(config)
    ensures Inv(Run(Boot(config), actions), config)
    decreases |actions|
  {
    if actions == [] {
      BootInv(config);
    } else {
      RunKeeps(config, actions[..|actions| - 1]);
      StepKeeps(Run(Boot(config), actions[..|actions| - 1]), config, actions[|actions| - 1]);
    }
  }

  // ---- The main results ----

  /** No live process drives line `i` at the level that gives its load power; a released line has no process at all. */
  ghost predicate NotEnergized(b: Backend, i: nat)
    requires i < |b.lines|
  {
    forall p :: p in b.processes && b.processes[p].offset == b.lines[i].config.offset ==>
      !RawToLogical(b.processes[p].raw, b.lines[i].config.polarity)
  }

  lemma {:induction false} OffByHolder(b: Backend, config: seq<Line>, i: nat)
    requires Inv(b, config) && i < |config|
    ensures NotEnergized(b, i) <==>
      (b.lines[i].holder.Some? ==>
         b.lines[i].holder.value in b.processes &&
           !RawToLogical(b.processes[b.lines[i].holder.value].raw, config[i].polarity))
  {
    assert LineInv(b, config, i);
    forall p | p in b.processes && b.processes[p].offset == config[i].offset ensures b.lines[i].holder == Some(p) {
      OneHolderPerOffset(b, config, p, i);
    }
  }

  lemma {:induction false} SafeStateSettles(before: Backend, config: seq<Line>, failing: set<nat>, i: nat)
    requires Inv(before, config) && i < |config| && SafeStateAll(before, failing).1.Done?
    ensures var after := SafeStateAll(before, failing).0;
            && Inv(after, config) && Settled(before, after, i)
            && (config[i].safeLevel != Hold ==> NotEnergized(after, i))
            && (config[i].safeLevel == Hold && config[i].direction == Output ==>
                (NotEnergized(after, i) <==> NotEnergized(before, i)))
  {
    var after := SafeStateAll(before, failing).0;
    AllSettled(before, config, failing);
    assert LineInv(before, config, i) && LineInv(after, config, i);
    OffByHolder(before, config, i);
    OffByHolder(after, config, i);
  }

  /**
   For every configuration the validator accepts and after any run, a full safe state that
   reports success leaves every driven output held by one process at a level that is off for
   its load, every high-z output released, hold lines and inputs as they were, and no pulse
   pending; a process can then still power a load only on a hold line where it did before.
   */
  lemma {:induction false} SafeStateDeenergizes(entries: seq<Entry>, actions: seq<Action>, failing: set<nat>, i: nat)
    requires Acceptable(entries) && i < |entries|
    requires SafeStateAll(Run(Boot(LinesOf(entries)), actions), failing).1.Done?
    ensures var line, before := LinesOf(entries)[i], Run(Boot(LinesOf(entries)), actions);
            var after := SafeStateAll(before, failing).0;
            && Inv(after, LinesOf(entries)) && |before.lines| == |entries| && Settled(before, after, i)
            && (line.safeLevel != Hold ==> NotEnergized(after, i))
            && (line.safeLevel == Hold && line.direction == Output ==>
                (NotEnergized(after, i) <==> NotEnergized(before, i)))
  {
    AcceptedIsSafe(entries);
    RunKeeps(LinesOf(entries), actions);
    SafeStateSettles(Run(Boot(LinesOf(entries)), actions), LinesOf(entries), failing, i);
  }

  /** The tool is to fail on a line whose safe level must be driven. */
  predicate Trouble(line: Line, i: nat, failing: set<nat>) {
    line.direction == Output && Driven(line.safeLevel) && i in failing
  }

  /** The sweep fails exactly when a driven output's tool does, and an open backend is never refused otherwise. */
  lemma {:induction false} SafeStateFailsExactly(b: Backend, config: seq<Line>, failing: set<nat>)
    requires Inv(b, config)
    ensures SafeStateAll(b, failing).1.Done? <==>
      !b.closed && forall i :: 0 <= i < |config| ==> !Trouble(config[i], i, failing)
    ensures SafeStateAll(b, failing).1.Refused? ==>
              SafeStateAll(b, failing).1.why == if b.closed then Disconnected else ToolFailed
  {
    OrderVisitsAll(b.lines);
    var order := OrderForSafeState(b.lines);
    SweepFails(b, config, order, failing);
    forall i | 0 <= i < |config| ensures b.lines[i].config == config[i] && i in order { assert LineInv(b, config, i); }
    if !(forall i :: 0 <= i < |config| ==> !Trouble(config[i], i, failing)) {
      var i :| 0 <= i < |config| && Trouble(config[i], i, failing);
      assert i in order;
      var k :| 0 <= k < |order| && order[k] == i;
    }
  }

  lemma {:induction false} OneFails(b: Backend, config: seq<Line>, i: nat, failing: set<nat>)
    requires Inv(b, config) && i < |config|
    ensures SafeOne(b, i, failing).1 <==> !Trouble(config[i], i, failing)
  {
    SafeOneKeeps(b, config, i, failing);
  }

  lemma {:induction false} SweepFails(b: Backend, config: seq<Line>, order: seq<nat>, failing: set<nat>)
    requires Inv(b, config) && forall k :: 0 <= k < |order| ==> order[k] < |config|
    requires forall k, m :: 0 <= k < m < |order| ==> order[k] != order[m]
    ensures SafeSweep(b, order, failing).1 <==>
      forall k :: 0 <= k < |order| ==> !Trouble(config[order[k]], order[k], failing)
    decreases |order|
  {
    if order != [] {
      var init, last := order[..|order| - 1], order[|order| - 1];
      SweepFails(b, config, init, failing);
      SweepKeeps(b, config, init, failing);
      OneFails(SafeSweep(b, init, failing).0, config, last, failing);
      assert forall k :: 0 <= k < |order| ==> order[k] == if k < |init| then init[k] else last;
    }
  }

  /** Whether an action asks to write line `i`. */
  predicate Writes(a: Action, lines: seq<LineState>, i: nat) {
    a.WriteLine? && Resolve(lines, a.target) == Some(i)
  }

  lemma {:induction false} OffElsewhere(b: Backend, after: Backend, config: seq<Line>, i: nat, j: nat)
    requires Inv(b, config) && Inv(after, config) && OnlyLine(b, after, j)
    requires i != j && i < |config| && NotEnergized(b, i)
    ensures NotEnergized(after, i)
  {
    assert Untouched(b, after, i) && LineInv(b, config, i);
    OffByHolder(b, config, i);
    OffByHolder(after, config, i);
  }

  /** Applying a safe level never gives a load power, whether the tool fails or not. */
  lemma {:induction false} SafeLevelNeverEnergizes(b: Backend, config: seq<Line>, i: nat, ok: bool)
    requires Inv(b, config) && i < |config| && NotEnergized(b, i)
    ensures NotEnergized(ApplySafeLevel(b, i, ok).0, i)
  {
    ApplyKeeps(b, config, i, ok);
    assert LineInv(b, config, i);
    var after := ApplySafeLevel(b, i, ok).0;
    OffByHolder(b, config, i);
    OffByHolder(after, config, i);
    if config[i].direction == Output && Driven(config[i].safeLevel) {
      DriveKeeps(b, config, i, SafeRaw(config[i].safeLevel), ok);
    }
  }

  lemma {:induction false} CancelOff(b: Backend, i: nat)
    requires i < |b.lines| && NotEnergized(b, i)
    ensures NotEnergized(CancelPulse(b, i), i)
  {
  }

  lemma {:induction false} SafeOneOff(b: Backend, config: seq<Line>, i: nat, failing: set<nat>, j: nat)
    requires Inv(b, config) && i < |config| && j < |config| && NotEnergized(b, i)
    ensures Inv(SafeOne(b, j, failing).0, config) && NotEnergized(SafeOne(b, j, failing).0, i)
  {
    SafeOneKeeps(b, config, j, failing);
    if i == j {
      CancelKeeps(b, config, i);
      CancelOff(b, i);
      SafeLevelNeverEnergizes(CancelPulse(b, i), config, i, i !in failing);
    } else {
      OffElsewhere(b, SafeOne(b, j, failing).0, config, i, j);
    }
  }

  lemma {:induction false} SweepOff(b: Backend, config: seq<Line>, i: nat, order: seq<nat>, failing: set<nat>)
    requires Inv(b, config) && i < |config| && NotEnergized(b, i)
    requires forall k :: 0 <= k < |order| ==> order[k] < |config|
    ensures Inv(SafeSweep(b, order, failing).0, config) && NotEnergized(SafeSweep(b, order, failing).0, i)
    decreases |order|
  {
    if order != [] {
      var init := order[..|order| - 1];
      SweepOff(b, config, i, init, failing);
      SafeOneOff(SafeSweep(b, init, failing).0, config, i, failing, order[|order| - 1]);
    }
  }

  lemma {:induction false} StepOff(b: Backend, config: seq<Line>, a: Action, i: nat)
    requires Inv(b, config) && i < |config| && NotEnergized(b, i) && !Writes(a, b.lines, i)
    ensures Inv(Step(b, a), config) && NotEnergized(Step(b, a), i)
  {
    StepKeeps(b, config, a);
    match a
    case WriteLine(target, request, ok) =>
      var j := Resolve(b.lines, target);
      if j.Some? && !b.closed {
        WriteKeeps(b, config, j.value, request, ok);
        OffElsewhere(b, Step(b, a), config, i, j.value);
      }
    case PulseTimer(j, ok) =>
      if j < |b.lines| {
        ElapseKeeps(b, config, j, ok);
        if i != j {
          OffElsewhere(b, Step(b, a), config, i, j);
        } else if b.lines[j].pulse == Waiting {
          CancelKeeps(b, config, i);
          CancelOff(b, i);
          SafeLevelNeverEnergizes(SetPulse(b, i, NoPulse), config, i, ok);
        }
      }
    case HolderDies(j) =>
      if j < |b.lines| {
        ReleaseKeeps(b, config, j);
        OffByHolder(Release(b, j), config, i);
        if i != j { OffElsewhere(b, Step(b, a), config, i, j); }
      }
    case Observation(j, raw) =>
    case SafeAll(failing) => SweepOff(b, config, i, OrderForSafeState(b.lines), failing);
    case SafeLine(target, failing) =>
      var j := Resolve(b.lines, target);
      if j.Some? { SafeOneOff(b, config, i, failing, j.value); }
    case CloseIt =>
      CloseRests(b, config);
  }

  /** Along the run, no action writes line `i`. */
  ghost predicate NeverWritten(b: Backend, actions: seq<Action>, i: nat)
    decreases |actions|
  {
    actions == [] ||
    var init := actions[..|actions| - 1];
    NeverWritten(b, init, i) && !Writes(actions[|actions| - 1], Run(b, init).lines, i)
  }

  /** A load without power gets it back only through a write to its own line, whatever fails or exits meanwhile. */
  lemma {:induction false} OnlyAWriteEnergizes(b: Backend, config: seq<Line>, actions: seq<Action>, i: nat)
    requires Inv(b, config) && i < |config| && NotEnergized(b, i) && NeverWritten(b, actions, i)
    ensures Inv(Run(b, actions), config) && NotEnergized(Run(b, actions), i)
    decreases |actions|
  {
    if actions != [] {
      var init := actions[..|actions| - 1];
      OnlyAWriteEnergizes(b, config, init, i);
      StepOff(Run(b, init), config, actions[|actions| - 1], i);
    }
  }

  /** After a pulse runs out no process gives its load power exactly when it is no hold line, or none did before. */
  lemma {:induction false} PulseEndsOff(b: Backend, config: seq<Line>, i: nat, ok: bool)
    requires Inv(b, config) && i < |config| && b.lines[i].pulse == Waiting
    ensures NotEnergized(PulseElapsed(b, i, ok), i) <==> config[i].safeLevel != Hold || NotEnergized(b, i)
    ensures PulseElapsed(b, i, ok).lines[i].pulse == NoPulse
  {
    var q := SetPulse(b, i, NoPulse);
    assert LineInv(b, config, i);
    CancelKeeps(b, config, i);
    ApplyKeeps(q, config, i, ok);
    OffByHolder(b, config, i);
    OffByHolder(q, config, i);
    OffByHolder(PulseElapsed(b, i, ok), config, i);
    assert LineInv(PulseElapsed(b, i, ok), config, i);
    if config[i].safeLevel != Hold && config[i].direction == Output && Driven(config[i].safeLevel) {
      DriveKeeps(q, config, i, SafeRaw(config[i].safeLevel), ok);
    }
  }

  /** A boolean value, a pulse that is absent or positive, and a hold that is absent or a boolean. */
  ghost predicate GoodRequest(request: WriteRequest) {
    && request.value.Value?
    && (request.pulseMs.Value? ==> request.pulseMs.value > 0.0) && !request.pulseMs.WrongType?
    && !request.hold.WrongType?
  }

  /**
   A well-formed write to an output whose tool works: held or pulsed, it puts exactly the requested logical
   value on the line, replacing the previous holder; momentary, it leaves every process alone.
   */
  lemma {:induction false} WriteDrives(b: Backend, config: seq<Line>, i: nat, request: WriteRequest)
    requires Inv(b, config) && i < |config| && config[i].direction == Output && GoodRequest(request)
    ensures var after, raw := Write(b, i, request, true).0, LogicalToRaw(request.value.value, config[i].polarity);
            if request.hold == Value(false) then
              after.processes == b.processes && after.lines[i].holder == b.lines[i].holder
              && after.lines[i].pulse == NoPulse && after.lines[i].releasedOnExit
            else
              HeldAt(after, i, raw) && (NotEnergized(after, i) <==> !request.value.value)
              && after.lines[i].pulse == (if request.pulseMs.Value? then Waiting else NoPulse)
  {
    assert LineInv(b, config, i);
    if request.hold != Value(false) {
      var raw := LogicalToRaw(request.value.value, config[i].polarity);
      CancelKeeps(b, config, i);
      var q := CancelPulse(b, i);
      assert LineInv(q, config, i);
      var start := if request.pulseMs.Value? then SetPulse(q, i, Starting) else q;
      Touch(q, config, i, q.lines[i].(pulse := Starting));
      DriveKeeps(start, config, i, raw, true);
      WriteKeeps(b, config, i, request, true);
      OffByHolder(Write(b, i, request, true).0, config, i);
      LevelsInvert(request.value.value, Raw0, config[i].polarity);
    }
  }

  /** A well-formed held or pulsed write whose tool fails leaves the line released: no process drives it. */
  lemma {:induction false} FailedWriteReleases(b: Backend, config: seq<Line>, i: nat, request: WriteRequest)
    requires Inv(b, config) && i < |config| && config[i].direction == Output && GoodRequest(request)
    requires request.hold != Value(false)
    ensures var after := Write(b, i, request, false).0; after.lines[i].holder.None? && NotEnergized(after, i)
  {
    assert LineInv(b, config, i);
    var q := CancelPulse(b, i);
    CancelKeeps(b, config, i);
    assert LineInv(q, config, i);
    var start := if request.pulseMs.Value? then SetPulse(q, i, Starting) else q;
    Touch(q, config, i, q.lines[i].(pulse := Starting));
    DriveKeeps(start, config, i, LogicalToRaw(request.value.value, config[i].polarity), false);
    WriteKeeps(b, config, i, request, false);
    OffByHolder(Write(b, i, request, false).0, config, i);
  }

  /** After close nothing is held and nothing is pending, for the rest of the run. */
  lemma {:induction false} ClosedForever(b: Backend, config: seq<Line>, actions: seq<Action>)
    requires Inv(b, config) && !b.closed
    ensures AtRest(Run(Close(b), actions)) && Inv(Run(Close(b), actions), config)
    decreases |actions|
  {
    if actions == [] {
      CloseRests(b, config);
    } else {
      ClosedForever(b, config, actions[..|actions| - 1]);
      StepKeeps(Run(Close(b), actions[..|actions| - 1]), config, actions[|actions| - 1]);
    }
  }

  /** Every declared line answers to its own offset and to its own name, spaces around it aside. */
  lemma {:induction false} LinesResolve(b: Backend, config: seq<Line>, i: nat, name: string)
    requires Inv(b, config) && i < |config|
    ensures Resolve(b.lines, ByOffset(config[i].offset)) == Some(i)
    ensures Resolve(b.lines, ByName(name)) == Some(i) <==> Lines.Trim(name) == config[i].name
  {
    forall j | 0 <= j < |config| ensures b.lines[j].config == config[j] { assert LineInv(b, config, j); }
    var byOffset := Resolve(b.lines, ByOffset(config[i].offset));
    assert Matches(b.lines[i].config, ByOffset(config[i].offset));
    var byName := Resolve(b.lines, ByName(name));
    if Lines.Trim(name) == config[i].name { assert Matches(b.lines[i].config, ByName(name)); }
  }
}
