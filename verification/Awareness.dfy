/**
 The awareness registry: one record per device ever seen, a table of legal state moves,
 staleness, and the event log that every change leaves behind.
 */
module Awareness {
  import opened Prelude

  datatype Presence = Seen | Identified | PendingEnroll | Online | Stale | Offline

  /** The table of legal moves. */
  function Moves(from: Presence): set<Presence> {
    match from
    case Seen => {Identified, PendingEnroll, Stale, Offline}
    case Identified => {PendingEnroll, Online, Stale, Offline, Seen}
    case PendingEnroll => {Online, Identified, Stale, Offline}
    case Online => {Stale, Offline, PendingEnroll}
    case Stale => {Online, PendingEnroll, Identified, Seen, Offline}
    case Offline => {Seen, Identified, PendingEnroll, Online, Stale}
  }

  predicate CanTransition(from: Presence, to: Presence) {
    from == to || to in Moves(from)
  }

  /** A legal multi-hop path between two states; None where the source throws. */
  function TransitionPath(from: Presence, to: Presence): Option<seq<Presence>> {
    if from == to then Some([])
    else if CanTransition(from, to) then Some([to])
    else if from == Seen && to == PendingEnroll then Some([Identified, PendingEnroll])
    else if from == Seen && to == Online then Some([Identified, PendingEnroll, Online])
    else if from == Identified && to == Online then Some([PendingEnroll, Online])
    else if (from == Stale || from == Offline) && to == PendingEnroll then
      Some(if CanTransition(from, PendingEnroll) then [PendingEnroll] else [Identified, PendingEnroll])
    else if (from == Stale || from == Offline) && to == Online then Some([Online])
    else if (from == Stale || from == Offline) && to == Identified then Some([Identified])
    else if (from == Stale || from == Offline) && to == Seen then Some([Seen])
    else if from == PendingEnroll && to == Seen then Some([Identified, Seen])
    else None
  }

  /** What identifies a device; only present, non-empty fields matter to presence. */
  datatype IdentityField = Vid | Pid | Firmware | AdvertisedName | GuessedModule | Uuids | OtherField
  type Identity = map<IdentityField, string>

  predicate HasIdentitySignal(identity: Identity) {
    exists f :: f in identity && f != OtherField && identity[f] != ""
  }

  predicate IsKnownModule(identity: Identity) {
    GuessedModule in identity &&
    var m := identity[GuessedModule];
    m != "" && !("unknown/" <= m) && m != "unknown"
  }

  function PresenceForObservation(enrolled: bool, identity: Identity): Presence {
    if enrolled then Online
    else if IsKnownModule(identity) then PendingEnroll
    else if HasIdentitySignal(identity) then Identified
    else Seen
  }

  datatype Record = Record(state: Presence, firstSeen: int, lastSeen: int, identity: Identity, mock: bool)

  datatype EventKind = SeenEvent | IdentifiedEvent | StateChanged | OnlineEvent | OfflineEvent
  datatype LogEntry = LogEntry(kind: EventKind, id: string, state: Presence, previous: Option<Presence>)

  datatype Staleness = Staleness(staleAfter: int, offlineAfter: int)

  function EvaluateStaleness(r: Record, now: int, config: Staleness): Option<Presence> {
    var age := now - r.lastSeen;
    if r.state == Offline then None
    else if age >= config.offlineAfter && CanTransition(r.state, Offline) then Some(Offline)
    else if age >= config.staleAfter && r.state != Stale && CanTransition(r.state, Stale) then Some(Stale)
    else None
  }

  /** The records, the order their ids were first stored in, and the events emitted so far. */
  datatype Registry = Registry(records: map<string, Record>, order: seq<string>, log: seq<LogEntry>)

  function Store(g: Registry, id: string, r: Record): Registry {
    g.(records := g.records[id := r], order := if id in g.records then g.order else g.order + [id])
  }

  function Emit(g: Registry, kind: EventKind, id: string, state: Presence, previous: Option<Presence>): Registry {
    g.(log := g.log + [LogEntry(kind, id, state, previous)])
  }

  // ---- The operations on values ----

  predicate NewlyIdentified(before: Presence, step: Presence) {
    (step == Identified || step == PendingEnroll) && (before == Seen || before == Offline || before == Stale)
  }

  /** One hop of an observed device's path. */
  function Hop(g: Registry, id: string, r: Record, step: Presence): Registry {
    var before := r.state;
    var g1 := Store(g, id, r.(state := step));
    var g2 := if NewlyIdentified(before, step) then Emit(g1, IdentifiedEvent, id, step, Some(before)) else g1;
    var g3 := Emit(g2, StateChanged, id, step, Some(before));
    if step == Online then Emit(g3, OnlineEvent, id, step, Some(before)) else g3
  }

  function Walk(g: Registry, id: string, r: Record, path: seq<Presence>): Registry {
    if path == [] then g
    else
      var before := Walk(g, id, r, path[..|path| - 1]);
      Hop(before, id, r.(state := StateAfter(r.state, path[..|path| - 1])), path[|path| - 1])
  }

  function StateAfter(from: Presence, path: seq<Presence>): Presence {
    if path == [] then from else path[|path| - 1]
  }

  datatype Result = Done(state: Presence) | Failed

  function ApplyObservation(g: Registry, id: string, r: Record, next: Presence): (Registry, Result) {
    if r.state == next then (Store(g, id, r), Done(next))
    else
      var path := TransitionPath(r.state, next);
      if path.None? then (g, Failed)
      else (Walk(g, id, r, path.value), Done(next))
  }

  /** The record an observation starts from: a new one, or the stored one brought up to date. */
  function Observed(g: Registry, id: string, identity: Identity, mock: bool, now: int): Record {
    if id !in g.records then Record(Seen, now, now, identity, mock)
    else
      var existing := g.records[id];
      existing.(lastSeen := now, identity := existing.identity + identity, mock := mock || existing.mock)
  }

  /** It is stored first, and announced if it is new. */
  function Arrived(g: Registry, id: string, r: Record): Registry {
    var stored := Store(g, id, r);
    if id in g.records then stored else Emit(stored, SeenEvent, id, Seen, None)
  }

  function Observe(g: Registry, id: string, identity: Identity, mock: bool, enrolled: bool, now: int)
    : (Registry, Result)
  {
    var r := Observed(g, id, identity, mock, now);
    ApplyObservation(Arrived(g, id, r), id, r, PresenceForObservation(enrolled, identity))
  }

  /** The module an approval names replaces the guessed one. */
  function NamedModule(identity: Identity, moduleId: Option<string>): Identity {
    if moduleId.Some? && moduleId.value != "" then identity[GuessedModule := moduleId.value] else identity
  }

  function MarkEnrolled(g: Registry, id: string, moduleId: Option<string>, now: int): (Registry, Result) {
    if id !in g.records || (g.records[id].state != PendingEnroll && g.records[id].state != Identified) then (g, Failed)
    else
      var r0 := g.records[id];
      var seen := r0.(lastSeen := now);
      var pending := seen.(state := PendingEnroll);
      var g1 := if r0.state == Identified
                then Emit(Store(g, id, pending), StateChanged, id, PendingEnroll, Some(Identified)) else g;
      var identity := NamedModule(seen.identity, moduleId);
      var g2 := Store(g1, id, seen.(state := Online, identity := identity));
      var g3 := Emit(g2, StateChanged, id, Online, Some(PendingEnroll));
      (Emit(g3, OnlineEvent, id, Online, Some(PendingEnroll)), Done(Online))
  }

  function TickOne(g: Registry, id: string, now: int, config: Staleness): Registry {
    if id !in g.records then g
    else
      var r := g.records[id];
      var next := EvaluateStaleness(r, now, config);
      if next.None? || next.value == r.state then g
      else
        var g1 := Store(g, id, r.(state := next.value));
        var g2 := Emit(g1, StateChanged, id, next.value, Some(r.state));
        if next.value == Offline then Emit(g2, OfflineEvent, id, Offline, Some(r.state)) else g2
  }

  function TickAll(g: Registry, ids: seq<string>, now: int, config: Staleness): Registry {
    if ids == [] then g
    else TickOne(TickAll(g, ids[..|ids| - 1], now, config), ids[|ids| - 1], now, config)
  }

  function Tick(g: Registry, now: int, config: Staleness): Registry {
    TickAll(g, g.order, now, config)
  }

  function UpsertMock(g: Registry, id: string, r: Record): Registry {
    var full := r.(mock := true);
    var g1 := Store(g, id, full);
    var s := full.state;
    if id !in g.records then
      var g2 := Emit(g1, SeenEvent, id, s, None);
      var known := s == Identified || s == PendingEnroll || s == Online;
      var g3 := if known then Emit(g2, IdentifiedEvent, id, s, Some(Seen)) else g2;
      var g4 := if s == Online then Emit(g3, OnlineEvent, id, s, Some(Seen)) else g3;
      if s != Seen then Emit(g4, StateChanged, id, s, Some(Seen)) else g4
    else if g.records[id].state != s then Emit(g1, StateChanged, id, s, Some(g.records[id].state))
    else g1
  }

  // ---- The registry object ----

  class AwarenessRegistry {
    var records: map<string, Record>
    var order: seq<string>
    var log: seq<LogEntry>
    const staleness: Staleness

    function View(): Registry
      reads this
    {
      Registry(records, order, log)
    }

    constructor (staleness: Staleness)
      ensures this.staleness == staleness && View() == Registry(map[], [], [])
    {
      this.staleness := staleness;
      records, order, log := map[], [], [];
    }

    method SetRecord(id: string, r: Record)
      modifies this`records, this`order
      ensures View() == Store(old(View()), id, r)
    {
      if id !in records {
        order := order + [id];
      }
      records := records[id := r];
    }

    method EmitEvent(kind: EventKind, id: string, state: Presence, previous: Option<Presence>)
      modifies this`log
      ensures View() == Emit(old(View()), kind, id, state, previous)
    {
      log := log + [LogEntry(kind, id, state, previous)];
    }

    method TakeHop(id: string, r: Record, step: Presence)
      modifies this
      ensures View() == Hop(old(View()), id, r, step)
    {
      var before := r.state;
      SetRecord(id, r.(state := step));
      if (step == Identified || step == PendingEnroll) && (before == Seen || before == Offline || before == Stale) {
        EmitEvent(IdentifiedEvent, id, step, Some(before));
      }
      EmitEvent(StateChanged, id, step, Some(before));
      if step == Online {
        EmitEvent(OnlineEvent, id, step, Some(before));
      }
    }

    method ApplyObservationState(id: string, r: Record, next: Presence) returns (result: Result)
      modifies this
      ensures (View(), result) == ApplyObservation(old(View()), id, r, next)
    {
      if r.state == next {
        SetRecord(id, r);
        return Done(next);
      }
      var path := TransitionPath(r.state, next);
      if path.None? { return Failed; }
      var current := r;
      for i := 0 to |path.value|
        invariant View() == Walk(old(View()), id, r, path.value[..i])
        invariant current == r.(state := StateAfter(r.state, path.value[..i]))
      {
        var step := path.value[i];
        ghost var sofar := path.value[..i + 1];
        assert sofar[..|sofar| - 1] == path.value[..i];
        TakeHop(id, current, step);
        current := current.(state := step);
      }
      assert path.value[..|path.value|] == path.value;
      result := Done(next);
    }

    method ObserveCandidate(id: string, identity: Identity, mock: bool, enrolled: bool, now: int)
      returns (result: Result)
      modifies this
      ensures (View(), result) == Observe(old(View()), id, identity, mock, enrolled, now)
    {
      var next := PresenceForObservation(enrolled, identity);
      if id !in records {
        var r := Record(Seen, now, now, identity, mock);
        SetRecord(id, r);
        EmitEvent(SeenEvent, id, Seen, None);
        result := ApplyObservationState(id, r, next);
      } else {
        var existing := records[id];
        var r := existing.(lastSeen := now, identity := existing.identity + identity, mock := mock || existing.mock);
        SetRecord(id, r);
        result := ApplyObservationState(id, r, next);
      }
    }

    method Enroll(id: string, moduleId: Option<string>, now: int) returns (result: Result)
      modifies this
      ensures (View(), result) == MarkEnrolled(old(View()), id, moduleId, now)
    {
      if id !in records { return Failed; }
      var current := records[id];
      if current.state != PendingEnroll && current.state != Identified { return Failed; }
      current := current.(lastSeen := now);
      if current.state == Identified {
        current := current.(state := PendingEnroll);
        SetRecord(id, current);
        EmitEvent(StateChanged, id, PendingEnroll, Some(Identified));
      }
      if moduleId.Some? && moduleId.value != "" {
        current := current.(identity := current.identity[GuessedModule := moduleId.value]);
      }
      current := current.(state := Online);
      SetRecord(id, current);
      EmitEvent(StateChanged, id, Online, Some(PendingEnroll));
      EmitEvent(OnlineEvent, id, Online, Some(PendingEnroll));
      result := Done(Online);
    }

    method Sweep(now: int)
      modifies this
      ensures View() == Tick(old(View()), now, staleness)
    {
      var ids := order;
      for i := 0 to |ids|
        invariant View() == TickAll(old(View()), ids[..i], now, staleness)
      {
        var id := ids[i];
        assert ids[..i + 1][..i] == ids[..i];
        if id in records {
          var r := records[id];
          var next := EvaluateStaleness(r, now, staleness);
          if next.Some? && next.value != r.state {
            SetRecord(id, r.(state := next.value));
            EmitEvent(StateChanged, id, next.value, Some(r.state));
            if next.value == Offline {
              EmitEvent(OfflineEvent, id, Offline, Some(r.state));
            }
          }
        }
      }
      assert ids[..|ids|] == ids;
    }

    method InjectMock(id: string, r: Record)
      modifies this
      ensures View() == UpsertMock(old(View()), id, r)
    {
      var full := r.(mock := true);
      var existing := if id in records then Some(records[id].state) else None;
      SetRecord(id, full);
      if existing.None? {
        EmitEvent(SeenEvent, id, full.state, None);
        if full.state == Identified || full.state == PendingEnroll || full.state == Online {
          EmitEvent(IdentifiedEvent, id, full.state, Some(Seen));
        }
        if full.state == Online {
          EmitEvent(OnlineEvent, id, full.state, Some(Seen));
        }
        if full.state != Seen {
          EmitEvent(StateChanged, id, full.state, Some(Seen));
        }
      } else if existing.value != full.state {
        EmitEvent(StateChanged, id, full.state, Some(existing.value));
      }
    }
  }

  // ---- Paths ----

  /** Every hop of the path is in the table. */
  predicate LegalPath(from: Presence, path: seq<Presence>)
    decreases |path|
  {
    path == [] ||
    var init := path[..|path| - 1];
    LegalPath(from, init) && path[|path| - 1] in Moves(StateAfter(from, init))
  }

  lemma {:induction false} LegalHops(from: Presence, a: Presence, b: Presence, c: Presence)
    ensures LegalPath(from, [a]) <==> a in Moves(from)
    ensures LegalPath(from, [a, b]) <==> a in Moves(from) && b in Moves(a)
    ensures LegalPath(from, [a, b, c]) <==> a in Moves(from) && b in Moves(a) && c in Moves(b)
  {
    assert [a][..0] == [];
    assert [a, b][..1] == [a];
    assert [a, b, c][..2] == [a, b];
  }

  /**
   The path search fails exactly from online to seen or identified, which a device that
   is no longer enrolled asks for; every path it finds is legal and arrives.
   */
  lemma {:induction false} PathExistsExactly(from: Presence, to: Presence)
    ensures TransitionPath(from, to).None? <==> from == Online && to in {Seen, Identified}
    ensures TransitionPath(from, to).Some? ==>
            LegalPath(from, TransitionPath(from, to).value) && StateAfter(from, TransitionPath(from, to).value) == to
  {
    LegalHops(from, to, to, to);
    LegalHops(from, Identified, PendingEnroll, Online);
    LegalHops(from, PendingEnroll, Online, Online);
    LegalHops(from, Identified, Seen, Seen);
  }

  // ---- The log against the state ----

  /** What the events say the state of `id` is, starting from `start`; None once the chain breaks. */
  function Replay(log: seq<LogEntry>, id: string, start: Presence): Option<Presence> {
    if log == [] then Some(start)
    else
      var e := log[|log| - 1];
      var before := Replay(log[..|log| - 1], id, start);
      if e.kind != StateChanged || e.id != id then before
      else if before.None? || e.previous != before then None
      else Some(e.state)
  }

  /** A device starts out as seen, unless it was loaded from the store file. */
  function StartState(loaded: map<string, Record>, id: string): Presence {
    if id in loaded then loaded[id].state else Seen
  }

  /** For every record the events chain from its start to the stored state; other ids have no events. */
  ghost predicate LogAgrees(g: Registry, loaded: map<string, Record>) {
    && loaded.Keys <= g.records.Keys
    && (forall id :: id in g.records ==> Replay(g.log, id, StartState(loaded, id)) == Some(g.records[id].state))
    && (forall id :: id !in g.records ==> Replay(g.log, id, Seen) == Some(Seen))
    && OrderAgrees(g)
  }

  ghost predicate OrderAgrees(g: Registry) {
    && (forall id :: id in g.order <==> id in g.records)
    && (forall i, j :: 0 <= i < j < |g.order| ==> g.order[i] != g.order[j])
  }

  lemma {:induction false} ReplayEmit(g: Registry, kind: EventKind, id: string, state: Presence,
                                      previous: Option<Presence>, other: string, start: Presence)
    ensures Replay(Emit(g, kind, id, state, previous).log, other, start) ==
            if kind != StateChanged || other != id then Replay(g.log, other, start)
            else if Replay(g.log, other, start).None? || previous != Replay(g.log, other, start) then None
            else Some(state)
  {
    var log := Emit(g, kind, id, state, previous).log;
    assert log[..|log| - 1] == g.log;
  }

  /** The log agrees for all ids, where `id` is held to be in state `s`, whatever its record says. */
  ghost predicate AgreesWith(g: Registry, loaded: map<string, Record>, id: string, s: Presence) {
    && loaded.Keys <= g.records.Keys && id in g.records && OrderAgrees(g)
    && (forall x :: x in g.records && x != id ==> Replay(g.log, x, StartState(loaded, x)) == Some(g.records[x].state))
    && (forall x :: x !in g.records ==> Replay(g.log, x, Seen) == Some(Seen))
    && Replay(g.log, id, StartState(loaded, id)) == Some(s)
  }

  lemma {:induction false} StoreAgrees(g: Registry, loaded: map<string, Record>, id: string, r: Record)
    requires LogAgrees(g, loaded)
    ensures AgreesWith(Store(g, id, r), loaded, id, if id in g.records then g.records[id].state else Seen)
  {
  }

  lemma {:induction false} StoreAgain(g: Registry, loaded: map<string, Record>, id: string, r: Record, s: Presence)
    requires AgreesWith(g, loaded, id, s)
    ensures AgreesWith(Store(g, id, r), loaded, id, s)
  {
  }

  lemma {:induction false} EmitAgrees(g: Registry, loaded: map<string, Record>, kind: EventKind, id: string,
                                      state: Presence, previous: Option<Presence>, s: Presence)
    requires AgreesWith(g, loaded, id, s) && (kind == StateChanged ==> previous == Some(s))
    ensures AgreesWith(Emit(g, kind, id, state, previous), loaded, id, if kind == StateChanged then state else s)
  {
    forall x, start ensures Replay(Emit(g, kind, id, state, previous).log, x, start) ==
                            (if kind != StateChanged || x != id then Replay(g.log, x, start)
                             else if Replay(g.log, x, start).None? || previous != Replay(g.log, x, start) then None
                             else Some(state))
    {
      ReplayEmit(g, kind, id, state, previous, x, start);
    }
  }

  lemma {:induction false} HopAgrees(g: Registry, loaded: map<string, Record>, id: string, r: Record, step: Presence)
    requires AgreesWith(g, loaded, id, r.state)
    ensures AgreesWith(Hop(g, id, r, step), loaded, id, step)
    ensures Hop(g, id, r, step).records[id] == r.(state := step)
  {
    var before := r.state;
    var g1 := Store(g, id, r.(state := step));
    StoreAgain(g, loaded, id, r.(state := step), before);
    EmitAgrees(g1, loaded, IdentifiedEvent, id, step, Some(before), before);
    var g2 := if NewlyIdentified(before, step) then Emit(g1, IdentifiedEvent, id, step, Some(before)) else g1;
    HopEnds(g2, loaded, id, before, step);
  }

  lemma {:induction false} HopEnds(g: Registry, loaded: map<string, Record>, id: string, before: Presence,
                                   step: Presence)
    requires AgreesWith(g, loaded, id, before)
    ensures var moved := Emit(g, StateChanged, id, step, Some(before));
            AgreesWith(if step == Online then Emit(moved, OnlineEvent, id, step, Some(before)) else moved, loaded, id,
                       step)
  {
    EmitAgrees(g, loaded, StateChanged, id, step, Some(before), before);
    EmitAgrees(Emit(g, StateChanged, id, step, Some(before)), loaded, OnlineEvent, id, step, Some(before), step);
  }

  lemma {:induction false} WalkAgrees(g: Registry, loaded: map<string, Record>, id: string, r: Record,
                                      path: seq<Presence>)
    requires AgreesWith(g, loaded, id, r.state) && g.records[id] == r
    ensures AgreesWith(Walk(g, id, r, path), loaded, id, StateAfter(r.state, path))
    ensures Walk(g, id, r, path).records[id] == r.(state := StateAfter(r.state, path))
    decreases |path|
  {
    if path != [] {
      var init := path[..|path| - 1];
      WalkAgrees(g, loaded, id, r, init);
      HopAgrees(Walk(g, id, r, init), loaded, id, r.(state := StateAfter(r.state, init)), path[|path| - 1]);
    }
  }

  lemma {:induction false} ApplyAgrees(g: Registry, loaded: map<string, Record>, id: string, r: Record, next: Presence)
    requires AgreesWith(g, loaded, id, r.state) && g.records[id] == r
    ensures LogAgrees(ApplyObservation(g, id, r, next).0, loaded)
  {
    if r.state == next {
      StoreAgain(g, loaded, id, r, next);
    } else {
      var path := TransitionPath(r.state, next);
      PathExistsExactly(r.state, next);
      if path.Some? { WalkAgrees(g, loaded, id, r, path.value); }
    }
  }

  lemma {:induction false} ObserveAgrees(g: Registry, loaded: map<string, Record>, id: string, identity: Identity,
                                         mock: bool, enrolled: bool, now: int)
    requires LogAgrees(g, loaded)
    ensures LogAgrees(Observe(g, id, identity, mock, enrolled, now).0, loaded)
  {
    var r := Observed(g, id, identity, mock, now);
    StoreAgrees(g, loaded, id, r);
    if id !in g.records { EmitAgrees(Store(g, id, r), loaded, SeenEvent, id, Seen, None, Seen); }
    ApplyAgrees(Arrived(g, id, r), loaded, id, r, PresenceForObservation(enrolled, identity));
  }

  lemma {:induction false} EnrollAgrees(g: Registry, loaded: map<string, Record>, id: string,
                                        moduleId: Option<string>, now: int)
    requires LogAgrees(g, loaded)
    ensures LogAgrees(MarkEnrolled(g, id, moduleId, now).0, loaded)
  {
    if MarkEnrolled(g, id, moduleId, now).1.Done? {
      var r0 := g.records[id];
      var seen := r0.(lastSeen := now);
      var pending := seen.(state := PendingEnroll);
      StoreAgrees(g, loaded, id, pending);
      EmitAgrees(Store(g, id, pending), loaded, StateChanged, id, PendingEnroll, Some(r0.state), r0.state);
      var g1 := if r0.state == Identified
                then Emit(Store(g, id, pending), StateChanged, id, PendingEnroll, Some(Identified)) else g;
      var identity := NamedModule(seen.identity, moduleId);
      var g2 := Store(g1, id, seen.(state := Online, identity := identity));
      StoreAgain(g1, loaded, id, seen.(state := Online, identity := identity), PendingEnroll);
      EmitAgrees(g2, loaded, StateChanged, id, Online, Some(PendingEnroll), PendingEnroll);
      EmitAgrees(Emit(g2, StateChanged, id, Online, Some(PendingEnroll)), loaded, OnlineEvent, id, Online,
                 Some(PendingEnroll), Online);
    }
  }

  lemma {:induction false} TickOneAgrees(g: Registry, loaded: map<string, Record>, id: string, now: int,
                                         config: Staleness)
    requires LogAgrees(g, loaded)
    ensures LogAgrees(TickOne(g, id, now, config), loaded)
  {
    if id in g.records && EvaluateStaleness(g.records[id], now, config).Some? {
      var r := g.records[id];
      var next := EvaluateStaleness(r, now, config).value;
      var g1 := Store(g, id, r.(state := next));
      StoreAgrees(g, loaded, id, r.(state := next));
      EmitAgrees(g1, loaded, StateChanged, id, next, Some(r.state), r.state);
      EmitAgrees(Emit(g1, StateChanged, id, next, Some(r.state)), loaded, OfflineEvent, id, Offline, Some(r.state),
                 next);
    }
  }

  lemma {:induction false} TickAllAgrees(g: Registry, loaded: map<string, Record>, ids: seq<string>, now: int,
                                         config: Staleness)
    requires LogAgrees(g, loaded)
    ensures LogAgrees(TickAll(g, ids, now, config), loaded)
    decreases |ids|
  {
    if ids != [] {
      TickAllAgrees(g, loaded, ids[..|ids| - 1], now, config);
      TickOneAgrees(TickAll(g, ids[..|ids| - 1], now, config), loaded, ids[|ids| - 1], now, config);
    }
  }

  lemma {:induction false} MockAgrees(g: Registry, loaded: map<string, Record>, id: string, r: Record)
    requires LogAgrees(g, loaded)
    ensures LogAgrees(UpsertMock(g, id, r), loaded)
  {
    var full := r.(mock := true);
    var s := full.state;
    var g1 := Store(g, id, full);
    StoreAgrees(g, loaded, id, full);
    if id !in g.records {
      var g2 := Emit(g1, SeenEvent, id, s, None);
      EmitAgrees(g1, loaded, SeenEvent, id, s, None, Seen);
      EmitAgrees(g2, loaded, IdentifiedEvent, id, s, Some(Seen), Seen);
      var known := s == Identified || s == PendingEnroll || s == Online;
      var g3 := if known then Emit(g2, IdentifiedEvent, id, s, Some(Seen)) else g2;
      EmitAgrees(g3, loaded, OnlineEvent, id, s, Some(Seen), Seen);
      var g4 := if s == Online then Emit(g3, OnlineEvent, id, s, Some(Seen)) else g3;
      EmitAgrees(g4, loaded, StateChanged, id, s, Some(Seen), Seen);
    } else {
      EmitAgrees(g1, loaded, StateChanged, id, s, Some(g.records[id].state), g.records[id].state);
    }
  }

  // ---- Runs ----

  datatype Action =
    | ObserveIt(id: string, identity: Identity, mock: bool, enrolled: bool, now: int)
    | EnrollIt(id: string, moduleId: Option<string>, now: int)
    | TickIt(now: int)
    | MockIt(id: string, record: Record)

  function Step(g: Registry, a: Action, config: Staleness): Registry {
    match a
    case ObserveIt(id, identity, mock, enrolled, now) => Observe(g, id, identity, mock, enrolled, now).0
    case EnrollIt(id, moduleId, now) => MarkEnrolled(g, id, moduleId, now).0
    case TickIt(now) => Tick(g, now, config)
    case MockIt(id, record) => UpsertMock(g, id, record)
  }

  function Run(g: Registry, actions: seq<Action>, config: Staleness): Registry {
    if actions == [] then g else Step(Run(g, actions[..|actions| - 1], config), actions[|actions| - 1], config)
  }

  lemma {:induction false} StepAgrees(g: Registry, a: Action, config: Staleness, loaded: map<string, Record>)
    requires LogAgrees(g, loaded)
    ensures LogAgrees(Step(g, a, config), loaded)
  {
    if a.ObserveIt? {
      ObserveAgrees(g, loaded, a.id, a.identity, a.mock, a.enrolled, a.now);
    } else if a.EnrollIt? {
      EnrollAgrees(g, loaded, a.id, a.moduleId, a.now);
    } else if a.TickIt? {
      TickAllAgrees(g, loaded, g.order, a.now, config);
    } else {
      MockAgrees(g, loaded, a.id, a.record);
    }
  }

  /**
   Over every run, each device's state_changed events form an unbroken chain from its
   start to the state stored for it.
   */
  lemma {:induction false} LogDeterminesState(loaded: map<string, Record>, order: seq<string>, actions: seq<Action>,
                                              config: Staleness)
    requires OrderAgrees(Registry(loaded, order, []))
    ensures LogAgrees(Run(Registry(loaded, order, []), actions, config), loaded)
    decreases |actions|
  {
    if actions != [] {
      var init := actions[..|actions| - 1];
      LogDeterminesState(loaded, order, init, config);
      StepAgrees(Run(Registry(loaded, order, []), init, config), actions[|actions| - 1], config, loaded);
    }
  }

  // ---- Every logged move is legal ----

  predicate LegalEntry(e: LogEntry) {
    e.kind == StateChanged ==> e.previous.Some? && e.state in Moves(e.previous.value)
  }

  ghost predicate LegalSince(log: seq<LogEntry>, from: nat) {
    forall i :: from <= i < |log| ==> LegalEntry(log[i])
  }

  lemma {:induction false} WalkLegal(g: Registry, id: string, r: Record, path: seq<Presence>, from: nat)
    requires LegalSince(g.log, from) && LegalPath(r.state, path)
    ensures LegalSince(Walk(g, id, r, path).log, from)
    decreases |path|
  {
    if path != [] {
      var init := path[..|path| - 1];
      WalkLegal(g, id, r, init, from);
    }
  }

  lemma {:induction false} TickLegal(g: Registry, ids: seq<string>, now: int, config: Staleness, from: nat)
    requires LegalSince(g.log, from)
    ensures LegalSince(TickAll(g, ids, now, config).log, from)
    decreases |ids|
  {
    if ids != [] { TickLegal(g, ids[..|ids| - 1], now, config, from); }
  }

  lemma {:induction false} ApplyLegal(g: Registry, id: string, r: Record, next: Presence, from: nat)
    requires LegalSince(g.log, from)
    ensures LegalSince(ApplyObservation(g, id, r, next).0.log, from)
  {
    PathExistsExactly(r.state, next);
    if r.state != next && TransitionPath(r.state, next).Some? {
      WalkLegal(g, id, r, TransitionPath(r.state, next).value, from);
    }
  }

  /** Apart from injected mocks, every move an operation logs is in the table. */
  lemma {:induction false} StepMovesLegally(g: Registry, a: Action, config: Staleness)
    requires !a.MockIt?
    ensures LegalSince(Step(g, a, config).log, |g.log|)
  {
    match a
    case ObserveIt(id, identity, mock, enrolled, now) =>
      var r := Observed(g, id, identity, mock, now);
      ApplyLegal(Arrived(g, id, r), id, r, PresenceForObservation(enrolled, identity), |g.log|);
    case EnrollIt(id, moduleId, now) =>
    case TickIt(now) => TickLegal(g, g.order, now, config, |g.log|);
  }

  // ---- Who can bring a device online ----

  ghost predicate IsOnline(g: Registry, id: string) {
    id in g.records && g.records[id].state == Online
  }

  lemma {:induction false} WalkOthers(g: Registry, id: string, r: Record, path: seq<Presence>, other: string)
    requires other != id && id in g.records
    ensures other in Walk(g, id, r, path).records <==> other in g.records
    ensures other in g.records ==> Walk(g, id, r, path).records[other] == g.records[other]
    ensures id in Walk(g, id, r, path).records
    decreases |path|
  {
    if path != [] { WalkOthers(g, id, r, path[..|path| - 1], other); }
  }

  lemma {:induction false} TickOnline(g: Registry, ids: seq<string>, now: int, config: Staleness, id: string)
    requires !IsOnline(g, id)
    ensures !IsOnline(TickAll(g, ids, now, config), id)
    decreases |ids|
  {
    if ids != [] { TickOnline(g, ids[..|ids| - 1], now, config, id); }
  }

  predicate Approves(a: Action, id: string) {
    match a
    case ObserveIt(x, _, _, enrolled, _) => x == id && enrolled
    case EnrollIt(x, _, _) => x == id
    case TickIt(_) => false
    case MockIt(x, record) => x == id && record.state == Online
  }

  lemma {:induction false} ApplyOthers(g: Registry, x: string, r: Record, next: Presence, id: string)
    requires id != x && x in g.records
    ensures IsOnline(ApplyObservation(g, x, r, next).0, id) <==> IsOnline(g, id)
  {
    if r.state != next && TransitionPath(r.state, next).Some? {
      WalkOthers(g, x, r, TransitionPath(r.state, next).value, id);
    }
  }

  lemma {:induction false} WalkSelf(g: Registry, id: string, r: Record, path: seq<Presence>)
    requires path != []
    ensures id in Walk(g, id, r, path).records
    ensures Walk(g, id, r, path).records[id] == r.(state := StateAfter(r.state, path))
  {
  }

  /** Applying an observation to a stored record ends in the state asked for, or changes nothing. */
  lemma {:induction false} ApplySelf(g: Registry, id: string, r: Record, next: Presence)
    requires id in g.records && g.records[id] == r
    ensures var (after, result) := ApplyObservation(g, id, r, next);
            id in after.records && after.records[id] == r.(state := if result.Done? then next else r.state)
    ensures ApplyObservation(g, id, r, next).1.Failed? ==> ApplyObservation(g, id, r, next).0 == g
  {
    var path := TransitionPath(r.state, next);
    PathExistsExactly(r.state, next);
    if r.state != next && path.Some? { WalkSelf(g, id, r, path.value); }
  }

  lemma {:induction false} ObserveOnline(g: Registry, x: string, identity: Identity, mock: bool, enrolled: bool,
                                         now: int, id: string)
    requires !IsOnline(g, id) && IsOnline(Observe(g, x, identity, mock, enrolled, now).0, id)
    ensures x == id && enrolled
  {
    var next := PresenceForObservation(enrolled, identity);
    var r := Observed(g, x, identity, mock, now);
    var stored := Arrived(g, x, r);
    ApplySelf(stored, x, r, next);
    if x != id { ApplyOthers(stored, x, r, next, id); }
  }

  /** A device comes online only by enrolling it, by observing it enrolled, or as a mock. */
  lemma {:induction false} OnlineNeedsApproval(g: Registry, a: Action, config: Staleness, id: string)
    requires !IsOnline(g, id) && IsOnline(Step(g, a, config), id)
    ensures Approves(a, id)
  {
    match a
    case ObserveIt(x, identity, mock, enrolled, now) => ObserveOnline(g, x, identity, mock, enrolled, now, id);
    case EnrollIt(x, moduleId, now) =>
    case TickIt(now) => TickOnline(g, g.order, now, config, id);
    case MockIt(x, record) =>
  }

  /**
   Discovery alone never enrolls: from any registry, loaded records included, in which a
   device is not online, a run without an approving action never brings it online.
   */
  lemma {:induction false} NeverAutoEnrolled(g: Registry, actions: seq<Action>, config: Staleness, id: string)
    requires !IsOnline(g, id) && forall i :: 0 <= i < |actions| ==> !Approves(actions[i], id)
    ensures !IsOnline(Run(g, actions, config), id)
    decreases |actions|
  {
    if actions != [] {
      var init := actions[..|actions| - 1];
      NeverAutoEnrolled(g, init, config, id);
      if IsOnline(Run(g, actions, config), id) {
        OnlineNeedsApproval(Run(g, init, config), actions[|actions| - 1], config, id);
      }
    }
  }

  // ---- When observing throws ----

  /**
   An observation throws exactly when it finds a device online that is no longer enrolled and
   whose module it does not know; the record is then already stored, online as it was.
   */
  lemma {:induction false} ObserveThrowsExactly(g: Registry, id: string, identity: Identity, mock: bool,
                                                enrolled: bool, now: int)
    ensures Observe(g, id, identity, mock, enrolled, now).1.Failed? <==>
            id in g.records && g.records[id].state == Online && !enrolled && !IsKnownModule(identity)
    ensures Observe(g, id, identity, mock, enrolled, now).1.Failed? ==>
              var after := Observe(g, id, identity, mock, enrolled, now).0;
              after.log == g.log && id in after.records && after.records[id] == Observed(g, id, identity, mock, now)
  {
    PathExistsExactly(Observed(g, id, identity, mock, now).state, PresenceForObservation(enrolled, identity));
  }

  lemma {:induction false} RunTwo(g: Registry, a: Action, b: Action, config: Staleness)
    ensures Run(g, [a, b], config) == Step(Step(g, a, config), b, config)
  {
    assert [a, b][..1] == [a];
    var one := [a];
    assert one[..0] == [] && Run(g, one, config) == Step(Run(g, one[..0], config), a, config);
  }

  /** It is reached: a device seen, enrolled, and seen again after its enrolment was withdrawn. */
  lemma {:induction false} WithdrawnEnrolmentThrows(config: Staleness, now: int)
    ensures var identity := map[Vid := "303a"];
            var g := Run(Registry(map[], [], []),
                         [ObserveIt("d", identity, false, false, now), EnrollIt("d", None, now)], config);
            Observe(g, "d", identity, false, false, now).1.Failed?
  {
    var identity: Identity := map[Vid := "303a"];
    var seen, enrolled := ObserveIt("d", identity, false, false, now), EnrollIt("d", None, now);
    var g0 := Registry(map[], [], []);
    assert identity[Vid] != "" && HasIdentitySignal(identity);
    RunTwo(g0, seen, enrolled, config);
    var r := Observed(g0, "d", identity, false, now);
    var g1 := Step(g0, seen, config);
    assert PresenceForObservation(false, identity) == Identified;
    ApplySelf(Arrived(g0, "d", r), "d", r, Identified);
    ObserveThrowsExactly(g0, "d", identity, false, false, now);
    assert g1.records["d"].state == Identified;
    var g2 := Run(g0, [seen, enrolled], config);
    assert g2.records["d"].state == Online;
    ObserveThrowsExactly(g2, "d", identity, false, false, now);
  }

  // ---- Staleness ----

  /** The state a sweep at `now` leaves in a record. */
  function Aged(r: Record, now: int, config: Staleness): Presence {
    var next := EvaluateStaleness(r, now, config);
    if next.Some? then next.value else r.state
  }

  lemma {:induction false} TickAllAges(g: Registry, ids: seq<string>, now: int, config: Staleness)
    requires forall i, j :: 0 <= i < j < |ids| ==> ids[i] != ids[j]
    ensures TickAll(g, ids, now, config).records.Keys == g.records.Keys
    ensures forall id :: id in g.records ==>
      TickAll(g, ids, now, config).records[id] ==
      if id in ids then g.records[id].(state := Aged(g.records[id], now, config)) else g.records[id]
    ensures TickAll(g, ids, now, config).order == g.order
    decreases |ids|
  {
    if ids != [] {
      var init, last := ids[..|ids| - 1], ids[|ids| - 1];
      TickAllAges(g, init, now, config);
      assert forall id :: id in ids <==> id in init || id == last;
      assert last !in init;
    }
  }

  lemma {:induction false} TickAges(g: Registry, now: int, config: Staleness)
    requires OrderAgrees(g)
    ensures Tick(g, now, config).records.Keys == g.records.Keys && Tick(g, now, config).order == g.order
    ensures forall id :: id in g.records ==>
      Tick(g, now, config).records[id] == g.records[id].(state := Aged(g.records[id], now, config))
  {
    TickAllAges(g, g.order, now, config);
  }

  lemma {:induction false} AgingComposes(r: Record, t1: int, t2: int, config: Staleness)
    requires t1 <= t2
    ensures Aged(r.(state := Aged(r, t1, config)), t2, config) == Aged(r, t2, config)
  {
  }

  /** Sweeping twice leaves the same records as sweeping once at the later time. */
  lemma {:induction false} TicksCompose(g: Registry, t1: int, t2: int, config: Staleness)
    requires OrderAgrees(g) && t1 <= t2
    ensures Tick(Tick(g, t1, config), t2, config).records == Tick(g, t2, config).records
  {
    TickAges(g, t1, config);
    TickAges(Tick(g, t1, config), t2, config);
    TickAges(g, t2, config);
    forall id | id in g.records
      ensures Tick(Tick(g, t1, config), t2, config).records[id] == Tick(g, t2, config).records[id]
    {
      AgingComposes(g.records[id], t1, t2, config);
    }
  }

  /** After a sweep no record past a limit is fresher than that limit allows. */
  lemma {:induction false} TickEnforcesLimits(g: Registry, now: int, config: Staleness, id: string)
    requires OrderAgrees(g) && id in g.records
    ensures id in Tick(g, now, config).records
    ensures now - g.records[id].lastSeen >= config.offlineAfter ==> Tick(g, now, config).records[id].state == Offline
    ensures now - g.records[id].lastSeen >= config.staleAfter ==>
              Tick(g, now, config).records[id].state in {Stale, Offline}
    ensures now - g.records[id].lastSeen < config.staleAfter && now - g.records[id].lastSeen < config.offlineAfter ==>
            Tick(g, now, config).records[id] == g.records[id]
  {
    TickAges(g, now, config);
  }
}
