/**
 The registry device by device: what each operation makes of one device's record, spelled out,
 and what it announces. Over every run each record lives its own life.
 */
module AwarenessLives {
  import opened Prelude
  import opened Awareness

  // ---- The moves ----

  /** Two different states are joined by one legal move, except these four pairs. */
  predicate Apart(from: Presence, to: Presence) {
    || (from == Seen && to == Online) || (from == PendingEnroll && to == Seen)
    || (from == Online && (to == Seen || to == Identified))
  }

  /**
   An observation takes one move where there is one; it goes online from seen through
   identification and enrolment, and back from a pending enrolment through identification.
   */
  lemma {:induction false} PathsTaken(from: Presence, to: Presence)
    ensures from != to ==> (to in Moves(from) <==> !Apart(from, to))
    ensures TransitionPath(from, to) ==
            if from == to then Some([])
            else if !Apart(from, to) then Some([to])
            else if from == Seen then Some([Identified, PendingEnroll, Online])
            else if from == PendingEnroll then Some([Identified, Seen])
            else None
  {
  }

  // ---- One device ----

  /** The state an observation asks for: approval first, then a known module, then any identification. */
  ghost predicate AsksFor(enrolled: bool, identity: Identity, state: Presence) {
    var guess := if GuessedModule in identity then identity[GuessedModule] else "";
    var known := guess != "" && guess != "unknown" && !("unknown/" <= guess);
    var identified := exists f :: f in identity && f != OtherField && identity[f] != "";
    match state
    case Online => enrolled
    case PendingEnroll => !enrolled && known
    case Identified => !enrolled && !known && identified
    case Seen => !enrolled && !known && !identified
    case _ => false
  }

  lemma {:induction false} PresenceAskedFor(enrolled: bool, identity: Identity, state: Presence)
    ensures AsksFor(enrolled, identity, state) <==> PresenceForObservation(enrolled, identity) == state
  {
  }

  /** The fields an observation gives replace those known before; the others stay. */
  ghost predicate Merged(before: Identity, given: Identity, after: Identity) {
    && (forall f :: f in after <==> f in before || f in given)
    && (forall f :: f in given ==> after[f] == given[f])
    && (forall f :: f in before && f !in given ==> after[f] == before[f])
  }

  /**
   A device observed: its record is brought up to date, and takes the state asked for, unless it
   is online and only seen or identified is asked for, where the observation throws.
   */
  ghost predicate AfterObserving(before: Option<Record>, identity: Identity, mock: bool, enrolled: bool, now: int,
                                 after: Record) {
    && after.lastSeen == now
    && (if before.None? then after.firstSeen == now && after.identity == identity && after.mock == mock
        else after.firstSeen == before.value.firstSeen && Merged(before.value.identity, identity, after.identity)
             && after.mock == (mock || before.value.mock))
    && if before.Some? && before.value.state == Online
          && (AsksFor(enrolled, identity, Seen) || AsksFor(enrolled, identity, Identified))
       then after.state == Online
       else AsksFor(enrolled, identity, after.state)
  }

  /** A device enrolled: from identified or pending only, and then online under the module named. */
  ghost predicate AfterEnrolling(before: Option<Record>, moduleId: Option<string>, now: int, after: Option<Record>) {
    if before.None? || before.value.state !in {Identified, PendingEnroll} then after == before
    else
      && after.Some? && after.value.state == Online && after.value.lastSeen == now
      && after.value.firstSeen == before.value.firstSeen && after.value.mock == before.value.mock
      && if moduleId.None? || moduleId.value == "" then after.value.identity == before.value.identity
         else Merged(before.value.identity, map[GuessedModule := moduleId.value], after.value.identity)
  }

  /** A device swept: offline past the one limit, stale past the other, and nothing else changes. */
  function AfterSweeping(before: Record, now: int, config: Staleness): Record {
    var age := now - before.lastSeen;
    if before.state == Offline || age >= config.offlineAfter then before.(state := Offline)
    else if age >= config.staleAfter then before.(state := Stale)
    else before
  }

  /** What an action makes of the device `id`. */
  ghost predicate Lives(before: Option<Record>, a: Action, config: Staleness, id: string, after: Option<Record>) {
    match a
    case ObserveIt(x, identity, mock, enrolled, now) =>
      if x != id then after == before
      else after.Some? && AfterObserving(before, identity, mock, enrolled, now, after.value)
    case EnrollIt(x, moduleId, now) =>
      if x != id then after == before else AfterEnrolling(before, moduleId, now, after)
    case TickIt(now) =>
      after == if before.None? then None else Some(AfterSweeping(before.value, now, config))
    case MockIt(x, record) =>
      after == if x != id then before else Some(record.(mock := true))
  }

  ghost function RecordOf(g: Registry, id: string): Option<Record> {
    if id in g.records then Some(g.records[id]) else None
  }

  lemma {:induction false} ObserveLives(g: Registry, x: string, identity: Identity, mock: bool, enrolled: bool,
                                        now: int)
    ensures var after := RecordOf(Observe(g, x, identity, mock, enrolled, now).0, x);
            after.Some? && AfterObserving(RecordOf(g, x), identity, mock, enrolled, now, after.value)
  {
    var r := Observed(g, x, identity, mock, now);
    var next := PresenceForObservation(enrolled, identity);
    ApplySelf(Arrived(g, x, r), x, r, next);
    PathExistsExactly(r.state, next);
    PresenceAskedFor(enrolled, identity, next);
    PresenceAskedFor(enrolled, identity, Seen);
    PresenceAskedFor(enrolled, identity, Identified);
  }

  lemma {:induction false} ObserveSparesOthers(g: Registry, x: string, identity: Identity, mock: bool, enrolled: bool,
                                               now: int, id: string)
    requires x != id
    ensures RecordOf(Observe(g, x, identity, mock, enrolled, now).0, id) == RecordOf(g, id)
  {
    var r := Observed(g, x, identity, mock, now);
    var path := TransitionPath(r.state, PresenceForObservation(enrolled, identity));
    if path.Some? { WalkOthers(Arrived(g, x, r), x, r, path.value, id); }
  }

  lemma {:induction false} SweepLives(g: Registry, now: int, config: Staleness, id: string)
    requires OrderAgrees(g)
    ensures RecordOf(Tick(g, now, config), id) ==
            if id in g.records then Some(AfterSweeping(g.records[id], now, config)) else None
  {
    TickAges(g, now, config);
  }

  /** Every action does to each device what it should, and to no other device anything. */
  lemma {:induction false} StepLives(g: Registry, a: Action, config: Staleness, id: string)
    requires OrderAgrees(g)
    ensures Lives(RecordOf(g, id), a, config, id, RecordOf(Step(g, a, config), id))
  {
    match a
    case ObserveIt(x, identity, mock, enrolled, now) =>
      if x == id {
        ObserveLives(g, x, identity, mock, enrolled, now);
      } else {
        ObserveSparesOthers(g, x, identity, mock, enrolled, now, id);
      }
    case EnrollIt(x, moduleId, now) =>
    case TickIt(now) => SweepLives(g, now, config, id);
    case MockIt(x, record) =>
  }

  /** The records of one device along a run: before the first action, after it, and so on. */
  ghost predicate LifeOf(life: seq<Option<Record>>, actions: seq<Action>, config: Staleness, id: string) {
    && |life| == |actions| + 1
    && forall k :: 0 <= k < |actions| ==> Lives(life[k], actions[k], config, id, life[k + 1])
  }

  lemma {:induction false} LifeGoesOn(life: seq<Option<Record>>, actions: seq<Action>, config: Staleness, id: string,
                                      a: Action, next: Option<Record>)
    requires LifeOf(life, actions, config, id) && Lives(life[|actions|], a, config, id, next)
    ensures LifeOf(life + [next], actions + [a], config, id)
  {
    var more := life + [next];
    forall k | 0 <= k < |actions| + 1 ensures Lives(more[k], (actions + [a])[k], config, id, more[k + 1]) {
      if k < |actions| { assert more[k] == life[k] && more[k + 1] == life[k + 1]; }
    }
  }

  lemma {:induction false} RunOrder(loaded: map<string, Record>, order: seq<string>, actions: seq<Action>,
                                    config: Staleness)
    requires OrderAgrees(Registry(loaded, order, []))
    ensures OrderAgrees(Run(Registry(loaded, order, []), actions, config))
  {
    LogDeterminesState(loaded, order, actions, config);
  }

  /** Over every run each device lives its own life, whatever happens to the others. */
  lemma {:induction false} EachLivesItsLife(loaded: map<string, Record>, order: seq<string>, actions: seq<Action>,
                                            config: Staleness, id: string)
    returns (life: seq<Option<Record>>)
    requires OrderAgrees(Registry(loaded, order, []))
    ensures LifeOf(life, actions, config, id)
    ensures life[0] == (if id in loaded then Some(loaded[id]) else None)
    ensures life[|actions|] == RecordOf(Run(Registry(loaded, order, []), actions, config), id)
    decreases |actions|
  {
    var g := Registry(loaded, order, []);
    if actions == [] {
      life := [RecordOf(g, id)];
    } else {
      var init, last := actions[..|actions| - 1], actions[|actions| - 1];
      var before := EachLivesItsLife(loaded, order, init, config, id);
      RunOrder(loaded, order, init, config);
      StepLives(Run(g, init, config), last, config, id);
      LifeGoesOn(before, init, config, id, last, RecordOf(Run(g, actions, config), id));
      assert actions == init + [last];
      life := before + [RecordOf(Run(g, actions, config), id)];
    }
  }

  // ---- What is announced ----

  /** What the log says about one change of state. */
  function Announced(id: string, from: Presence, to: Presence): seq<LogEntry> {
    (if to in {Identified, PendingEnroll} && from in {Seen, Stale, Offline}
     then [LogEntry(IdentifiedEvent, id, to, Some(from))] else [])
    + [LogEntry(StateChanged, id, to, Some(from))]
    + (if to == Online then [LogEntry(OnlineEvent, id, to, Some(from))]
       else if to == Offline then [LogEntry(OfflineEvent, id, to, Some(from))]
       else [])
  }

  /** What the log says about a device going through these states, one after the other. */
  function AnnouncedAlong(id: string, from: Presence, path: seq<Presence>): seq<LogEntry>
    decreases |path|
  {
    if path == [] then []
    else
      var init := path[..|path| - 1];
      AnnouncedAlong(id, from, init) + Announced(id, StateAfter(from, init), path[|path| - 1])
  }

  lemma {:induction false} HopAnnounced(g: Registry, id: string, r: Record, step: Presence)
    requires step != Offline
    ensures Hop(g, id, r, step).log == g.log + Announced(id, r.state, step)
  {
  }

  lemma {:induction false} WalkAnnounced(g: Registry, id: string, r: Record, path: seq<Presence>)
    requires forall i :: 0 <= i < |path| ==> path[i] != Offline
    ensures Walk(g, id, r, path).log == g.log + AnnouncedAlong(id, r.state, path)
    decreases |path|
  {
    if path != [] {
      var init := path[..|path| - 1];
      var here := StateAfter(r.state, init);
      WalkAnnounced(g, id, r, init);
      HopAnnounced(Walk(g, id, r, init), id, r.(state := here), path[|path| - 1]);
    }
  }

  /** The states an observation leads through. */
  function Passed(from: Presence, to: Presence): seq<Presence> {
    if from == to then []
    else if !Apart(from, to) then [to]
    else if from == Seen then [Identified, PendingEnroll, Online]
    else if from == PendingEnroll then [Identified, Seen]
    else []
  }

  /** An observation announces a new device, and every move it makes. */
  lemma {:induction false} ObserveAnnounces(g: Registry, id: string, identity: Identity, mock: bool, enrolled: bool,
                                            now: int, to: Presence)
    requires AsksFor(enrolled, identity, to)
    ensures var from := if id in g.records then g.records[id].state else Seen;
            Observe(g, id, identity, mock, enrolled, now).0.log ==
            (g.log + if id in g.records then [] else [LogEntry(SeenEvent, id, Seen, None)])
            + AnnouncedAlong(id, from, Passed(from, to))
  {
    var r := Observed(g, id, identity, mock, now);
    var arrived := Arrived(g, id, r);
    PresenceAskedFor(enrolled, identity, to);
    PathsTaken(r.state, to);
    assert arrived.log == g.log + if id in g.records then [] else [LogEntry(SeenEvent, id, Seen, None)];
    if TransitionPath(r.state, to).Some? { WalkAnnounced(arrived, id, r, TransitionPath(r.state, to).value); }
    assert arrived.log + [] == arrived.log;
  }

  lemma {:induction false} AlongOne(id: string, from: Presence, a: Presence)
    ensures AnnouncedAlong(id, from, [a]) == Announced(id, from, a)
  {
    assert [a][..0] == [];
  }

  lemma {:induction false} AlongTwo(id: string, from: Presence, a: Presence, b: Presence)
    ensures AnnouncedAlong(id, from, [a, b]) == Announced(id, from, a) + Announced(id, a, b)
  {
    AlongOne(id, from, a);
    assert [a, b][..1] == [a];
  }

  /** An enrolment announces the moves it makes; a refused one nothing. */
  lemma {:induction false} EnrollAnnounces(g: Registry, id: string, moduleId: Option<string>, now: int)
    ensures MarkEnrolled(g, id, moduleId, now).0.log ==
            g.log + if id !in g.records then []
                    else if g.records[id].state ==
                      Identified then AnnouncedAlong(id, Identified, [PendingEnroll, Online])
                    else if g.records[id].state == PendingEnroll then Announced(id, PendingEnroll, Online)
                    else []
    ensures MarkEnrolled(g, id, moduleId, now).1 ==
            if id in g.records && g.records[id].state in {Identified, PendingEnroll} then Done(Online) else Failed
  {
    AlongTwo(id, Identified, PendingEnroll, Online);
  }

  /** What a sweep announces, device by device in the order they were first stored. */
  ghost function SweepLog(g: Registry, ids: seq<string>, now: int, config: Staleness): seq<LogEntry> {
    if ids == [] then []
    else
      var id := ids[|ids| - 1];
      SweepLog(g, ids[..|ids| - 1], now, config) +
      if id !in g.records || AfterSweeping(g.records[id], now, config).state == g.records[id].state then []
      else Announced(id, g.records[id].state, AfterSweeping(g.records[id], now, config).state)
  }

  lemma {:induction false} TickOneAnnounces(g: Registry, id: string, now: int, config: Staleness)
    ensures TickOne(g, id, now, config).log ==
            g.log + if id !in g.records || AfterSweeping(g.records[id], now, config).state ==
              g.records[id].state then []
                    else Announced(id, g.records[id].state, AfterSweeping(g.records[id], now, config).state)
  {
  }

  lemma {:induction false} TickAllAnnounces(g: Registry, ids: seq<string>, now: int, config: Staleness)
    requires forall i, j :: 0 <= i < j < |ids| ==> ids[i] != ids[j]
    ensures TickAll(g, ids, now, config).log == g.log + SweepLog(g, ids, now, config)
    decreases |ids|
  {
    if ids != [] {
      var init, id := ids[..|ids| - 1], ids[|ids| - 1];
      TickAllAnnounces(g, init, now, config);
      TickAllAges(g, init, now, config);
      TickOneAnnounces(TickAll(g, init, now, config), id, now, config);
      assert id !in init;
    }
  }

  /** A sweep announces every device that it found stale or offline, once each. */
  lemma {:induction false} SweepAnnounces(g: Registry, now: int, config: Staleness)
    requires OrderAgrees(g)
    ensures Tick(g, now, config).log == g.log + SweepLog(g, g.order, now, config)
  {
    TickAllAnnounces(g, g.order, now, config);
  }

  /** A mock is announced as if it had been seen first, or as the change it makes. */
  lemma {:induction false} MockAnnounces(g: Registry, id: string, r: Record)
    ensures UpsertMock(g, id, r).log ==
            g.log + if id in g.records then
                      (if g.records[id].state == r.state then []
                       else [LogEntry(StateChanged, id, r.state, Some(g.records[id].state))])
                    else
                      [LogEntry(SeenEvent, id, r.state, None)]
                      + (if r.state in {Identified, PendingEnroll, Online}
                         then [LogEntry(IdentifiedEvent, id, r.state, Some(Seen))] else [])
                      + (if r.state == Online then [LogEntry(OnlineEvent, id, r.state, Some(Seen))] else [])
                      + (if r.state == Seen then [] else [LogEntry(StateChanged, id, r.state, Some(Seen))])
  {
  }
}
