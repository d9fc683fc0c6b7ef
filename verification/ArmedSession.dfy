/**
 The armed session both firmwares implement: arm, heartbeat, poll, trip, disarm, on a
 32-bit millisecond counter that wraps.  True time is unbounded here, so the deadline
 comparison is a theorem about elapsed time.
 */
module ArmedSession {

  const WRAP: nat := 0x1_0000_0000
  const HALF: nat := 0x8000_0000

  /** The counter value at true time t. */
  function Millis(t: nat): nat {
    t % WRAP
  }

  /** A 32-bit deadline `ms` after true time t, as the firmware adds it. */
  function DeadlineAfter(t: nat, ms: nat): nat {
    (Millis(t) + ms) % WRAP
  }

  /** The signed reading of the wrapped difference is not negative. */
  predicate Due(now32: int, deadline32: int) {
    (now32 - deadline32) % WRAP < HALF
  }

  lemma {:induction false} ModShift(x: int, k: int)
    ensures (x + k * WRAP) % WRAP == x % WRAP
  {
  }

  /** What the comparison decides, for every amount of elapsed time. */
  lemma {:induction false} DueMeans(start: nat, ms: nat, now: nat)
    ensures Due(Millis(now), DeadlineAfter(start, ms)) <==> (now - start - ms) % WRAP < HALF
  {
    var k := (now / WRAP) - (start / WRAP) - (Millis(start) + ms) / WRAP;
    assert Millis(now) - DeadlineAfter(start, ms) == (now - start - ms) - k * WRAP;
    ModShift(now - start - ms, -k);
  }

  /** Polled within half the counter's range of the deadline, it decides elapsed time exactly. */
  lemma {:induction false} DueExactly(start: nat, ms: nat, now: nat)
    requires start <= now && ms <= HALF && now - start < ms + HALF
    ensures Due(Millis(now), DeadlineAfter(start, ms)) <==> now - start >= ms
  {
    DueMeans(start, ms, now);
  }

  /**
   The verdict is right exactly unless the deadline lies in the second half of a turn of the
   counter behind, so a late enough poll reads as early.
   */
  lemma {:induction false} DueRightExactly(start: nat, ms: nat, now: nat)
    requires start <= now && ms <= HALF
    ensures (Due(Millis(now), DeadlineAfter(start, ms)) <==> now - start >= ms) <==>
            (now - start >= ms ==> (now - start - ms) % WRAP < HALF)
  {
    DueMeans(start, ms, now);
  }

  // ---- The machine ----

  datatype Phase = Disarmed | Armed | Tripped

  /** A timeout of zero means the watchdog is off. */
  datatype Machine = Machine(phase: Phase, now: nat, lastTouch: nat, lastPoll: nat, timeout: nat)

  datatype Label = Wait(ms: nat) | Check | Begin(timeout: nat) | Retime(timeout: nat) | Beat | Halt | Stay

  predicate Watched(m: Machine) {
    m.phase == Armed && m.timeout > 0
  }

  predicate Expired(m: Machine) {
    Watched(m) && Due(Millis(m.now), DeadlineAfter(m.lastTouch, m.timeout))
  }

  function Touched(m: Machine): Machine {
    if Watched(m) then m.(lastTouch := m.now) else m
  }

  function Do(m: Machine, l: Label): Machine {
    match l
    case Wait(ms) => m.(now := m.now + ms)
    case Check => m.(phase := if Expired(m) then Tripped else m.phase, lastPoll := m.now)
    case Begin(timeout) => Touched(m.(phase := Armed, timeout := timeout))
    case Retime(timeout) => Touched(m.(timeout := timeout))
    case Beat => Touched(m)
    case Halt => m.(phase := Disarmed)
    case Stay => m
  }

  function DoAll(m: Machine, ls: seq<Label>): Machine {
    if ls == [] then m else Do(DoAll(m, ls[..|ls| - 1]), ls[|ls| - 1])
  }

  /** Polls are never more than `gap` apart, and every timeout asked for is within the comparison's range. */
  ghost predicate Prompt(m: Machine, ls: seq<Label>, gap: nat) {
    && (forall k :: 0 <= k <= |ls| ==> DoAll(m, ls[..k]).now - DoAll(m, ls[..k]).lastPoll <= gap)
    && forall k :: 0 <= k < |ls| ==> (ls[k].Begin? || ls[k].Retime? ==> ls[k].timeout <= HALF)
  }

  /** A watched session was touched less than its timeout before the last poll, or after it. */
  ghost predicate Timely(m: Machine, gap: nat) {
    && m.lastTouch <= m.now && m.lastPoll <= m.now && m.timeout <= HALF && gap <= HALF
    && (Watched(m) ==> m.lastPoll - m.lastTouch < m.timeout)
  }

  lemma {:induction false} PollDecides(m: Machine, gap: nat)
    requires Timely(m, gap) && m.now - m.lastPoll <= gap
    ensures Expired(m) <==> Watched(m) && m.now - m.lastTouch >= m.timeout
  {
    if Watched(m) { DueExactly(m.lastTouch, m.timeout, m.now); }
  }

  lemma {:induction false} DoKeepsTimely(m: Machine, l: Label, gap: nat)
    requires Timely(m, gap) && m.now - m.lastPoll <= gap
    requires l.Begin? || l.Retime? ==> l.timeout <= HALF
    ensures Timely(Do(m, l), gap)
  {
    if l.Check? { PollDecides(m, gap); }
  }

  lemma {:induction false} PromptRunTimely(m: Machine, ls: seq<Label>, gap: nat)
    requires Timely(m, gap) && Prompt(m, ls, gap)
    ensures Timely(DoAll(m, ls), gap)
    decreases |ls|
  {
    if ls != [] {
      var init := ls[..|ls| - 1];
      assert forall k :: 0 <= k <= |init| ==> init[..k] == ls[..k];
      assert ls[..|ls|] == ls;
      PromptRunTimely(m, init, gap);
      DoKeepsTimely(DoAll(m, init), ls[|ls| - 1], gap);
    }
  }

  /** With prompt polls no session stays armed for `timeout + gap` without a heartbeat. */
  lemma {:induction false} NoSilentSession(m: Machine, ls: seq<Label>, gap: nat)
    requires Timely(m, gap) && Prompt(m, ls, gap)
    ensures var s := DoAll(m, ls); Watched(s) ==> s.now - s.lastTouch < s.timeout + gap
  {
    PromptRunTimely(m, ls, gap);
    assert ls[..|ls|] == ls;
  }

  /** With prompt polls a poll trips exactly when the timeout has truly elapsed. */
  lemma {:induction false} TripsExactlyWhenSilent(m: Machine, ls: seq<Label>, gap: nat)
    requires Timely(m, gap) && Prompt(m, ls, gap) && DoAll(m, ls).phase == Armed
    ensures var s := DoAll(m, ls);
            Do(s, Check).phase == Tripped <==> s.timeout > 0 && s.now - s.lastTouch >= s.timeout
  {
    PromptRunTimely(m, ls, gap);
    assert ls[..|ls|] == ls;
    PollDecides(DoAll(m, ls), gap);
  }
}
