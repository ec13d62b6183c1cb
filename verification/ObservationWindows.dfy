/** Bounded observation windows (`core/monitor.py`): opening or extending one is a lookup and then a write, closing one
    is a single guarded update, and a window closes itself. */
module ObservationWindows {

  import opened Basics
  import opened PolicyEngine

  datatype Agent = Agent(tenant: string, token: string)

  /** `touchedAt` is the clock reading of the last opening or extension. */
  datatype Window = Window(agent: Agent, touchedAt: int, expiresAt: int, closedAt: Option<int>)

  const HOUR: int := 3600

  predicate Active(w: Window, agent: Agent, now: int) { w.agent == agent && w.closedAt.None? && w.expiresAt > now }

  /** `active_window` */
  predicate AnyActive(windows: seq<Window>, agent: Agent, now: int) {
    exists i :: 0 <= i < |windows| && Active(windows[i], agent, now)
  }

  /** `observes` */
  predicate Observes(c: Option<ActionClass>) { c.Some? && !Dangerous(c.value) }

  // ---------------------------------------------------------------- the table

  /** No window outlives its last opening by more than the ceiling, and an agent has at most one unclosed window. */
  ghost predicate TableOk(windows: seq<Window>, maxHours: int) {
    && (forall i :: 0 <= i < |windows| ==> windows[i].expiresAt <= windows[i].touchedAt + maxHours * HOUR)
    && (forall i, j :: 0 <= i < j < |windows| && windows[i].closedAt.None? && windows[j].closedAt.None?
                       ==> windows[i].agent != windows[j].agent)
  }

  /** The row that an extension updates, whatever happened to it since it was read. */
  function Extend(windows: seq<Window>, i: nat, now: int, hours: int): seq<Window>
    requires i < |windows|
  {
    windows[i := windows[i].(touchedAt := now, expiresAt := now + hours * HOUR)]
  }

  /** The unique index on unclosed windows refuses the insertion. */
  predicate Refused(windows: seq<Window>, agent: Agent) {
    exists i :: 0 <= i < |windows| && windows[i].agent == agent && windows[i].closedAt.None?
  }

  function Close(windows: seq<Window>, tenant: string, i: nat, now: int): seq<Window> {
    if i < |windows| && windows[i].agent.tenant == tenant && windows[i].closedAt.None?
    then windows[i := windows[i].(closedAt := Some(now))] else windows
  }

  datatype Outcome = InvalidDuration | Extended | Opened | IndexViolation

  class WindowTable {
    const maxHours: int
    var windows: seq<Window>

    constructor (maxHours: int)
      ensures this.maxHours == maxHours && windows == []
    {
      this.maxHours := maxHours;
      windows := [];
    }

    /** `active_window` */
    method ActiveWindow(agent: Agent, now: int) returns (found: Option<nat>)
      ensures found.Some? ==> found.value < |windows| && Active(windows[found.value], agent, now)
      ensures found.None? ==> !AnyActive(windows, agent, now)
    {
      for i := 0 to |windows|
        invariant forall j :: 0 <= j < i ==> !Active(windows[j], agent, now)
      {
        if Active(windows[i], agent, now) { return Some(i); }
      }
      found := None;
    }

    /** `open_window` when nothing runs between its lookup and its write: it fails on the index exactly when the agent
        has an unclosed window that has already expired. */
    method OpenWindow(agent: Agent, hours: int, now: int) returns (r: Outcome)
      requires TableOk(windows, maxHours)
      modifies this
      ensures TableOk(windows, maxHours)
      ensures r == InvalidDuration <==> hours < 1 || hours > maxHours
      ensures r == Extended <==> 1 <= hours <= maxHours && AnyActive(old(windows), agent, now)
      ensures r == IndexViolation <==>
                1 <= hours <= maxHours && !AnyActive(old(windows), agent, now) && Refused(old(windows), agent)
      ensures r in {InvalidDuration, IndexViolation} ==> windows == old(windows)
      ensures r == Opened ==> windows == old(windows) + [Window(agent, now, now + hours * HOUR, None)]
      ensures r == Extended ==>
                exists i: nat :: i < |old(windows)| && Active(old(windows)[i], agent, now)
                                 && windows == Extend(old(windows), i, now, hours)
    {
      if hours < 1 || hours > maxHours { return InvalidDuration; }
      var existing := ActiveWindow(agent, now);
      if existing.Some? {
        ExtendKeeps(windows, maxHours, existing.value, now, hours);
        windows := Extend(windows, existing.value, now, hours);
        return Extended;
      }
      if exists i :: 0 <= i < |windows| && windows[i].agent == agent && windows[i].closedAt.None? {
        return IndexViolation;
      }
      InsertKeeps(windows, maxHours, agent, now, hours);
      windows := windows + [Window(agent, now, now + hours * HOUR, None)];
      r := Opened;
    }

    /** `close_window` */
    method CloseWindow(tenant: string, i: nat, now: int) returns (done: bool)
      requires TableOk(windows, maxHours)
      modifies this
      ensures TableOk(windows, maxHours) && windows == Close(old(windows), tenant, i, now)
      ensures done <==> i < |old(windows)| && old(windows)[i].agent.tenant == tenant && old(windows)[i].closedAt.None?
      ensures windows == if done then old(windows)[i := old(windows)[i].(closedAt := Some(now))] else old(windows)
    {
      CloseKeeps(windows, maxHours, tenant, i, now);
      done := i < |windows| && windows[i].agent.tenant == tenant && windows[i].closedAt.None?;
      if done { windows := windows[i := windows[i].(closedAt := Some(now))]; }
    }
  }

  lemma ExtendKeeps(windows: seq<Window>, maxHours: int, i: nat, now: int, hours: int)
    requires TableOk(windows, maxHours) && i < |windows| && hours <= maxHours
    ensures TableOk(Extend(windows, i, now, hours), maxHours)
  {
  }

  lemma InsertKeeps(windows: seq<Window>, maxHours: int, agent: Agent, now: int, hours: int)
    requires TableOk(windows, maxHours) && !Refused(windows, agent) && hours <= maxHours
    ensures TableOk(windows + [Window(agent, now, now + hours * HOUR, None)], maxHours)
  {
  }

  lemma CloseKeeps(windows: seq<Window>, maxHours: int, tenant: string, i: nat, now: int)
    requires TableOk(windows, maxHours)
    ensures TableOk(Close(windows, tenant, i, now), maxHours)
  {
  }

  /** Reopening an agent whose window expired without being closed fails on the index. */
  lemma ExpiredWindowBlocksReopening(agent: Agent, maxHours: int)
    requires maxHours >= 1
    ensures var windows := [Window(agent, 0, HOUR, None)];
            TableOk(windows, maxHours) && !AnyActive(windows, agent, HOUR) && Refused(windows, agent)
  {
    var windows := [Window(agent, 0, HOUR, None)];
    assert windows[0].agent == agent;
  }

  // ---------------------------------------------------------------- when an agent is observed

  /** Opening or extending observes the agent until the hours are over, unless the window that is extended was closed
      meanwhile. */
  lemma OpeningObserves(windows: seq<Window>, agent: Agent, i: nat, now: int, hours: int, clock: int)
    requires now <= clock < now + hours * 3600
    ensures AnyActive(windows + [Window(agent, now, now + hours * HOUR, None)], agent, clock)
    ensures i < |windows| && windows[i].agent == agent ==>
              (Active(Extend(windows, i, now, hours)[i], agent, clock) <==> windows[i].closedAt.None?)
  {
    var after := windows + [Window(agent, now, now + hours * HOUR, None)];
    assert Active(after[|windows|], agent, clock);
  }

  /** Every window of the agent is closed. */
  predicate AllClosed(windows: seq<Window>, agent: Agent) {
    forall i :: 0 <= i < |windows| && windows[i].agent == agent ==> windows[i].closedAt.Some?
  }

  /** Closing its unclosed window ends the observation of an agent, at every clock. */
  lemma ClosingEnds(windows: seq<Window>, maxHours: int, agent: Agent, i: nat, now: int, clock: int)
    requires TableOk(windows, maxHours) && i < |windows| && windows[i].agent == agent && windows[i].closedAt.None?
    ensures var after := Close(windows, agent.tenant, i, now);
            AllClosed(after, agent) && !AnyActive(after, agent, clock)
  {
  }

  // ---------------------------------------------------------------- interleaved calls

  /** An opening in progress: what it will write, and the window it found. */
  datatype Opening = Opening(agent: Agent, hours: int, now: int, looked: bool, found: Option<nat>)

  datatype State = State(windows: seq<Window>, opening: map<nat, Opening>)

  datatype Step =
    | BeginOpen(pid: nat, agent: Agent, hours: int, now: int)
    | LookupOpen(pid: nat, now: int, found: Option<nat>)
    | WriteOpen(pid: nat)
    | CloseStep(tenant: string, i: nat, now: int)

  ghost predicate Enabled(s: State, maxHours: int, step: Step) {
    match step
    case BeginOpen(pid, _, hours, _) => pid !in s.opening && 1 <= hours <= maxHours
    case LookupOpen(pid, now, found) =>
      && pid in s.opening
      && (found.None? ==> !AnyActive(s.windows, s.opening[pid].agent, now))
      && (found.Some? ==> found.value < |s.windows| && Active(s.windows[found.value], s.opening[pid].agent, now))
    case WriteOpen(pid) =>
      && pid in s.opening && s.opening[pid].looked
      && (s.opening[pid].found.Some? ==> s.opening[pid].found.value < |s.windows|)
    case CloseStep(_, _, _) => true
  }

  ghost function Next(s: State, maxHours: int, step: Step): State
    requires Enabled(s, maxHours, step)
  {
    match step
    case BeginOpen(pid, agent, hours, now) => s.(opening := s.opening[pid := Opening(agent, hours, now, false, None)])
    case LookupOpen(pid, _, found) => s.(opening := s.opening[pid := s.opening[pid].(looked := true, found := found)])
    case WriteOpen(pid) =>
      var o := s.opening[pid];
      State(if o.found.Some? then Extend(s.windows, o.found.value, o.now, o.hours)
            else if Refused(s.windows, o.agent) then s.windows
            else s.windows + [Window(o.agent, o.now, o.now + o.hours * HOUR, None)],
            s.opening - {pid})
    case CloseStep(tenant, i, now) => s.(windows := Close(s.windows, tenant, i, now))
  }

  ghost predicate Run(maxHours: int, states: seq<State>, steps: seq<Step>) {
    && |states| == |steps| + 1 && states[0] == State([], map[])
    && forall k :: 0 <= k < |steps| ==>
         Enabled(states[k], maxHours, steps[k]) && states[k + 1] == Next(states[k], maxHours, steps[k])
  }

  ghost predicate Inv(s: State, maxHours: int) {
    && TableOk(s.windows, maxHours)
    && forall pid <- s.opening :: OpeningOk(s.windows, s.opening[pid], maxHours)
  }

  /** The window that an opening found is its agent's. */
  predicate OpeningOk(windows: seq<Window>, o: Opening, maxHours: int) {
    && 1 <= o.hours <= maxHours
    && (o.found.Some? ==> o.found.value < |windows| && windows[o.found.value].agent == o.agent)
  }

  lemma StepKeeps(s: State, maxHours: int, step: Step)
    requires Inv(s, maxHours) && Enabled(s, maxHours, step)
    ensures Inv(Next(s, maxHours, step), maxHours)
  {
    match step
    case WriteOpen(pid) =>
      var o := s.opening[pid];
      if o.found.Some? {
        ExtendKeeps(s.windows, maxHours, o.found.value, o.now, o.hours);
      } else if !Refused(s.windows, o.agent) {
        InsertKeeps(s.windows, maxHours, o.agent, o.now, o.hours);
      }
    case CloseStep(tenant, i, now) => CloseKeeps(s.windows, maxHours, tenant, i, now);
    case _ =>
  }

  /** The step opens or extends a window of the agent, with this clock reading. */
  ghost predicate Opens(s: State, step: Step, agent: Agent, at: int) {
    && step.WriteOpen? && step.pid in s.opening
    && s.opening[step.pid].agent == agent && s.opening[step.pid].now == at
    && (s.opening[step.pid].found.Some? || !Refused(s.windows, agent))
  }

  lemma {:induction false} RunKeeps(maxHours: int, states: seq<State>, steps: seq<Step>, k: nat)
    requires Run(maxHours, states, steps) && k < |states|
    ensures Inv(states[k], maxHours)
  {
    if k > 0 {
      RunKeeps(maxHours, states, steps, k - 1);
      StepKeeps(states[k - 1], maxHours, steps[k - 1]);
    }
  }

  /** A window is there already, untouched, or this step opens or extends it. */
  lemma TouchStep(s: State, maxHours: int, step: Step, i: nat)
    requires Inv(s, maxHours) && Enabled(s, maxHours, step) && i < |Next(s, maxHours, step).windows|
    ensures var w := Next(s, maxHours, step).windows[i];
            || (i < |s.windows| && s.windows[i].agent == w.agent && s.windows[i].touchedAt == w.touchedAt)
            || Opens(s, step, w.agent, w.touchedAt)
  {
  }

  /** The last opening or extension of a window is a step of the run. */
  lemma {:induction false} TouchedBy(maxHours: int, states: seq<State>, steps: seq<Step>, k: nat, i: nat)
      returns (j: nat)
    requires Run(maxHours, states, steps) && k < |states| && i < |states[k].windows|
    ensures j < k && Opens(states[j], steps[j], states[k].windows[i].agent, states[k].windows[i].touchedAt)
  {
    hide Opens;
    RunKeeps(maxHours, states, steps, k - 1);
    TouchStep(states[k - 1], maxHours, steps[k - 1], i);
    var w := states[k].windows[i];
    if Opens(states[k - 1], steps[k - 1], w.agent, w.touchedAt) {
      j := k - 1;
    } else {
      j := TouchedBy(maxHours, states, steps, k - 1, i);
    }
  }

  /** Some step of the run so far opened or extended a window of the agent, less than the ceiling before. */
  ghost predicate OpenedRecently(states: seq<State>, steps: seq<Step>, k: nat, agent: Agent, now: int, maxHours: int) {
    exists j, at :: 0 <= j < k && j < |states| && j < |steps| && Opens(states[j], steps[j], agent, at)
                    && now < at + maxHours * HOUR
  }

  /** In every run, whatever the clocks, an agent that is observed had a window opened or extended by an earlier step of
      the run, less than the configured number of hours before. */
  lemma ObservationIsBounded(maxHours: int, states: seq<State>, steps: seq<Step>, k: nat, agent: Agent, now: int)
    requires Run(maxHours, states, steps) && k < |states| && AnyActive(states[k].windows, agent, now)
    ensures OpenedRecently(states, steps, k, agent, now, maxHours)
  {
    RunKeeps(maxHours, states, steps, k);
    var i :| 0 <= i < |states[k].windows| && Active(states[k].windows[i], agent, now);
    var w := states[k].windows[i];
    var j := TouchedBy(maxHours, states, steps, k, i);
    assert w.expiresAt <= w.touchedAt + maxHours * HOUR;
    assert Opens(states[j], steps[j], agent, w.touchedAt);
  }

  lemma ClosedStep(s: State, maxHours: int, step: Step, agent: Agent)
    requires Inv(s, maxHours) && Enabled(s, maxHours, step) && AllClosed(s.windows, agent)
    requires forall at :: !Opens(s, step, agent, at)
    ensures AllClosed(Next(s, maxHours, step).windows, agent)
  {
    if step.WriteOpen? {
      var o := s.opening[step.pid];
      assert o.agent == agent ==> !Opens(s, step, agent, o.now);
    }
  }

  /** Once the unclosed window of an agent is closed, the agent is observed at no clock until a later step of the run
      opens or extends a window of it again. */
  lemma {:induction false} ClosingEndsObservation(maxHours: int, states: seq<State>, steps: seq<Step>, j: nat, k: nat,
                                                  agent: Agent, i: nat, now: int, clock: int)
    requires Run(maxHours, states, steps) && j < k < |states| && steps[j] == CloseStep(agent.tenant, i, now)
    requires i < |states[j].windows| && states[j].windows[i].agent == agent && states[j].windows[i].closedAt.None?
    requires forall m, at :: j < m < k ==> !Opens(states[m], steps[m], agent, at)
    ensures AllClosed(states[k].windows, agent) && !AnyActive(states[k].windows, agent, clock)
    decreases k
  {
    RunKeeps(maxHours, states, steps, k - 1);
    if k == j + 1 {
      ClosingEnds(states[j].windows, maxHours, agent, i, now, clock);
    } else {
      ClosingEndsObservation(maxHours, states, steps, j, k - 1, agent, i, now, clock);
      ClosedStep(states[k - 1], maxHours, steps[k - 1], agent);
    }
  }

  /** The table after an opening has written: the window that it found is extended, closed or not; without one a new
      window is added, unless the agent has an unclosed window by then. */
  predicate Written(o: Opening, before: seq<Window>, after: seq<Window>) {
    var until := o.now + o.hours * 3600;
    if o.found.Some? then
      && o.found.value < |before|
      && after == before[o.found.value := before[o.found.value].(touchedAt := o.now, expiresAt := until)]
    else if exists w :: w in before && w.agent == o.agent && w.closedAt.None? then after == before
    else after == before + [Window(o.agent, o.now, until, None)]
  }

  /** An opening in progress is as it was begun. */
  lemma {:induction false} OpeningWasBegun(maxHours: int, states: seq<State>, steps: seq<Step>, k: nat, pid: nat)
      returns (j: nat)
    requires Run(maxHours, states, steps) && k < |states| && pid in states[k].opening
    ensures var o := states[k].opening[pid]; j < k && steps[j] == BeginOpen(pid, o.agent, o.hours, o.now)
  {
    var before := states[k - 1];
    assert states[k] == Next(before, maxHours, steps[k - 1]);
    if pid in before.opening {
      j := OpeningWasBegun(maxHours, states, steps, k - 1, pid);
    } else {
      j := k - 1;
    }
  }

  /** Over every run: an opening writes for the agent, the hours and the clock reading with which it was begun, and then
      the agent is observed until the hours are over, unless the window that it found was closed meanwhile, or another
      one that is still unclosed kept it from adding its own. */
  lemma OpeningTakesEffect(maxHours: int, states: seq<State>, steps: seq<Step>, k: nat, pid: nat, clock: int)
      returns (j: nat, agent: Agent, hours: int, now: int)
    requires Run(maxHours, states, steps) && k < |steps| && steps[k] == WriteOpen(pid)
    ensures j < k && steps[j] == BeginOpen(pid, agent, hours, now) && pid in states[k].opening
    ensures var o := states[k].opening[pid];
            && (o.agent, o.hours, o.now) == (agent, hours, now)
            && Written(o, states[k].windows, states[k + 1].windows)
            && (now <= clock < now + hours * 3600
                && (o.found.Some? ==> states[k].windows[o.found.value].closedAt.None?)
                && (o.found.None? ==> !Refused(states[k].windows, agent))
                ==> AnyActive(states[k + 1].windows, agent, clock))
  {
    assert Enabled(states[k], maxHours, steps[k]) && states[k + 1] == Next(states[k], maxHours, steps[k]);
    RunKeeps(maxHours, states, steps, k);
    j := OpeningWasBegun(maxHours, states, steps, k, pid);
    var o := states[k].opening[pid];
    agent, hours, now := o.agent, o.hours, o.now;
    if now <= clock < now + hours * 3600 {
      OpeningObserves(states[k].windows, agent, if o.found.Some? then o.found.value else 0, now, hours, clock);
    }
  }
}
