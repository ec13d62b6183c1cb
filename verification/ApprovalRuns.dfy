/** The decision cycle of `core/decision.py` as a state machine: calls to `authorize` and `poll`, the decisions of
    people, and the calls of the other doors that share the table (the MCP gateway and the workstations) interleave.
    Every statement on the approvals is a step of its own, a call keeps the copy of the row that it read, every step
    may read any clock, and the store or the journal may fail at any step.

    A call of `authorize` enters after its guards (module `Guards`), with the outcome that they left. */
module ApprovalRuns {

  import opened Basics
  import opened PolicyEngine
  import opened Approvals
  import Guards

  /** `Outside` is a call of another door: it inserts an approval, or reads one and may expire and consume it.  What
      that door answers is not said here. */
  datatype Call =
    | Authorize(tenant: string, tool: string, argsHash: string, policy: Policy, outcome: Outcome, timeout: int)
    | Poll(tenant: string, id: nat)
    | Decision(tenant: string, id: nat, approve: bool, who: string)
    | Outside(tenant: string, id: nat)

  /** What a call holds: the record, the moment of its lookup, and the moment whose version of the row it copies. */
  datatype Copy = Copy(rec: Record, since: nat, readAt: nat)

  /** Why a call was allowed: without a human; by an approval, which the call was the first to consume or not, with the
      moment of the answer; or because the approval service was down. */
  datatype Why =
    | Unattended
    | ByHumans(copy: Copy, first: bool, until: nat)
    | StoreDown

  datatype Verdict = Allow(why: Why) | Refuse | Hold | Absent | Raised | Conflict | Decided | Elsewhere

  /** Where a call is; `now` is the clock reading of its expiry check. */
  datatype Local =
    | Judged(call: Call)
    | Looked(call: Call, found: Option<Copy>)
    | Rereading(call: Call, copy: Copy, now: int)
    | Created(call: Call)
    | Ready(call: Call, copy: Copy, now: int)
    | Resolving(call: Call, copy: Copy)
    | Spent(call: Call, copy: Copy, first: bool, audited: bool)
    | Outage(call: Call)
    | Answered(call: Call, verdict: Verdict)

  /** `attempts` counts the terminal audit writes of each approval, `proved` holds the calls whose own audit row was
      written, `clock` counts the steps. */
  datatype State = State(rows: seq<Row>, calls: map<nat, Local>, attempts: seq<nat>, proved: set<nat>, clock: nat)

  const INITIAL := State([], map[], [], {}, 0)

  /** `ExpireStep` is the guarded update of `expire_if_needed`, `Reread` the read that follows it when it matched no
      row: when it matched one, the row stays locked until it is read.  `WriteStep` is the unguarded update of
      `decide`. */
  datatype Step =
    | Begin(pid: nat, call: Call)
    | AuditDirect(pid: nat, written: bool)
    | Lookup(pid: nat, found: Option<nat>)
    | ExpireStep(pid: nat, now: int)
    | Reread(pid: nat)
    | CreateStep(pid: nat, now: int)
    | AfterCreate(pid: nat)
    | InsertStep(pid: nat, row: Row)
    | ConsumeStep(pid: nat)
    | AuditTerminal(pid: nat)
    | Answer(pid: nat)
    | Fail(pid: nat)
    | OutageAnswer(pid: nat)
    | WriteStep(pid: nat)

  predicate Unattendable(a: Approval) { a == Auto || a == Notify }

  predicate Held(call: Call) {
    call.Authorize? && (call.outcome.decision == HumanInTheLoop || call.outcome.decision == HumanDual)
  }

  function Required(a: Approval): nat { if a == HumanDual then 2 else 1 }

  /** The row that `_hold_for_humans` inserts. */
  function HeldRow(call: Call, now: int): Row
    requires call.Authorize?
  {
    NewRow(call.tenant, call.tool, call.argsHash, call.outcome.actionClass, Required(call.outcome.decision), now,
           now + call.timeout)
  }

  /** What `find_active` or `get` may answer to a call. */
  ghost predicate Answers(s: State, call: Call, found: Option<nat>) {
    if call.Authorize? then IsActive(s.rows, call.tenant, call.tool, call.argsHash, found)
    else found == if Fetch(s.rows, call.tenant, call.id).Some? then Some(call.id) else None
  }

  ghost predicate Enabled(s: State, step: Step) {
    if step.Begin? then step.pid !in s.calls
    else
      && step.pid in s.calls
      && var l := s.calls[step.pid];
         match step
         case Begin(_, _) => false
         case AuditDirect(_, _) => l.Judged? && l.call.Authorize? && !Held(l.call)
         case Lookup(_, found) =>
           && l.Judged? && (l.call.Authorize? ==> Held(l.call))
           && Answers(s, l.call, found) && (found.Some? ==> found.value < |s.rows|)
         case ExpireStep(_, _) => l.Looked? && l.found.Some? && l.found.value.rec.id < |s.rows|
         case Reread(_) => l.Rereading? && l.copy.rec.id < |s.rows|
         case CreateStep(_, _) => l.Looked? && l.found.None? && l.call.Authorize?
         case AfterCreate(_) => l.Created?
         case InsertStep(_, row) =>
           l.Judged? && l.call.Outside? && row.tenant == l.call.tenant && Fresh(row) && row.required >= 1
         case ConsumeStep(_) => l.Resolving? && l.copy.rec.id < |s.rows|
         case AuditTerminal(_) =>
           l.Spent? && !l.call.Outside? && l.first && !l.audited && l.copy.rec.id < |s.attempts|
         case Answer(_) => l.Spent? && (l.first && !l.call.Outside? ==> l.audited)
         case Fail(_) => !l.Answered? && !l.Outage? && (l.call.Authorize? ==> Held(l.call))
         case OutageAnswer(_) => l.Outage? && l.call.Authorize?
         case WriteStep(_) => l.Ready? && l.call.Decision? && l.copy.rec.id < |s.rows|
  }

  function Moved(s: State, pid: nat, l: Local): State { s.(calls := s.calls[pid := l], clock := s.clock + 1) }

  /** Once the record is refreshed: a pending one is held, or can be decided; another is resolved, or is a conflict. */
  function Refresh(call: Call, copy: Copy, now: int): Local {
    if copy.rec.row.status == Pending then if call.Decision? then Ready(call, copy, now) else Answered(call, Hold)
    else if call.Decision? then Answered(call, Conflict)
    else Resolving(call, copy)
  }

  /** `_TERMINAL`: only an approved record is allowed. */
  function TerminalVerdict(l: Local, until: nat): Verdict
    requires l.Spent?
  {
    if l.call.Outside? then Elsewhere
    else if l.copy.rec.row.status == Approved then Allow(ByHumans(l.copy, l.first, until)) else Refuse
  }

  function Found(s: State, id: nat, since: nat): Copy
    requires id < |s.rows|
  {
    Copy(Record(id, s.rows[id]), since, s.clock)
  }

  /** The call after its expiry check. */
  function Expiring(s: State, l: Local, now: int): Local
    requires l.Looked? && l.found.Some? && l.found.value.rec.id < |s.rows|
  {
    var copy := l.found.value;
    var id := copy.rec.id;
    if !Lapsed(copy.rec, now) then Refresh(l.call, copy, now)
    else if Expirable(s.rows[id])
    then Refresh(l.call, Copy(Record(id, ExpireRow(s.rows[id])), copy.since, s.clock + 1), now)
    else Rereading(l.call, copy, now)
  }

  ghost function Next(s: State, step: Step): State
    requires Enabled(s, step)
  {
    match step
    case Begin(pid, call) => Moved(s, pid, Judged(call))
    case AuditDirect(pid, written) =>
      // auto and notify are allowed once their row is written; deny is deny either way
      var call := s.calls[pid].call;
      var allowed := Unattendable(call.outcome.decision) && written;
      Moved(s.(proved := if written then s.proved + {pid} else s.proved), pid,
            Answered(call, if allowed then Allow(Unattended) else Refuse))
    case Lookup(pid, found) =>
      var call := s.calls[pid].call;
      if found.Some? then Moved(s, pid, Looked(call, Some(Found(s, found.value, s.clock))))
      else Moved(s, pid, if call.Authorize? then Looked(call, None) else Answered(call, Absent))
    case ExpireStep(pid, now) =>
      var l := s.calls[pid];
      Moved(s.(rows := Expire(s.rows, l.found.value.rec, now)), pid, Expiring(s, l, now))
    case Reread(pid) =>
      var l := s.calls[pid];
      Moved(s, pid, Refresh(l.call, Found(s, l.copy.rec.id, l.copy.since), l.now))
    case CreateStep(pid, now) =>
      var call := s.calls[pid].call;
      Moved(s.(rows := s.rows + [HeldRow(call, now)], attempts := s.attempts + [0]), pid, Created(call))
    case AfterCreate(pid) => Moved(s, pid, Answered(s.calls[pid].call, Hold))
    case InsertStep(pid, row) =>
      Moved(s.(rows := s.rows + [row], attempts := s.attempts + [0]), pid, Answered(s.calls[pid].call, Elsewhere))
    case ConsumeStep(pid) =>
      var l := s.calls[pid];
      Moved(s.(rows := Consume(s.rows, l.copy.rec.id, Use(pid, s.clock))), pid,
            Spent(l.call, l.copy, s.rows[l.copy.rec.id].consumedBy.None?, false))
    case AuditTerminal(pid) =>
      var l := s.calls[pid];
      Moved(s.(attempts := s.attempts[l.copy.rec.id := s.attempts[l.copy.rec.id] + 1]), pid, l.(audited := true))
    case Answer(pid) => Moved(s, pid, Answered(s.calls[pid].call, TerminalVerdict(s.calls[pid], s.clock)))
    case Fail(pid) =>
      var call := s.calls[pid].call;
      Moved(s, pid, if call.Authorize? then Outage(call) else Answered(call, Raised))
    case OutageAnswer(pid) =>
      var call := s.calls[pid].call;
      Moved(s, pid, Answered(call, if ServiceDownVerdict(call.policy, call.outcome.actionClass) == Auto
                                   then Allow(StoreDown) else Refuse))
    case WriteStep(pid) =>
      var l := s.calls[pid];
      var id := l.copy.rec.id;
      Moved(s.(rows := s.rows[id := Written(s.rows[id], l)]), pid, Answered(l.call, Decided))
  }

  /** The row after the unguarded write of a decision. */
  function Written(row: Row, l: Local): Row
    requires l.Ready? && l.call.Decision?
  {
    Overwrite(row, l.copy.rec.row, l.call.approve, l.call.who, l.now)
  }

  /** The states of the runs. */
  ghost predicate Run(states: seq<State>, steps: seq<Step>) {
    && |states| == |steps| + 1 && states[0] == INITIAL
    && forall i :: 0 <= i < |steps| ==> Enabled(states[i], steps[i]) && states[i + 1] == Next(states[i], steps[i])
  }

  // ---------------------------------------------------------------- the invariant

  /** The record concerns what the call asked about. */
  predicate Concerns(call: Call, rec: Record) {
    if call.Authorize? then Concerned(rec.row, call.tenant, call.tool, call.argsHash)
    else rec.row.tenant == call.tenant && rec.id == call.id
  }

  predicate Concerned(row: Row, tenant: string, tool: string, argsHash: string) {
    row.tenant == tenant && row.tool == tool && row.argsHash == argsHash
  }

  /** The copy is a well-formed version of the row's action, which was not consumed when `authorize` looked. */
  ghost predicate CopyOk(s: State, call: Call, copy: Copy) {
    var rec := copy.rec;
    && rec.id < |s.rows| && Descends(rec.row, s.rows[rec.id]) && RowOk(rec.row) && Concerns(call, rec)
    && copy.since <= copy.readAt <= s.clock
    && (call.Authorize? ==> Held(call))
    && (call.Authorize? && s.rows[rec.id].consumedBy.Some? ==> copy.since <= s.rows[rec.id].consumedBy.value.at)
  }

  /** The row of the copy is consumed, by this call exactly when it came first. */
  ghost predicate UsedOk(s: State, pid: nat, copy: Copy, first: bool, before: nat)
    requires copy.rec.id < |s.rows|
  {
    var used := s.rows[copy.rec.id].consumedBy;
    used.Some? && used.value.at < before <= s.clock && (first <==> used.value.call == pid)
  }

  ghost predicate Justified(s: State, pid: nat, call: Call, why: Why) {
    match why
    case Unattended => call.Authorize? && Unattendable(call.outcome.decision) && pid in s.proved
    case StoreDown =>
      && Held(call) && call.outcome.actionClass in {Some(Read), Some(Write)} && call.policy.serviceDown == Auto
    case ByHumans(copy, first, until) =>
      && CopyOk(s, call, copy) && copy.rec.row.status == Approved && (call.Authorize? || call.Poll?)
      && UsedOk(s, pid, copy, first, until)
  }

  ghost predicate LocalOk(s: State, pid: nat, l: Local) {
    match l
    case Judged(_) => true
    case Looked(call, found) =>
      if found.Some? then CopyOk(s, call, found.value) else Held(call)
    case Rereading(call, copy, _) => CopyOk(s, call, copy)
    case Created(call) => Held(call)
    case Ready(call, copy, now) => CopyOk(s, call, copy) && call.Decision? && copy.rec.row.status == Pending
    case Resolving(call, copy) => CopyOk(s, call, copy) && !call.Decision? && copy.rec.row.status != Pending
    case Spent(call, copy, first, audited) =>
      && CopyOk(s, call, copy) && !call.Decision? && copy.rec.row.status != Pending
      && UsedOk(s, pid, copy, first, s.clock)
      && (first && !audited ==> copy.rec.id < |s.attempts| && s.attempts[copy.rec.id] == 0)
    case Outage(call) => Held(call)
    case Answered(call, verdict) => verdict.Allow? ==> Justified(s, pid, call, verdict.why)
  }

  /** Only a call that went past its consumption can be recorded as the consumer. */
  predicate Past(l: Local) { l.Spent? || l.Outage? || l.Answered? }

  ghost predicate UseOk(s: State, id: nat)
    requires id < |s.rows| && id < |s.attempts|
  {
    && s.attempts[id] <= 1
    && (s.rows[id].consumedBy.None? ==> s.attempts[id] == 0)
    && (s.rows[id].consumedBy.Some? ==>
          var use := s.rows[id].consumedBy.value; use.at < s.clock && use.call in s.calls && Past(s.calls[use.call]))
  }

  ghost predicate Inv(s: State) {
    && TableOk(s.rows) && |s.attempts| == |s.rows|
    && (forall id :: 0 <= id < |s.rows| ==> UseOk(s, id))
    && (forall pid <- s.calls :: LocalOk(s, pid, s.calls[pid]))
  }

  /** What a step of the call `actor` may do to the rest: rows keep their action and their consumption, only the actor
      consumes, now, and only the consumer of an approval writes its terminal audit row. */
  ghost predicate Others(s: State, t: State, actor: nat) {
    && TableDescends(s.rows, t.rows) && |t.attempts| >= |s.attempts| == |s.rows| && s.clock < t.clock
    && s.proved <= t.proved
    && (forall id :: 0 <= id < |s.rows| && s.rows[id].consumedBy.None? && t.rows[id].consumedBy.Some? ==>
          t.rows[id].consumedBy.value == Use(actor, s.clock))
    && (forall id :: 0 <= id < |s.rows| && t.attempts[id] != s.attempts[id] ==>
          s.rows[id].consumedBy.Some? && s.rows[id].consumedBy.value.call == actor)
  }

  lemma CopyStable(s: State, t: State, actor: nat, call: Call, copy: Copy)
    requires Others(s, t, actor) && CopyOk(s, call, copy)
    ensures CopyOk(t, call, copy)
  {
    assert Descends(s.rows[copy.rec.id], t.rows[copy.rec.id]);
  }

  /** What held of another call still holds of it. */
  lemma LocalStable(s: State, t: State, actor: nat, pid: nat, l: Local)
    requires Others(s, t, actor) && LocalOk(s, pid, l) && pid != actor
    ensures LocalOk(t, pid, l)
  {
    hide RowOk;
    match l
    case Looked(call, found) => if found.Some? { CopyStable(s, t, actor, call, found.value); }
    case Rereading(call, copy, _) => CopyStable(s, t, actor, call, copy);
    case Ready(call, copy, _) => CopyStable(s, t, actor, call, copy);
    case Resolving(call, copy) => CopyStable(s, t, actor, call, copy);
    case Spent(call, copy, _, _) => CopyStable(s, t, actor, call, copy);
    case Answered(call, verdict) =>
      if verdict.Allow? && verdict.why.ByHumans? { CopyStable(s, t, actor, call, verdict.why.copy); }
    case _ =>
  }

  /** A step of one call keeps the invariant if it moves that call well and leaves the others alone. */
  lemma CallStepKeeps(s: State, t: State, actor: nat)
    requires Inv(s) && Others(s, t, actor) && TableOk(t.rows) && |t.attempts| == |t.rows|
    requires actor in t.calls && LocalOk(t, actor, t.calls[actor])
    requires forall pid <- t.calls :: pid == actor || (pid in s.calls && t.calls[pid] == s.calls[pid])
    requires forall pid <- s.calls :: pid in t.calls && (Past(s.calls[pid]) ==> Past(t.calls[pid]))
    requires forall id :: 0 <= id < |t.rows| ==> UseOk(t, id)
    ensures Inv(t)
  {
    forall pid <- t.calls ensures LocalOk(t, pid, t.calls[pid]) {
      if pid != actor { LocalStable(s, t, actor, pid, s.calls[pid]); }
    }
  }

  /** Consumptions and counts stay valid when neither changes. */
  lemma UsesStable(s: State, t: State)
    requires Inv(s) && SameUses(s.rows, t.rows) && t.attempts == s.attempts && s.clock <= t.clock
    requires forall pid <- s.calls :: pid in t.calls && (Past(s.calls[pid]) ==> Past(t.calls[pid]))
    ensures forall id :: 0 <= id < |t.rows| ==> UseOk(t, id)
  {
    forall id | 0 <= id < |t.rows| ensures UseOk(t, id) {
      assert UseOk(s, id);
    }
  }

  /** A step that consumes nothing and counts nothing. */
  lemma QuietStepKeeps(s: State, t: State, actor: nat, l: Local)
    requires Inv(s) && TableOk(t.rows) && TableDescends(s.rows, t.rows) && SameUses(s.rows, t.rows)
    requires t.attempts == s.attempts && s.proved <= t.proved && t.clock == s.clock + 1
    requires t.calls == s.calls[actor := l] && LocalOk(t, actor, l)
    requires actor in s.calls && Past(s.calls[actor]) ==> Past(l)
    ensures Inv(t)
  {
    UsesStable(s, t);
    CallStepKeeps(s, t, actor);
  }

  /** The row read now is a version of itself. */
  lemma FoundOk(s: State, t: State, call: Call, id: nat, since: nat)
    requires TableOk(s.rows) && id < |s.rows| && t.rows == s.rows && s.clock < t.clock && since <= s.clock
    requires Concerns(call, Record(id, s.rows[id])) && (call.Authorize? ==> Held(call))
    requires call.Authorize? && s.rows[id].consumedBy.Some? ==> since <= s.rows[id].consumedBy.value.at
    ensures CopyOk(t, call, Found(s, id, since))
  {
    assert RowOk(s.rows[id]);
  }

  lemma LookupKeeps(s: State, pid: nat, found: Option<nat>)
    requires Inv(s) && Enabled(s, Lookup(pid, found))
    ensures Inv(Next(s, Lookup(pid, found)))
  {
    var t := Next(s, Lookup(pid, found));
    if found.Some? { FoundOk(s, t, s.calls[pid].call, found.value, s.clock); }
    QuietStepKeeps(s, t, pid, t.calls[pid]);
  }

  lemma RereadKeeps(s: State, pid: nat)
    requires Inv(s) && Enabled(s, Reread(pid))
    ensures Inv(Next(s, Reread(pid)))
  {
    var l := s.calls[pid];
    assert LocalOk(s, pid, l);
    var t := Next(s, Reread(pid));
    FoundOk(s, t, l.call, l.copy.rec.id, l.copy.since);
    QuietStepKeeps(s, t, pid, t.calls[pid]);
  }

  lemma AnswerKeeps(s: State, pid: nat)
    requires Inv(s) && Enabled(s, Answer(pid))
    ensures Inv(Next(s, Answer(pid)))
  {
    var l := s.calls[pid];
    assert LocalOk(s, pid, l);
    var t := Next(s, Answer(pid));
    assert CopyOk(t, l.call, l.copy);
    QuietStepKeeps(s, t, pid, t.calls[pid]);
  }

  /** The record that `expire_if_needed` returns is a version of the row as it is then. */
  lemma ExpiringOk(s: State, t: State, pid: nat, l: Local, now: int)
    requires TableOk(s.rows) && LocalOk(s, pid, l) && l.Looked? && l.found.Some?
    requires t.rows == Expire(s.rows, l.found.value.rec, now) && t.clock == s.clock + 1
    ensures LocalOk(t, pid, Expiring(s, l, now))
  {
    var copy := l.found.value;
    ExpireRowOk(s.rows[copy.rec.id]);
    if Lapsed(copy.rec, now) && Expirable(s.rows[copy.rec.id]) {
      assert CopyOk(t, l.call, Copy(Record(copy.rec.id, ExpireRow(s.rows[copy.rec.id])), copy.since, s.clock + 1));
    } else {
      assert t.rows == s.rows;
      assert CopyOk(t, l.call, copy);
    }
  }

  lemma ExpireStepKeeps(s: State, pid: nat, now: int)
    requires Inv(s) && Enabled(s, ExpireStep(pid, now))
    ensures Inv(Next(s, ExpireStep(pid, now)))
  {
    var l := s.calls[pid];
    assert LocalOk(s, pid, l);
    var t := Next(s, ExpireStep(pid, now));
    hide Expire, Expiring, ExpireRow, RowOk, LocalOk, CopyOk;
    ExpireKeeps(s.rows, l.found.value.rec, now);
    ExpireKeepsUses(s.rows, l.found.value.rec, now);
    ExpiringOk(s, t, pid, l, now);
    QuietStepKeeps(s, t, pid, t.calls[pid]);
  }

  lemma CreateStepKeeps(s: State, pid: nat, now: int)
    requires Inv(s) && Enabled(s, CreateStep(pid, now))
    ensures Inv(Next(s, CreateStep(pid, now)))
  {
    var l := s.calls[pid];
    assert LocalOk(s, pid, l);
    var t := Next(s, CreateStep(pid, now));
    InsertKeeps(s, t, pid, HeldRow(l.call, now));
  }

  lemma InsertStepKeeps(s: State, pid: nat, row: Row)
    requires Inv(s) && Enabled(s, InsertStep(pid, row))
    ensures Inv(Next(s, InsertStep(pid, row)))
  {
    InsertKeeps(s, Next(s, InsertStep(pid, row)), pid, row);
  }

  /** One row more. */
  lemma InsertKeeps(s: State, t: State, pid: nat, row: Row)
    requires Inv(s) && RowOk(row) && row.consumedBy.None? && pid in t.calls && LocalOk(t, pid, t.calls[pid])
    requires t == s.(rows := s.rows + [row], attempts := s.attempts + [0], calls := s.calls[pid := t.calls[pid]],
                     clock := s.clock + 1)
    requires pid in s.calls && Past(s.calls[pid]) ==> Past(t.calls[pid])
    ensures Inv(t)
  {
    CreateKeeps(s.rows, row);
    hide RowOk, LocalOk;
    forall id | 0 <= id < |t.rows| ensures UseOk(t, id) {
      if id < |s.rows| { assert UseOk(s, id); }
    }
    CallStepKeeps(s, t, pid);
  }

  lemma ConsumeStepKeeps(s: State, pid: nat)
    requires Inv(s) && Enabled(s, ConsumeStep(pid))
    ensures Inv(Next(s, ConsumeStep(pid)))
  {
    var l := s.calls[pid];
    var id := l.copy.rec.id;
    assert LocalOk(s, pid, l);
    assert UseOk(s, id);
    var t := Next(s, ConsumeStep(pid));
    hide RowOk, Concerns, Held;
    ConsumeKeeps(s.rows, id, Use(pid, s.clock));
    assert CopyOk(t, l.call, l.copy);
    forall i | 0 <= i < |t.rows| ensures UseOk(t, i) {
      assert UseOk(s, i);
    }
    CallStepKeeps(s, t, pid);
  }

  lemma AuditTerminalKeeps(s: State, pid: nat)
    requires Inv(s) && Enabled(s, AuditTerminal(pid))
    ensures Inv(Next(s, AuditTerminal(pid)))
  {
    var l := s.calls[pid];
    assert LocalOk(s, pid, l);
    var t := Next(s, AuditTerminal(pid));
    assert CopyOk(t, l.call, l.copy);
    forall id | 0 <= id < |t.rows| ensures UseOk(t, id) {
      assert UseOk(s, id);
    }
    CallStepKeeps(s, t, pid);
  }

  lemma WriteStepKeeps(s: State, pid: nat)
    requires Inv(s) && Enabled(s, WriteStep(pid))
    ensures Inv(Next(s, WriteStep(pid)))
  {
    var l := s.calls[pid];
    var id := l.copy.rec.id;
    assert LocalOk(s, pid, l);
    var t := Next(s, WriteStep(pid));
    assert LocalOk(t, pid, t.calls[pid]);
    assert RowOk(s.rows[id]);
    OverwriteOk(s.rows[id], l.copy.rec.row, l.call.approve, l.call.who, l.now);
    ReplaceRow(s.rows, id, Written(s.rows[id], l));
    hide RowOk, LocalOk, Written;
    QuietStepKeeps(s, t, pid, t.calls[pid]);
  }

  lemma StepKeeps(s: State, step: Step)
    requires Inv(s) && Enabled(s, step)
    ensures Inv(Next(s, step))
  {
    match step
    case Lookup(pid, found) => LookupKeeps(s, pid, found);
    case Answer(pid) => AnswerKeeps(s, pid);
    case ExpireStep(pid, now) => ExpireStepKeeps(s, pid, now);
    case Reread(pid) => RereadKeeps(s, pid);
    case CreateStep(pid, now) => CreateStepKeeps(s, pid, now);
    case InsertStep(pid, row) => InsertStepKeeps(s, pid, row);
    case ConsumeStep(pid) => ConsumeStepKeeps(s, pid);
    case AuditTerminal(pid) => AuditTerminalKeeps(s, pid);
    case WriteStep(pid) => WriteStepKeeps(s, pid);
    case _ => PlainStepKeeps(s, step);
  }

  /** The steps that leave the approvals and the counts alone. */
  lemma PlainStepKeeps(s: State, step: Step)
    requires Inv(s) && Enabled(s, step)
    requires step.Begin? || step.AuditDirect? || step.AfterCreate? || step.OutageAnswer? || step.Fail?
    ensures Inv(Next(s, step))
  {
    if !step.Begin? { assert LocalOk(s, step.pid, s.calls[step.pid]); }
    QuietStepKeeps(s, Next(s, step), step.pid, Next(s, step).calls[step.pid]);
  }

  ghost predicate Reachable(s: State) {
    exists states: seq<State>, steps: seq<Step> :: Run(states, steps) && states[|states| - 1] == s
  }

  lemma {:induction false} RunKeeps(states: seq<State>, steps: seq<Step>, i: nat)
    requires Run(states, steps) && i < |states|
    ensures Inv(states[i])
  {
    if i > 0 {
      RunKeeps(states, steps, i - 1);
      StepKeeps(states[i - 1], steps[i - 1]);
    }
  }

  /** Every reachable state is well formed. */
  lemma ReachableOk(s: State)
    requires Reachable(s)
    ensures Inv(s)
  {
    var states: seq<State>, steps: seq<Step> :| Run(states, steps) && states[|states| - 1] == s;
    RunKeeps(states, steps, |states| - 1);
  }

  lemma Extended(states: seq<State>, steps: seq<Step>, step: Step)
    requires Run(states, steps) && Enabled(states[|states| - 1], step)
    ensures Run(states + [Next(states[|states| - 1], step)], steps + [step])
  {
    var s := states[|states| - 1];
    var states', steps' := states + [Next(s, step)], steps + [step];
    forall i | 0 <= i < |steps'|
      ensures Enabled(states'[i], steps'[i]) && states'[i + 1] == Next(states'[i], steps'[i])
    {
      if i < |steps| { assert states'[i] == states[i] && states'[i + 1] == states[i + 1]; }
    }
  }

  lemma NextReachable(s: State, step: Step)
    requires Reachable(s) && Enabled(s, step)
    ensures Reachable(Next(s, step))
  {
    var states: seq<State>, steps: seq<Step> :| Run(states, steps) && states[|states| - 1] == s;
    Extended(states, steps, step);
    assert (states + [Next(s, step)])[|states|] == Next(s, step);
  }

  // ---------------------------------------------------------------- what every run guarantees

  /** In every run, whatever the decisions overwrite: no approval carries more signatures than it requires, one that is
      approved carries exactly that many, of distinct people, and at most one attempt is made to write its terminal
      audit row, after it was consumed. */
  lemma ApprovalsAreSound(s: State, id: nat)
    requires Reachable(s) && id < |s.rows|
    ensures |s.rows[id].approvedBy| <= s.rows[id].required
    ensures s.rows[id].status == Approved ==> |s.rows[id].approvedBy| == s.rows[id].required >= 1
    ensures id < |s.attempts| && s.attempts[id] <= (if s.rows[id].consumedBy.Some? then 1 else 0)
  {
    ReachableOk(s);
    assert UseOk(s, id) && RowOk(s.rows[id]);
  }

  /** What a human verdict rests on: a version of the approval that was approved, with the exact number of distinct
      people that the approval requires. */
  predicate RestsOn(s: State, call: Call, rec: Record) {
    && rec.id < |s.rows| && SameAction(rec.row, s.rows[rec.id]) && Concerns(call, rec)
    && rec.row.status == Approved && |rec.row.approvedBy| == rec.row.required >= 1
  }

  /** Every `allow`, under every schedule of faults and interleavings: the guarded verdict was auto or notify and the
      audit row of the call was written; or the call read an approval of the same tenant, tool and arguments that was
      approved by exactly the people it requires; or the approval service was down, the class is read or write, and the
      tenant declared that such actions run then. */
  lemma AllowIsJustified(s: State, pid: nat)
    requires Reachable(s) && pid in s.calls && s.calls[pid].Answered? && s.calls[pid].verdict.Allow?
    ensures var call, why := s.calls[pid].call, s.calls[pid].verdict.why;
            match why
            case Unattended => call.Authorize? && Unattendable(call.outcome.decision) && pid in s.proved
            case ByHumans(copy, _, _) =>
              (Held(call) || call.Poll?) && RestsOn(s, call, copy.rec)
            case StoreDown =>
              && Held(call) && call.outcome.actionClass in {Some(Read), Some(Write)} && call.policy.serviceDown == Auto
  {
    ReachableOk(s);
    assert LocalOk(s, pid, s.calls[pid]);
  }

  /** From the policy to the verdict: a call that the policy itself, or its classification, sends to a human is allowed
      only through an approval, or for a read or a write while the approval service is down. */
  lemma HumanVerdictsNeedHumans(s: State, pid: nat, tool: string, arguments: Arguments, x: Guards.Oracles)
    requires Reachable(s) && pid in s.calls && s.calls[pid].Answered? && s.calls[pid].verdict.Allow?
    requires var call := s.calls[pid].call;
             call.Authorize? && call.outcome == Guards.FinalOutcome(call.policy, tool, arguments, x)
    requires var first := Evaluate(s.calls[pid].call.policy, tool, arguments, x.byName);
             var c := s.calls[pid].call.outcome.actionClass;
             || AtLeast(first.decision, HumanInTheLoop)
             || ((first.ambiguous || first.reason == ArgumentClassified) && c.Some? && Dangerous(c.value))
    ensures var call, why := s.calls[pid].call, s.calls[pid].verdict.why;
            || (why.ByHumans? && RestsOn(s, call, why.copy.rec))
            || (why == StoreDown && call.outcome.actionClass in {Some(Read), Some(Write)}
                 && call.policy.serviceDown == Auto)
  {
    var call := s.calls[pid].call;
    AllowIsJustified(s, pid);
    Guards.GuardsOnlyTighten(call.policy, tool, arguments, x);
    var first := Evaluate(call.policy, tool, arguments, x.byName);
    if first.ambiguous || first.reason == ArgumentClassified {
      if call.outcome.actionClass.Some? && Dangerous(call.outcome.actionClass.value) {
        Guards.DangerousIsHeld(call.policy, tool, arguments, x);
      }
    }
  }

  /** A call of `authorize` that people allowed, and the evidence it took. */
  ghost predicate AllowedBy(s: State, pid: nat, copy: Copy, first: bool, until: nat) {
    && pid in s.calls && s.calls[pid].Answered? && s.calls[pid].call.Authorize?
    && s.calls[pid].verdict == Allow(ByHumans(copy, first, until))
  }

  /** When a call is let through by as many people as it demands: exactly when the approval that `find_active` returned
      requires as many, which `find_active` does not look at. */
  lemma DemandedQuorumIff(s: State, pid: nat, copy: Copy, first: bool, until: nat)
    requires Reachable(s) && AllowedBy(s, pid, copy, first, until)
    ensures var row, demanded := copy.rec.row, Required(s.calls[pid].call.outcome.decision);
            && copy.rec.id < |s.rows| && s.rows[copy.rec.id].required == row.required
            && (|row.approvedBy| >= demanded <==> row.required >= demanded)
  {
    ReachableOk(s);
    assert LocalOk(s, pid, s.calls[pid]);
  }

  /** An approval lets a call through only if it was consumed after the lookup of that call and before its answer; the
      call repeats an allowance exactly when it was another call that consumed it then. */
  lemma RepeatIffConsumedMeanwhile(s: State, pid: nat, copy: Copy, first: bool, until: nat)
    requires Reachable(s) && AllowedBy(s, pid, copy, first, until)
    ensures copy.rec.id < |s.rows| && s.rows[copy.rec.id].consumedBy.Some?
    ensures var use := s.rows[copy.rec.id].consumedBy.value;
            copy.since <= use.at < until && (!first <==> use.call != pid)
  {
    ReachableOk(s);
    assert LocalOk(s, pid, s.calls[pid]);
  }

  /** Two calls that the same approval lets through overlap in time, and at most one of them is the first; so calls
      for one action that do not overlap never share an approval. */
  lemma SharedApprovalsNeedOverlap(s: State, p: nat, q: nat, a: Copy, b: Copy, f: bool, g: bool, u: nat, v: nat)
    requires Reachable(s) && p != q && AllowedBy(s, p, a, f, u) && AllowedBy(s, q, b, g, v) && a.rec.id == b.rec.id
    ensures !(f && g) && a.since < v && b.since < u
  {
    RepeatIffConsumedMeanwhile(s, p, a, f, u);
    RepeatIffConsumedMeanwhile(s, q, b, g, v);
  }
}
