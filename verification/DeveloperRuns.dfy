/** Workstation approvals (`core/developer_approvals.py`) as interleaved calls: the lookup, the lazy expiry, the read
    that may follow it and the guarded update of each call are separate steps, while people decide and every other
    caller changes the same table. */
module DeveloperRuns {

  import opened Basics
  import opened PolicyEngine
  import opened Approvals

  /** What ties an approval to a device, a policy version and one local action. */
  datatype Tag = Tag(device: string, requestId: string, policyId: string, version: int, action: string)

  datatype Call =
    | Request(tenant: string, tag: Tag, tool: string, actionClass: ActionClass)
    | ConsumeIfApproved(tenant: string, id: nat, device: string, policyId: string, version: int, action: string)

  /** `consumed` carries the row as it was when it was consumed. */
  datatype Reply =
    | NotAssigned
    | BindingConflict
    | AlreadyInserted
    | View(id: nat, status: Status)
    | NotFound
    | Consumed(id: nat, at: int, seen: Row)

  datatype Local =
    | Started(call: Call)
    | Missing(call: Call)
    | Found(call: Call, rec: Record)
    | Rereading(call: Call, rec: Record)
    | Checked(call: Call, rec: Record)
    | Replied(call: Call, reply: Reply)

  /** Rows without a tag belong to the other product. */
  datatype State = State(rows: seq<Row>, tags: seq<Option<Tag>>, calls: map<nat, Local>, clock: nat)

  const INITIAL := State([], [], map[], 0)

  const TTL: int := 300

  predicate IsRequest(row: Row, tag: Option<Tag>, tenant: string, device: string, requestId: string) {
    row.tenant == tenant && tag.Some? && tag.value.device == device && tag.value.requestId == requestId
  }

  /** The row of a request, if there is one. */
  predicate Located(s: State, tenant: string, device: string, requestId: string, found: Option<nat>) {
    match found
    case None =>
      forall i :: 0 <= i < |s.rows| && i < |s.tags| ==> !IsRequest(s.rows[i], s.tags[i], tenant, device, requestId)
    case Some(id) => id < |s.rows| && id < |s.tags| && IsRequest(s.rows[id], s.tags[id], tenant, device, requestId)
  }

  predicate SameBinding(tag: Tag, policyId: string, version: int, action: string) {
    tag.policyId == policyId && tag.version == version && tag.action == action
  }

  /** The row that a workstation may consume: the same tenant, device, policy version and action. */
  predicate MayConsume(rows: seq<Row>, tags: seq<Option<Tag>>, call: Call, id: nat) {
    && call.ConsumeIfApproved? && id < |rows| && id < |tags| && rows[id].tenant == call.tenant && tags[id].Some?
    && tags[id].value.device == call.device && SameBinding(tags[id].value, call.policyId, call.version, call.action)
  }

  function RequestRow(call: Call, now: int): Row
    requires call.Request?
  {
    NewRow(call.tenant, "developer-guard." + call.tool, call.tag.action, Some(call.actionClass), 1, now, now + TTL)
  }

  datatype Step =
    | Begin(pid: nat, call: Call)
    | LookupRequest(pid: nat, inForce: bool, found: Option<nat>)
    | Insert(pid: nat, now: int)
    | LookupConsume(pid: nat)
    | ExpireStep(pid: nat, now: int)
    | Reread(pid: nat)
    | GuardedUpdate(pid: nat, now: int)
    | Elsewhere(rows: seq<Row>)

  /** What other callers may do to the table: rows change, but keep their action and their consumption, rows are added,
      and what others consume is not ours. */
  ghost predicate Foreign(s: State, rows: seq<Row>) {
    && TableOk(rows) && TableDescends(s.rows, rows)
    && forall id :: 0 <= id < |s.rows| && s.rows[id].consumedBy.None? && rows[id].consumedBy.Some? ==>
         rows[id].consumedBy.value.call !in s.calls
  }

  ghost predicate Enabled(s: State, step: Step) {
    match step
    case Begin(pid, _) =>
      && pid !in s.calls
      && forall id ::
           0 <= id < |s.rows| && s.rows[id].consumedBy.Some? ==> s.rows[id].consumedBy.value.call != pid
    case LookupRequest(pid, _, found) =>
      && pid in s.calls && s.calls[pid].Started? && s.calls[pid].call.Request?
      && Located(s, s.calls[pid].call.tenant, s.calls[pid].call.tag.device, s.calls[pid].call.tag.requestId, found)
    case Insert(pid, _) => pid in s.calls && s.calls[pid].Missing? && s.calls[pid].call.Request?
    case LookupConsume(pid) => pid in s.calls && s.calls[pid].Started? && s.calls[pid].call.ConsumeIfApproved?
    case ExpireStep(pid, _) => pid in s.calls && s.calls[pid].Found? && s.calls[pid].rec.id < |s.rows|
    case Reread(pid) => pid in s.calls && s.calls[pid].Rereading? && s.calls[pid].rec.id < |s.rows|
    case GuardedUpdate(pid, _) => pid in s.calls && s.calls[pid].Checked? && s.calls[pid].rec.id < |s.rows|
    case Elsewhere(rows) => Foreign(s, rows)
  }

  function Moved(s: State, pid: nat, l: Local): State { s.(calls := s.calls[pid := l], clock := s.clock + 1) }

  /** Once the record is refreshed, a request is answered and a consumption goes on. */
  function Refresh(call: Call, rec: Record): Local {
    if call.Request? then Replied(call, View(rec.id, rec.row.status)) else Checked(call, rec)
  }

  function NoTags(n: nat): seq<Option<Tag>> { seq(n, _ => None) }

  ghost function Next(s: State, step: Step): State
    requires Enabled(s, step)
  {
    match step
    case Begin(pid, call) => Moved(s, pid, Started(call))
    case LookupRequest(pid, inForce, found) =>
      var call := s.calls[pid].call;
      Moved(s, pid,
            if !inForce then Replied(call, NotAssigned)
            else if found.None? then Missing(call)
            else if !SameBinding(s.tags[found.value].value, call.tag.policyId, call.tag.version, call.tag.action)
            then Replied(call, BindingConflict)
            else Found(call, Record(found.value, s.rows[found.value])))
    case Insert(pid, now) =>
      var call := s.calls[pid].call;
      // the unique index on tenant, device and request refuses a second row
      if exists i :: 0 <= i < |s.rows| && i < |s.tags| &&
                     IsRequest(s.rows[i], s.tags[i], call.tenant, call.tag.device, call.tag.requestId)
      then Moved(s, pid, Replied(call, AlreadyInserted))
      else Moved(s.(rows := s.rows + [RequestRow(call, now)], tags := s.tags + [Some(call.tag)]), pid,
                 Replied(call, View(|s.rows|, Pending)))
    case LookupConsume(pid) =>
      var call := s.calls[pid].call;
      Moved(s, pid, if MayConsume(s.rows, s.tags, call, call.id) then Found(call, Record(call.id, s.rows[call.id]))
                    else Replied(call, NotFound))
    case ExpireStep(pid, now) =>
      var l := s.calls[pid];
      var row := s.rows[l.rec.id];
      Moved(s.(rows := Expire(s.rows, l.rec, now)), pid,
            if !Lapsed(l.rec, now) then Refresh(l.call, l.rec)
            else if Expirable(row) then Refresh(l.call, Record(l.rec.id, ExpireRow(row)))
            else Rereading(l.call, l.rec))
    case Reread(pid) =>
      var l := s.calls[pid];
      Moved(s, pid, Refresh(l.call, Record(l.rec.id, s.rows[l.rec.id])))
    case GuardedUpdate(pid, now) =>
      var l := s.calls[pid];
      var row := s.rows[l.rec.id];
      if l.rec.row.status == Approved && MayConsume(s.rows, s.tags, l.call, l.rec.id)
         && row.status == Approved && row.expiresAt > now && row.consumedBy.None?
      then Moved(s.(rows := Consume(s.rows, l.rec.id, Use(pid, s.clock))), pid,
                 Replied(l.call, Consumed(l.rec.id, now, row)))
      else Moved(s, pid, Replied(l.call, View(l.rec.id, l.rec.row.status)))
    case Elsewhere(rows) => s.(rows := rows, tags := s.tags + NoTags(|rows| - |s.rows|), clock := s.clock + 1)
  }

  ghost predicate Run(states: seq<State>, steps: seq<Step>) {
    && |states| == |steps| + 1 && states[0] == INITIAL
    && forall i :: 0 <= i < |steps| ==> Enabled(states[i], steps[i]) && states[i + 1] == Next(states[i], steps[i])
  }

  // ---------------------------------------------------------------- the invariant

  /** One row per request of a device. */
  ghost predicate Unique(s: State) {
    forall i, j :: 0 <= i < j < |s.rows| && j < |s.tags| && s.tags[i].Some? && s.tags[j].Some? &&
                   s.rows[i].tenant == s.rows[j].tenant && s.tags[i].value.device == s.tags[j].value.device
                   ==> s.tags[i].value.requestId != s.tags[j].value.requestId
  }

  /** A workstation approval demands one person and lives five minutes. */
  ghost predicate ShortLived(s: State) {
    forall i :: 0 <= i < |s.rows| && i < |s.tags| && s.tags[i].Some? ==>
      s.rows[i].expiresAt == s.rows[i].createdAt + TTL && s.rows[i].required == 1
  }

  ghost predicate RecordOk(s: State, call: Call, rec: Record) {
    && rec.id < |s.rows| && rec.id < |s.tags| && Descends(rec.row, s.rows[rec.id])
    && (call.ConsumeIfApproved? ==> rec.id == call.id && MayConsume(s.rows, s.tags, call, rec.id))
    && (call.Request? ==> Requested(s, call, rec.id))
  }

  /** The row was made for this very request. */
  predicate Requested(s: State, call: Call, id: nat) {
    && call.Request? && id < |s.rows| && id < |s.tags|
    && IsRequest(s.rows[id], s.tags[id], call.tenant, call.tag.device, call.tag.requestId)
    && SameBinding(s.tags[id].value, call.tag.policyId, call.tag.version, call.tag.action)
  }

  /** `consumed` is returned for an approved, unexpired approval of the same binding, which this call consumed. */
  ghost predicate ConsumedOk(s: State, pid: nat, call: Call, id: nat, at: int, seen: Row) {
    && call.ConsumeIfApproved? && id == call.id && MayConsume(s.rows, s.tags, call, id) && SameAction(seen, s.rows[id])
    && seen.status == Approved && |seen.approvedBy| == seen.required && at < seen.expiresAt
    && s.rows[id].consumedBy.Some? && s.rows[id].consumedBy.value.call == pid
  }

  ghost predicate LocalOk(s: State, pid: nat, l: Local) {
    match l
    case Started(_) => true
    case Missing(call) => call.Request?
    case Found(call, rec) => RecordOk(s, call, rec)
    case Rereading(call, rec) => RecordOk(s, call, rec)
    case Checked(call, rec) => call.ConsumeIfApproved? && RecordOk(s, call, rec)
    case Replied(call, Consumed(id, at, seen)) => ConsumedOk(s, pid, call, id, at, seen)
    case Replied(call, View(id, _)) => call.Request? ==> Requested(s, call, id)
    case Replied(call, _) => true
  }

  ghost predicate Inv(s: State) {
    && TableOk(s.rows) && |s.tags| == |s.rows| && Unique(s) && ShortLived(s)
    && forall pid <- s.calls :: LocalOk(s, pid, s.calls[pid])
  }

  /** The table only grows, its rows keep their action and their consumption; tags stay. */
  ghost predicate Grows(s: State, t: State) {
    TableDescends(s.rows, t.rows) && |s.tags| == |s.rows| && s.tags <= t.tags && |t.tags| == |t.rows|
  }

  lemma RecordStable(s: State, t: State, call: Call, rec: Record)
    requires Grows(s, t) && RecordOk(s, call, rec)
    ensures RecordOk(t, call, rec)
  {
    assert Descends(s.rows[rec.id], t.rows[rec.id]);
  }

  lemma LocalStable(s: State, t: State, pid: nat, l: Local)
    requires Grows(s, t) && LocalOk(s, pid, l)
    ensures LocalOk(t, pid, l)
  {
    match l
    case Found(call, rec) => RecordStable(s, t, call, rec);
    case Rereading(call, rec) => RecordStable(s, t, call, rec);
    case Checked(call, rec) => RecordStable(s, t, call, rec);
    case _ =>
  }

  /** One row more, or none, keeps the rows of requests unique when the index allows it. */
  lemma UniqueGrows(s: State, t: State)
    requires Unique(s) && Grows(s, t)
    requires forall j :: |s.rows| <= j < |t.rows| && t.tags[j].Some? ==>
               forall i :: 0 <= i < |t.rows| && i != j ==>
                 !IsRequest(t.rows[i], t.tags[i], t.rows[j].tenant, t.tags[j].value.device, t.tags[j].value.requestId)
    ensures Unique(t)
  {
    forall i, j | 0 <= i < j < |t.rows| && t.tags[i].Some? && t.tags[j].Some? && t.rows[i].tenant == t.rows[j].tenant
                  && t.tags[i].value.device == t.tags[j].value.device
      ensures t.tags[i].value.requestId != t.tags[j].value.requestId
    {
      if j < |s.rows| {
        assert s.tags[i] == t.tags[i] && s.tags[j] == t.tags[j];
        assert SameAction(s.rows[i], t.rows[i]) && SameAction(s.rows[j], t.rows[j]);
      } else {
        assert !IsRequest(t.rows[i], t.tags[i], t.rows[j].tenant, t.tags[j].value.device, t.tags[j].value.requestId);
      }
    }
  }

  lemma ShortLivedGrows(s: State, t: State)
    requires ShortLived(s) && Grows(s, t)
    requires forall j :: |s.rows| <= j < |t.rows| && t.tags[j].Some? ==>
               t.rows[j].expiresAt == t.rows[j].createdAt + TTL && t.rows[j].required == 1
    ensures ShortLived(t)
  {
    forall i | 0 <= i < |t.rows| && t.tags[i].Some?
      ensures t.rows[i].expiresAt == t.rows[i].createdAt + TTL && t.rows[i].required == 1
    {
      if i < |s.rows| {
        assert s.tags[i] == t.tags[i];
        assert SameAction(s.rows[i], t.rows[i]);
      }
    }
  }

  lemma CallStepKeeps(s: State, t: State, pid: nat, l: Local)
    requires Inv(s) && Grows(s, t) && TableOk(t.rows) && Unique(t) && ShortLived(t)
    requires t.calls == s.calls[pid := l] && LocalOk(t, pid, l)
    ensures Inv(t)
  {
    forall q <- t.calls ensures LocalOk(t, q, t.calls[q]) {
      if q != pid { LocalStable(s, t, q, s.calls[q]); }
    }
  }

  lemma InsertKeeps(s: State, pid: nat, now: int)
    requires Inv(s) && Enabled(s, Insert(pid, now))
    ensures Inv(Next(s, Insert(pid, now)))
  {
    var t := Next(s, Insert(pid, now));
    if |t.rows| > |s.rows| {
      CreateKeeps(s.rows, RequestRow(s.calls[pid].call, now));
      UniqueGrows(s, t);
      ShortLivedGrows(s, t);
    }
    CallStepKeeps(s, t, pid, t.calls[pid]);
  }

  lemma ExpireStepKeeps(s: State, pid: nat, now: int)
    requires Inv(s) && Enabled(s, ExpireStep(pid, now))
    ensures Inv(Next(s, ExpireStep(pid, now)))
  {
    var l := s.calls[pid];
    assert LocalOk(s, pid, l);
    var t := Next(s, ExpireStep(pid, now));
    ExpireKeeps(s.rows, l.rec, now);
    ExpireRowOk(s.rows[l.rec.id]);
    UniqueGrows(s, t);
    ShortLivedGrows(s, t);
    RecordStable(s, t, l.call, l.rec);
    CallStepKeeps(s, t, pid, t.calls[pid]);
  }

  lemma RereadKeeps(s: State, pid: nat)
    requires Inv(s) && Enabled(s, Reread(pid))
    ensures Inv(Next(s, Reread(pid)))
  {
    var l := s.calls[pid];
    assert LocalOk(s, pid, l);
    CallStepKeeps(s, Next(s, Reread(pid)), pid, Next(s, Reread(pid)).calls[pid]);
  }

  lemma GuardedUpdateKeeps(s: State, pid: nat, now: int)
    requires Inv(s) && Enabled(s, GuardedUpdate(pid, now))
    ensures Inv(Next(s, GuardedUpdate(pid, now)))
  {
    var l := s.calls[pid];
    assert LocalOk(s, pid, l);
    var t := Next(s, GuardedUpdate(pid, now));
    ConsumeKeeps(s.rows, l.rec.id, Use(pid, s.clock));
    assert RowOk(s.rows[l.rec.id]);
    UniqueGrows(s, t);
    ShortLivedGrows(s, t);
    CallStepKeeps(s, t, pid, t.calls[pid]);
  }

  lemma ElsewhereKeeps(s: State, rows: seq<Row>)
    requires Inv(s) && Foreign(s, rows)
    ensures Inv(Next(s, Elsewhere(rows)))
  {
    var t := Next(s, Elsewhere(rows));
    UniqueGrows(s, t);
    ShortLivedGrows(s, t);
    forall q <- t.calls ensures LocalOk(t, q, t.calls[q]) {
      LocalStable(s, t, q, s.calls[q]);
    }
  }

  lemma LookupRequestKeeps(s: State, pid: nat, inForce: bool, found: Option<nat>)
    requires Inv(s) && Enabled(s, LookupRequest(pid, inForce, found))
    ensures Inv(Next(s, LookupRequest(pid, inForce, found)))
  {
    var t := Next(s, LookupRequest(pid, inForce, found));
    CallStepKeeps(s, t, pid, t.calls[pid]);
  }

  lemma StepKeeps(s: State, step: Step)
    requires Inv(s) && Enabled(s, step)
    ensures Inv(Next(s, step))
  {
    match step
    case Insert(pid, now) => InsertKeeps(s, pid, now);
    case ExpireStep(pid, now) => ExpireStepKeeps(s, pid, now);
    case Reread(pid) => RereadKeeps(s, pid);
    case GuardedUpdate(pid, now) => GuardedUpdateKeeps(s, pid, now);
    case Elsewhere(rows) => ElsewhereKeeps(s, rows);
    case Begin(pid, call) => CallStepKeeps(s, Next(s, step), pid, Started(call));
    case LookupRequest(pid, inForce, found) => LookupRequestKeeps(s, pid, inForce, found);
    case LookupConsume(pid) => CallStepKeeps(s, Next(s, step), pid, Next(s, step).calls[pid]);
  }

  /** Every state of every run is well formed. */
  lemma {:induction false} EveryStateOk(states: seq<State>, steps: seq<Step>, n: nat)
    requires Run(states, steps) && n < |states|
    ensures Inv(states[n])
  {
    if n > 0 {
      var before := states[n - 1];
      EveryStateOk(states, steps, n - 1);
      StepKeeps(before, steps[n - 1]);
    }
  }

  ghost predicate Reachable(s: State) {
    exists states: seq<State>, steps: seq<Step> :: Run(states, steps) && states[|states| - 1] == s
  }

  lemma ReachableOk(s: State)
    requires Reachable(s)
    ensures Inv(s)
  {
    var states: seq<State>, steps: seq<Step> :| Run(states, steps) && states[|states| - 1] == s;
    EveryStateOk(states, steps, |states| - 1);
  }

  lemma NextReachable(s: State, step: Step)
    requires Reachable(s) && Enabled(s, step)
    ensures Reachable(Next(s, step))
  {
    var states: seq<State>, steps: seq<Step> :| Run(states, steps) && states[|states| - 1] == s;
    var states', steps' := states + [Next(s, step)], steps + [step];
    forall i | 0 <= i < |steps'|
      ensures Enabled(states'[i], steps'[i]) && states'[i + 1] == Next(states'[i], steps'[i])
    {
      if i < |steps| { assert states'[i] == states[i] && states'[i + 1] == states[i + 1]; }
    }
    assert Run(states', steps');
  }

  // ---------------------------------------------------------------- what every run guarantees

  /** `consumed` is answered at most once per approval, and only for one that, at the moment it was consumed, stood
      approved by the one person it requires, for the same tenant, device, policy version and action, requested less
      than five minutes before. */
  lemma ConsumedExactlyOnce(states: seq<State>, steps: seq<Step>, n: nat, p: nat, q: nat)
    requires Run(states, steps) && n < |states|
    requires p in states[n].calls && states[n].calls[p].Replied? && states[n].calls[p].reply.Consumed?
    ensures var s, call, reply := states[n], states[n].calls[p].call, states[n].calls[p].reply;
            && call.ConsumeIfApproved? && reply.id == call.id && MayConsume(s.rows, s.tags, call, reply.id)
            && SameAction(reply.seen, s.rows[reply.id])
            && reply.seen.status == Approved && |reply.seen.approvedBy| == reply.seen.required == 1
            && reply.at < reply.seen.expiresAt == reply.seen.createdAt + TTL
            && (exists k :: 0 <= k < n && TakenAt(states, k, p, reply.id, reply.seen))
    ensures q in states[n].calls && states[n].calls[q].Replied? && states[n].calls[q].reply.Consumed?
            && states[n].calls[q].reply.id == states[n].calls[p].reply.id
            ==> p == q
  {
    EveryStateOk(states, steps, n);
    var s := states[n];
    assert LocalOk(s, p, s.calls[p]);
    if q in s.calls { assert LocalOk(s, q, s.calls[q]); }
    var k := ConsumedWhen(states, steps, n, p);
  }

  /** Between this state and the next, the call consumes the row, which was as `seen` and not consumed. */
  predicate TakenAt(states: seq<State>, k: nat, pid: nat, id: nat, seen: Row) {
    && k + 1 < |states| && id < |states[k].rows| && id < |states[k + 1].rows|
    && states[k].rows[id] == seen && seen.consumedBy.None?
    && states[k + 1].rows[id] == seen.(consumedBy := Some(Use(pid, states[k].clock)))
  }

  lemma ConsumedStep(s: State, step: Step, p: nat)
    requires Enabled(s, step) && p in Next(s, step).calls
    requires Next(s, step).calls[p].Replied? && Next(s, step).calls[p].reply.Consumed?
    ensures var t, reply := Next(s, step), Next(s, step).calls[p].reply;
            || (p in s.calls && s.calls[p] == t.calls[p])
            || (&& reply.id < |s.rows| && reply.id < |t.rows| && s.rows[reply.id] == reply.seen
                && reply.seen.consumedBy.None?
                && t.rows[reply.id] == reply.seen.(consumedBy := Some(Use(p, s.clock))))
  {
    hide Located, Unique, RequestRow;
  }

  lemma {:induction false} ConsumedWhen(states: seq<State>, steps: seq<Step>, n: nat, p: nat) returns (k: nat)
    requires Run(states, steps) && n < |states|
    requires p in states[n].calls && states[n].calls[p].Replied? && states[n].calls[p].reply.Consumed?
    ensures k < n && TakenAt(states, k, p, states[n].calls[p].reply.id, states[n].calls[p].reply.seen)
  {
    hide Enabled, Next;
    var s := states[n - 1];
    ConsumedStep(s, steps[n - 1], p);
    if p in s.calls && s.calls[p] == states[n].calls[p] {
      k := ConsumedWhen(states, steps, n - 1, p);
    } else {
      k := n - 1;
    }
  }

  lemma SameRequestSameRow(s: State, i: nat, j: nat, tenant: string, device: string, requestId: string)
    requires Unique(s) && i < |s.rows| && j < |s.rows| && |s.tags| == |s.rows|
    requires IsRequest(s.rows[i], s.tags[i], tenant, device, requestId)
    requires IsRequest(s.rows[j], s.tags[j], tenant, device, requestId)
    ensures i == j
  {
  }

  /** Requests are idempotent: two answers to the same request of a device name the same approval, and both requests
      carried the same policy, version and action. */
  lemma RequestsAreIdempotent(states: seq<State>, steps: seq<Step>, n: nat, p: nat, q: nat)
    requires Run(states, steps) && n < |states| && p in states[n].calls && q in states[n].calls
    requires var a, b := states[n].calls[p], states[n].calls[q];
             && a.Replied? && b.Replied? && a.reply.View? && b.reply.View? && a.call.Request? && b.call.Request?
             && a.call.tenant == b.call.tenant && a.call.tag.device == b.call.tag.device
             && a.call.tag.requestId == b.call.tag.requestId
    ensures states[n].calls[p].reply.id == states[n].calls[q].reply.id
    ensures states[n].calls[p].call.tag == states[n].calls[q].call.tag
  {
    EveryStateOk(states, steps, n);
    var s := states[n];
    var a, b := s.calls[p], s.calls[q];
    assert LocalOk(s, p, a) && LocalOk(s, q, b);
    assert Requested(s, a.call, a.reply.id) && Requested(s, b.call, b.reply.id);
    SameRequestSameRow(s, a.reply.id, b.reply.id, a.call.tenant, a.call.tag.device, a.call.tag.requestId);
  }
}
