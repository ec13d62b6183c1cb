/** Every answer to a workstation, exactly: over all runs of module `DeveloperRuns`, which reply a call gets from what
    it read and what others did meanwhile. */
module DeveloperAnswers {

  import opened Basics
  import opened Approvals
  import opened DeveloperRuns

  /** Step `k` is the one that answers the call, which keeps that answer. */
  ghost predicate RepliedAt(states: seq<State>, steps: seq<Step>, k: nat, n: nat, pid: nat) {
    && k < n < |states| && k < |steps| && !steps[k].Elsewhere? && steps[k].pid == pid
    && pid in states[k].calls && !states[k].calls[pid].Replied?
    && pid in states[n].calls && states[n].calls[pid].Replied?
    && states[k].calls[pid].call == states[n].calls[pid].call
    && pid in states[k + 1].calls && states[k + 1].calls[pid] == states[n].calls[pid]
  }

  lemma CallStep(s: State, step: Step, pid: nat)
    requires Enabled(s, step) && pid in Next(s, step).calls && Next(s, step).calls[pid].Replied?
    ensures pid in s.calls && s.calls[pid].call == Next(s, step).calls[pid].call
    ensures if s.calls[pid].Replied? then s.calls[pid] == Next(s, step).calls[pid]
            else !step.Elsewhere? && step.pid == pid
  {
    hide Located, MayConsume, IsRequest, Foreign, Expire, RequestRow;
  }

  lemma {:induction false} ReplyStep(states: seq<State>, steps: seq<Step>, n: nat, pid: nat) returns (k: nat)
    requires Run(states, steps) && n < |states| && pid in states[n].calls && states[n].calls[pid].Replied?
    ensures RepliedAt(states, steps, k, n, pid)
  {
    hide Enabled, Next;
    CallStep(states[n - 1], steps[n - 1], pid);
    if states[n - 1].calls[pid].Replied? {
      k := ReplyStep(states, steps, n - 1, pid);
    } else {
      k := n - 1;
    }
  }

  /** Row `i` was inserted for this request of this device. */
  predicate RowOfRequest(s: State, call: Call, i: nat) {
    && call.Request? && i < |s.rows| && i < |s.tags| && s.tags[i].Some?
    && (s.rows[i].tenant, s.tags[i].value.device, s.tags[i].value.requestId)
       == (call.tenant, call.tag.device, call.tag.requestId)
  }

  /** Row `i` was inserted by this tenant and device under this policy version for this action. */
  predicate RowOfCaller(s: State, call: Call, i: nat) {
    && call.ConsumeIfApproved? && i < |s.rows| && i < |s.tags| && s.tags[i].Some?
    && (s.rows[i].tenant, s.tags[i].value.device, s.tags[i].value.policyId, s.tags[i].value.version,
        s.tags[i].value.action)
       == (call.tenant, call.device, call.policyId, call.version, call.action)
  }

  /** The refusals. */
  predicate RefusalExact(s: State, step: Step, l: Local, r: Reply) {
    && (r == NotAssigned <==> step.LookupRequest? && !step.inForce)
    && (r == BindingConflict <==>
          && step.LookupRequest? && step.inForce && l.call.Request?
          && step.found.Some? && RowOfRequest(s, l.call, step.found.value)
          && var tag := s.tags[step.found.value].value;
             (tag.policyId, tag.version, tag.action) != (l.call.tag.policyId, l.call.tag.version, l.call.tag.action))
    && (r == AlreadyInserted <==> step.Insert? && exists i: nat :: i < |s.rows| && RowOfRequest(s, l.call, i))
    && (r == NotFound <==>
          step.LookupConsume? && l.call.ConsumeIfApproved? && !RowOfCaller(s, l.call, l.call.id))
  }

  /** The consumption: the record was approved when it was refreshed, and the row still is, unexpired and unconsumed. */
  predicate ConsumptionExact(s: State, step: Step, l: Local, r: Reply) {
    && (r.Consumed? <==>
          && step.GuardedUpdate? && l.Checked? && l.rec.id < |s.rows| && RowOfCaller(s, l.call, l.rec.id)
          && l.rec.row.status == Approved && s.rows[l.rec.id].status == Approved
          && step.now < s.rows[l.rec.id].expiresAt && s.rows[l.rec.id].consumedBy == None)
    && (r.Consumed? ==> r == Consumed(l.rec.id, step.now, s.rows[l.rec.id]))
  }

  /** The status after the expiry check of this step: that of the copy, or expired. */
  predicate CheckedStatus(step: Step, row: Row, status: Status) {
    && step.ExpireStep?
    && status == if row.status in {Pending, Approved} && row.expiresAt <= step.now then Expired else row.status
  }

  /** The status that is shown: of the row inserted, of the record refreshed, or of one that was not consumed. */
  predicate ViewExact(s: State, step: Step, l: Local, r: Reply) {
    r.View? ==>
      || (step.Insert? && r == View(|s.rows|, Pending))
      || (l.call.Request? && l.Found? && r.id == l.rec.id && CheckedStatus(step, l.rec.row, r.status))
      || (l.call.Request? && l.Rereading? && step.Reread? && l.rec.id < |s.rows|
          && r == View(l.rec.id, s.rows[l.rec.id].status))
      || (step.GuardedUpdate? && l.Checked? && r == View(l.rec.id, l.rec.row.status))
  }

  /** The step answers the call. */
  ghost predicate Answering(s: State, step: Step, pid: nat) {
    && Enabled(s, step) && !step.Elsewhere? && step.pid == pid && pid in s.calls && !s.calls[pid].Replied?
    && |s.tags| == |s.rows| && LocalOk(s, pid, s.calls[pid])
    && pid in Next(s, step).calls && Next(s, step).calls[pid].Replied?
  }

  lemma RefusalStep(s: State, step: Step, pid: nat)
    requires Answering(s, step, pid)
    ensures RefusalExact(s, step, s.calls[pid], Next(s, step).calls[pid].reply)
  {
    if s.calls[pid].call.Request? { RequestRows(s, s.calls[pid].call); }
    hide Expire, RequestRow, Foreign, ExpireRow, RowOfRequest, IsRequest;
  }

  lemma RequestRows(s: State, call: Call)
    requires call.Request? && |s.tags| == |s.rows|
    ensures forall i: nat :: i < |s.rows| ==>
              (RowOfRequest(s, call, i)
               <==> IsRequest(s.rows[i], s.tags[i], call.tenant, call.tag.device, call.tag.requestId))
  {
  }

  lemma ConsumptionStep(s: State, step: Step, pid: nat)
    requires Answering(s, step, pid)
    ensures ConsumptionExact(s, step, s.calls[pid], Next(s, step).calls[pid].reply)
  {
    hide Expire, RequestRow, Foreign, ExpireRow, IsRequest, Located;
  }

  lemma ViewStep(s: State, step: Step, pid: nat)
    requires Answering(s, step, pid)
    ensures ViewExact(s, step, s.calls[pid], Next(s, step).calls[pid].reply)
  {
    hide Expire, RequestRow, Foreign, IsRequest, Located, MayConsume;
  }

  /** Every reply of every run: a request is refused exactly because the policy was not in force, because its row was
      made under another binding, or because another call inserted the row since the lookup; a consumption is refused
      exactly when no such approval is bound to the caller, and answered `consumed` exactly when the record was approved
      and its row still stands approved, unexpired and unconsumed; every other reply shows a status. */
  lemma RepliesAreExact(states: seq<State>, steps: seq<Step>, n: nat, pid: nat) returns (k: nat)
    requires Run(states, steps) && n < |states| && pid in states[n].calls && states[n].calls[pid].Replied?
    ensures RepliedAt(states, steps, k, n, pid)
    ensures var (s, step, l, r) := (states[k], steps[k], states[k].calls[pid], states[n].calls[pid].reply);
            && RefusalExact(s, step, l, r) && ConsumptionExact(s, step, l, r) && ViewExact(s, step, l, r)
  {
    k := ReplyStep(states, steps, n, pid);
    EveryStateOk(states, steps, k);
    assert LocalOk(states[k], pid, states[k].calls[pid]);
    hide Next, Enabled, LocalOk, RefusalExact, ConsumptionExact, ViewExact, TableOk, Unique, ShortLived;
    RefusalStep(states[k], steps[k], pid);
    ConsumptionStep(states[k], steps[k], pid);
    ViewStep(states[k], steps[k], pid);
  }
}
