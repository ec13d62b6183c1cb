/** Every answer of the decision cycle, exactly: over all runs of module `ApprovalRuns`, which verdict a call gets from
    what it read, what was written and what failed. */
module ApprovalVerdicts {

  import opened Basics
  import opened PolicyEngine
  import opened Approvals
  import opened ApprovalRuns
  import opened ApprovalHistory

  /** Step `k` is the one that answers the call, which keeps that answer. */
  ghost predicate AnsweredAt(states: seq<State>, steps: seq<Step>, k: nat, n: nat, pid: nat) {
    && k < n < |states| && k < |steps| && steps[k].pid == pid
    && pid in states[k].calls && !states[k].calls[pid].Answered?
    && pid in states[n].calls && states[n].calls[pid].Answered?
    && states[k].calls[pid].call == states[n].calls[pid].call
    && pid in states[k + 1].calls && states[k + 1].calls[pid] == states[n].calls[pid]
  }

  lemma CallStep(s: State, step: Step, pid: nat)
    requires Enabled(s, step) && pid in Next(s, step).calls && Next(s, step).calls[pid].Answered?
    ensures pid in s.calls && s.calls[pid].call == Next(s, step).calls[pid].call
    ensures if s.calls[pid].Answered? then s.calls[pid] == Next(s, step).calls[pid] else step.pid == pid
  {
    hide Written, IsActive, Required, Expire, ExpireRow, HeldRow;
  }

  lemma {:induction false} AnswerStep(states: seq<State>, steps: seq<Step>, n: nat, pid: nat) returns (k: nat)
    requires Run(states, steps) && n < |states| && pid in states[n].calls && states[n].calls[pid].Answered?
    ensures AnsweredAt(states, steps, k, n, pid)
  {
    hide Enabled, Next;
    CallStep(states[n - 1], steps[n - 1], pid);
    if states[n - 1].calls[pid].Answered? {
      k := AnswerStep(states, steps, n - 1, pid);
    } else {
      k := n - 1;
    }
  }

  /** The record that the call refreshes at this step is pending: its copy, whose window was open at the check, or the
      row as it is read again. */
  predicate PendingRead(s: State, step: Step, l: Local) {
    || (step.ExpireStep? && l.Looked? && l.found.Some?
        && l.found.value.rec.row.status == Pending && step.now < l.found.value.rec.row.expiresAt)
    || (step.Reread? && l.Rereading? && l.copy.rec.id < |s.rows| && s.rows[l.copy.rec.id].status == Pending)
  }

  /** Refused: a verdict that does not run unattended, or one that does but was not written to the journal. */
  predicate RefusedDirectly(step: Step, l: Local) {
    && step.AuditDirect? && l.Judged? && l.call.Authorize?
    && !(l.call.outcome.decision in {Auto, Notify} && step.written)
  }

  predicate LightClass(c: Option<ActionClass>) { c in {Some(Read), Some(Write)} }

  /** Who is told to hold. */
  predicate HoldExact(s: State, step: Step, l: Local, v: Verdict) {
    v == Hold <==> !l.call.Decision? && ((step.AfterCreate? && l.Created?) || PendingRead(s, step, l))
  }

  /** Who is allowed: without a human, by an approval, or while the approval service is down. */
  ghost predicate AllowExact(s: State, step: Step, l: Local, v: Verdict) {
    && (v == Allow(Unattended) <==>
          && step.AuditDirect? && l.Judged? && l.call.Authorize?
          && l.call.outcome.decision in {Auto, Notify} && step.written)
    && (v.Allow? && v.why.ByHumans? <==>
          && step.Answer? && l.Spent? && (l.call.Authorize? || l.call.Poll?)
          && l.copy.rec.row.status == Approved && v == Allow(ByHumans(l.copy, l.first, s.clock)))
    && (v == Allow(StoreDown) <==>
          && step.OutageAnswer? && l.Outage? && l.call.Authorize?
          && LightClass(l.call.outcome.actionClass) && l.call.policy.serviceDown == Auto)
  }

  /** Who is refused. */
  ghost predicate RefuseExact(s: State, step: Step, l: Local, v: Verdict) {
    v == Refuse <==>
      || RefusedDirectly(step, l)
      || (step.Answer? && l.Spent? && (l.call.Authorize? || l.call.Poll?)
          && l.copy.rec.row.status in {Denied, Expired})
      || (step.OutageAnswer? && l.Outage? && l.call.Authorize?
          && !(LightClass(l.call.outcome.actionClass) && l.call.policy.serviceDown == Auto))
  }

  /** The other answers. */
  predicate OtherExact(s: State, step: Step, l: Local, v: Verdict) {
    && (v == Absent <==>
          && step.Lookup? && !l.call.Authorize?
          && !(l.call.id < |s.rows| && s.rows[l.call.id].tenant == l.call.tenant))
    && (v == Conflict <==> l.call.Decision? && (step.ExpireStep? || step.Reread?))
    && (v == Decided <==> step.WriteStep?)
    && (v == Raised <==> step.Fail?)
    && (v == Elsewhere <==> l.call.Outside? && (step.InsertStep? || step.Answer?))
  }

  /** Which verdict an answering step gives, case by case and in both directions. */
  ghost predicate Exact(s: State, step: Step, l: Local, v: Verdict) {
    HoldExact(s, step, l, v) && AllowExact(s, step, l, v) && RefuseExact(s, step, l, v) && OtherExact(s, step, l, v)
  }

  /** The step answers the call. */
  ghost predicate Answering(s: State, step: Step, pid: nat) {
    && Enabled(s, step) && step.pid == pid && pid in s.calls && !s.calls[pid].Answered? && LocalOk(s, pid, s.calls[pid])
    && pid in Next(s, step).calls && Next(s, step).calls[pid].Answered?
  }

  lemma HoldStep(s: State, step: Step, pid: nat)
    requires Answering(s, step, pid)
    ensures HoldExact(s, step, s.calls[pid], Next(s, step).calls[pid].verdict)
  {
    hide Written, Required, HeldRow, CopyOk, Answers, UsedOk, Justified;
  }

  lemma AllowStep(s: State, step: Step, pid: nat)
    requires Answering(s, step, pid)
    ensures AllowExact(s, step, s.calls[pid], Next(s, step).calls[pid].verdict)
  {
    hide Written, Required, HeldRow, CopyOk, Answers, UsedOk, Justified, ExpireRow;
  }

  lemma RefuseStep(s: State, step: Step, pid: nat)
    requires Answering(s, step, pid)
    ensures RefuseExact(s, step, s.calls[pid], Next(s, step).calls[pid].verdict)
  {
    hide Written, Required, HeldRow, CopyOk, Answers, UsedOk, Justified, ExpireRow;
  }

  lemma OtherStep(s: State, step: Step, pid: nat)
    requires Answering(s, step, pid)
    ensures OtherExact(s, step, s.calls[pid], Next(s, step).calls[pid].verdict)
  {
    hide Written, Required, HeldRow, CopyOk, UsedOk, Justified, IsActive;
  }

  /** Every verdict of every run: a call is told to hold exactly when the record that it refreshed was pending or it had
      just inserted one; it is allowed or refused after resolving exactly as the record was approved or not; without a
      human it is allowed exactly when its verdict runs unattended and its row was written; and while the approval
      service is down exactly for a read or a write of a tenant that declared so. */
  lemma VerdictsAreExact(states: seq<State>, steps: seq<Step>, n: nat, pid: nat) returns (k: nat)
    requires Run(states, steps) && n < |states| && pid in states[n].calls && states[n].calls[pid].Answered?
    ensures AnsweredAt(states, steps, k, n, pid)
    ensures Exact(states[k], steps[k], states[k].calls[pid], states[n].calls[pid].verdict)
  {
    k := AnswerStep(states, steps, n, pid);
    RunKeeps(states, steps, k);
    assert LocalOk(states[k], pid, states[k].calls[pid]);
    hide Next, Inv, Enabled, LocalOk, HoldExact, AllowExact, RefuseExact, OtherExact;
    HoldStep(states[k], steps[k], pid);
    AllowStep(states[k], steps[k], pid);
    RefuseStep(states[k], steps[k], pid);
    OtherStep(states[k], steps[k], pid);
  }

  /** Whoever is told to hold because it inserted an approval did insert it: its lookup had found none, and the row asks
      for the people that its verdict demands. */
  lemma {:induction false} HeldAfterInserting(states: seq<State>, steps: seq<Step>, k: nat, pid: nat)
      returns (i: nat, j: nat)
    requires Run(states, steps) && k < |states| && pid in states[k].calls && states[k].calls[pid].Created?
    ensures var call := states[k].calls[pid].call;
            && i < j < k && steps[i] == Lookup(pid, None) && call.Authorize?
            && (forall id :: 0 <= id < |states[i].rows| ==>
                  !Matches(states[i].rows[id], call.tenant, call.tool, call.argsHash))
            && steps[j].CreateStep? && steps[j].pid == pid
            && states[j + 1].rows == states[j].rows + [InsertedRow(call, steps[j].now)]
  {
    hide Enabled;
    var s, step := states[k - 1], steps[k - 1];
    CreatedStep(s, step, pid);
    hide Next;
    if pid in s.calls && s.calls[pid] == states[k].calls[pid] {
      i, j := HeldAfterInserting(states, steps, k - 1, pid);
    } else {
      j := k - 1;
      i := FoundNone(states, steps, j, pid);
    }
  }

  lemma CreatedStep(s: State, step: Step, pid: nat)
    requires Enabled(s, step) && pid in Next(s, step).calls && Next(s, step).calls[pid].Created?
    ensures || (pid in s.calls && s.calls[pid] == Next(s, step).calls[pid])
            || (&& step.CreateStep? && step.pid == pid && pid in s.calls
                && s.calls[pid].Looked? && s.calls[pid].found.None?
                && s.calls[pid].call == Next(s, step).calls[pid].call && s.calls[pid].call.Authorize?
                && Next(s, step).rows == s.rows + [InsertedRow(s.calls[pid].call, step.now)])
  {
    hide Written, IsActive, Expire, ExpireRow;
  }

  /** A new approval, column by column: pending, unsigned, for one person, or for two if the verdict demands two. */
  function InsertedRow(call: Call, now: int): Row
    requires call.Authorize?
  {
    Row(call.tenant, call.tool, call.argsHash, call.outcome.actionClass,
        if call.outcome.decision == HumanDual then 2 else 1, now, now + call.timeout, Pending, map[], None, None)
  }

  lemma {:induction false} FoundNone(states: seq<State>, steps: seq<Step>, k: nat, pid: nat) returns (i: nat)
    requires Run(states, steps) && k < |states| && pid in states[k].calls && states[k].calls[pid].Looked?
    requires states[k].calls[pid].found.None?
    ensures var call := states[k].calls[pid].call;
            && i < k && steps[i] == Lookup(pid, None) && call.Authorize?
            && forall id :: 0 <= id < |states[i].rows| ==>
                 !Matches(states[i].rows[id], call.tenant, call.tool, call.argsHash)
  {
    var s, step := states[k - 1], steps[k - 1];
    NoneStep(s, step, pid);
    if pid in s.calls && s.calls[pid] == states[k].calls[pid] {
      i := FoundNone(states, steps, k - 1, pid);
    } else {
      i := k - 1;
    }
  }

  lemma NoneStep(s: State, step: Step, pid: nat)
    requires Enabled(s, step) && pid in Next(s, step).calls && Next(s, step).calls[pid].Looked?
    requires Next(s, step).calls[pid].found.None?
    ensures || (pid in s.calls && s.calls[pid] == Next(s, step).calls[pid])
            || (step == Lookup(pid, None) && Next(s, step).calls[pid].call.Authorize?
                && var call := Next(s, step).calls[pid].call;
                   forall id :: 0 <= id < |s.rows| ==> !Matches(s.rows[id], call.tenant, call.tool, call.argsHash))
  {
    hide Written, Required, Expire, ExpireRow, HeldRow;
  }

  // ---------------------------------------------------------------- in time

  /** The check that let a call go on to resolve its record. */
  predicate Checked(states: seq<State>, steps: seq<Step>, j: nat, pid: nat, copy: Copy) {
    && j < |steps| && j < |states| && steps[j].pid == pid && pid in states[j].calls
    && if steps[j].Reread? then states[j].calls[pid].Rereading? && states[j].calls[pid].copy.rec.id == copy.rec.id
                                && copy.readAt == states[j].clock
       else
         steps[j].ExpireStep?
         && (copy.rec.row.status in {Pending, Approved} ==> steps[j].now < copy.rec.row.expiresAt)
  }

  lemma ResolvingStep(s: State, step: Step, pid: nat)
    requires Enabled(s, step) && pid in Next(s, step).calls
    requires Next(s, step).calls[pid].Resolving? || Next(s, step).calls[pid].Spent?
    ensures var l := Next(s, step).calls[pid];
            || (pid in s.calls && (s.calls[pid].Resolving? || s.calls[pid].Spent?) && s.calls[pid].copy == l.copy)
            || Checked([s], [step], 0, pid, l.copy)
  {
    hide Written, IsActive, Required, HeldRow;
  }

  lemma {:induction false} ResolvedAfterCheck(states: seq<State>, steps: seq<Step>, k: nat, pid: nat) returns (j: nat)
    requires Run(states, steps) && k < |states| && pid in states[k].calls
    requires states[k].calls[pid].Resolving? || states[k].calls[pid].Spent?
    ensures j < k && Checked(states, steps, j, pid, states[k].calls[pid].copy)
  {
    hide Enabled, Next;
    var s, l := states[k - 1], states[k].calls[pid];
    ResolvingStep(s, steps[k - 1], pid);
    if pid in s.calls && (s.calls[pid].Resolving? || s.calls[pid].Spent?) && s.calls[pid].copy == l.copy {
      j := ResolvedAfterCheck(states, steps, k - 1, pid);
    } else {
      j := k - 1;
      assert Checked([s], [steps[j]], 0, pid, l.copy);
    }
  }

  /** The first call that an approval lets through made its check before the window closed, provided that every decision
      written on the approval until then was clean. */
  lemma FirstAllowanceIsInTime(states: seq<State>, steps: seq<Step>, n: nat, pid: nat, copy: Copy, until: nat)
      returns (j: nat)
    requires Run(states, steps) && n < |states| && pid in states[n].calls && states[n].calls[pid].Answered?
    requires states[n].calls[pid].verdict == Allow(ByHumans(copy, true, until))
    ensures copy.readAt <= n && j < n && steps[j].pid == pid
    ensures CleanBetween(states, steps, copy.rec.id, 0, copy.readAt) ==>
              steps[j].ExpireStep? && steps[j].now < copy.rec.row.expiresAt
  {
    var k := VerdictsAreExact(states, steps, n, pid);
    CopiesAreVersions(states, steps, k, pid);
    j := ResolvedAfterCheck(states, steps, k, pid);
    RunKeeps(states, steps, n);
    assert LocalOk(states[n], pid, states[n].calls[pid]);
    hide Enabled, Next, Inv, Exact;
    if steps[j].Reread? && CleanBetween(states, steps, copy.rec.id, 0, copy.readAt) {
      var u := LateCheck(states, steps, j, pid);
      ClockIsIndex(states, steps, j);
      CleanRowAdvances(states, steps, copy.rec.id, u, copy.readAt);
      SpentEarlier(states, steps, u, j, n, pid, copy.rec.id);
    }
  }

  /** Who reads again after the row was consumed is not its first consumer. */
  lemma SpentEarlier(states: seq<State>, steps: seq<Step>, u: nat, j: nat, n: nat, pid: nat, id: nat)
    requires Run(states, steps) && u <= j < n < |states| && pid in states[j].calls && !Past(states[j].calls[pid])
    requires id < |states[u].rows| && states[u].rows[id].consumedBy.Some?
    ensures id < |states[n].rows| && states[n].rows[id].consumedBy.Some?
    ensures states[n].rows[id].consumedBy.value.call != pid
  {
    hide Enabled, Next;
    RunKeeps(states, steps, u);
    ApprovalsDescend(states, steps, u, n);
    assert Descends(states[u].rows[id], states[n].rows[id]);
    assert UseOk(states[u], id);
    NotPastBefore(states, steps, u, j, pid);
  }

  /** A call that is past its consumption stays so. */
  lemma {:induction false} NotPastBefore(states: seq<State>, steps: seq<Step>, u: nat, j: nat, pid: nat)
    requires Run(states, steps) && u <= j < |states| && pid in states[j].calls && !Past(states[j].calls[pid])
    ensures pid in states[u].calls ==> !Past(states[u].calls[pid])
    decreases j
  {
    hide Enabled, Next;
    if pid in states[u].calls && Past(states[u].calls[pid]) { PastStays(states, steps, u, j, pid); }
  }

  lemma {:induction false} PastStays(states: seq<State>, steps: seq<Step>, u: nat, j: nat, pid: nat)
    requires Run(states, steps) && u <= j < |states| && pid in states[u].calls && Past(states[u].calls[pid])
    ensures pid in states[j].calls && Past(states[j].calls[pid])
    decreases j
  {
    hide Enabled, Next;
    if u < j {
      PastStays(states, steps, u, j - 1, pid);
      PastStep(states[j - 1], steps[j - 1], pid);
    }
  }

  lemma PastStep(s: State, step: Step, pid: nat)
    requires Enabled(s, step) && pid in s.calls && Past(s.calls[pid])
    ensures pid in Next(s, step).calls && Past(Next(s, step).calls[pid])
  {
    hide Written, IsActive, Required, Expire, ExpireRow, HeldRow;
  }
}
