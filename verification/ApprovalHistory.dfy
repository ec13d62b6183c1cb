/** One approval over a whole run of module `ApprovalRuns`: what its unguarded decisions can and cannot do to it,
    exactly when it only advances, and what every allowance rests on. */
module ApprovalHistory {

  import opened Basics
  import opened PolicyEngine
  import opened Approvals
  import opened ApprovalRuns

  // ---------------------------------------------------------------- one step on one row

  /** The step is the write of a decision on the row. */
  predicate Writes(s: State, step: Step, id: nat) {
    && step.WriteStep? && step.pid in s.calls && s.calls[step.pid].Ready? && s.calls[step.pid].call.Decision?
    && s.calls[step.pid].copy.rec.id == id
  }

  /** If it is one, the write is clean. */
  predicate CleanStep(s: State, step: Step, id: nat) {
    Writes(s, step, id) && id < |s.rows| ==>
      var l := s.calls[step.pid]; Clean(s.rows[id], l.copy.rec.row, l.call.approve, l.call.who, l.now)
  }

  /** Apart from the writes of decisions, a row only expires or is consumed. */
  lemma RowStep(s: State, step: Step, id: nat)
    requires Enabled(s, step) && id < |s.rows|
    ensures var t := Next(s, step);
            && id < |t.rows| && Descends(s.rows[id], t.rows[id])
            && if Writes(s, step, id) then t.rows[id] == Written(s.rows[id], s.calls[step.pid])
               else
                 && Evolves(s.rows[id], t.rows[id])
                 && (|| t.rows[id] == s.rows[id] || t.rows[id] == ExpireRow(s.rows[id])
                     || (s.rows[id].consumedBy.None? && t.rows[id] == s.rows[id].(consumedBy := t.rows[id].consumedBy)
                         && step.ConsumeStep? && s.calls[step.pid].copy.rec.id == id))
  {
    match step
    case ConsumeStep(pid) => assert s.calls[pid].Resolving?;
    case _ =>
  }

  /** Over any stretch of any run: an approval is never removed, keeps its action, its quorum and its window, and stays
      consumed by the call that consumed it first. */
  lemma {:induction false} ApprovalsDescend(states: seq<State>, steps: seq<Step>, i: nat, j: nat)
    requires Run(states, steps) && i <= j < |states|
    ensures TableDescends(states[i].rows, states[j].rows)
    decreases j
  {
    hide Enabled, Next, Written, ExpireRow, Evolves;
    if i < j {
      ApprovalsDescend(states, steps, i, j - 1);
      forall id | 0 <= id < |states[i].rows|
        ensures id < |states[j].rows| && Descends(states[i].rows[id], states[j].rows[id])
      {
        assert Descends(states[i].rows[id], states[j - 1].rows[id]);
        RowStep(states[j - 1], steps[j - 1], id);
      }
      GrowStep(states[j - 1], steps[j - 1]);
    }
  }

  /** The row that a step inserts. */
  function Inserted(s: State, step: Step): Row
    requires Enabled(s, step) && (step.CreateStep? || step.InsertStep?)
  {
    if step.CreateStep? then HeldRow(s.calls[step.pid].call, step.now) else step.row
  }

  lemma GrowStep(s: State, step: Step)
    requires Enabled(s, step)
    ensures |s.rows| <= |Next(s, step).rows| <= |s.rows| + 1
    ensures |Next(s, step).rows| == |s.rows| + 1 ==>
              && (step.CreateStep? || step.InsertStep?) && Next(s, step).rows[|s.rows|] == Inserted(s, step)
              && Fresh(Inserted(s, step))
  {
  }

  // ---------------------------------------------------------------- copies are versions

  lemma {:induction false} ClockIsIndex(states: seq<State>, steps: seq<Step>, k: nat)
    requires Run(states, steps) && k < |states|
    ensures states[k].clock == k
  {
    if k > 0 { ClockIsIndex(states, steps, k - 1); }
  }

  function CopyOf(l: Local): Option<Copy> {
    match l
    case Looked(_, found) => found
    case Rereading(_, copy, _) => Some(copy)
    case Ready(_, copy, _) => Some(copy)
    case Resolving(_, copy) => Some(copy)
    case Spent(_, copy, _, _) => Some(copy)
    case Answered(_, verdict) => if verdict.Allow? && verdict.why.ByHumans? then Some(verdict.why.copy) else None
    case _ => None
  }

  /** The copy is the row as it was at the moment that the copy names. */
  ghost predicate VersionOf(states: seq<State>, copy: Copy, k: nat) {
    && copy.readAt <= k < |states| && copy.rec.id < |states[copy.readAt].rows|
    && copy.rec.row == states[copy.readAt].rows[copy.rec.id]
  }

  lemma CopyStep(s: State, step: Step, pid: nat)
    requires Enabled(s, step) && pid in Next(s, step).calls && CopyOf(Next(s, step).calls[pid]).Some?
    ensures var t, c := Next(s, step), CopyOf(Next(s, step).calls[pid]).value;
            || (pid in s.calls && CopyOf(s.calls[pid]) == Some(c))
            || (c.readAt == s.clock && c.rec.id < |s.rows| && c.rec.row == s.rows[c.rec.id])
            || (c.readAt == s.clock + 1 && c.rec.id < |t.rows| && c.rec.row == t.rows[c.rec.id])
  {
    hide ExpireRow, Written, IsActive, Required;
  }

  lemma {:induction false} CopiesAreVersions(states: seq<State>, steps: seq<Step>, k: nat, pid: nat)
    requires Run(states, steps) && k < |states| && pid in states[k].calls && CopyOf(states[k].calls[pid]).Some?
    ensures VersionOf(states, CopyOf(states[k].calls[pid]).value, k)
  {
    hide Enabled, Next;
    if k > 0 {
      var s := states[k - 1];
      CopyStep(s, steps[k - 1], pid);
      ClockIsIndex(states, steps, k - 1);
      if pid in s.calls && CopyOf(s.calls[pid]) == CopyOf(states[k].calls[pid]) {
        CopiesAreVersions(states, steps, k - 1, pid);
      }
    }
  }

  // ---------------------------------------------------------------- exactly when an approval only advances

  ghost predicate CleanBetween(states: seq<State>, steps: seq<Step>, id: nat, i: nat, n: nat)
    requires n <= |steps| < |states|
  {
    forall j :: i <= j < n ==> CleanStep(states[j], steps[j], id)
  }

  lemma {:induction false} CleanRowAdvances(states: seq<State>, steps: seq<Step>, id: nat, i: nat, n: nat)
    requires Run(states, steps) && i <= n < |states| && id < |states[i].rows|
    requires CleanBetween(states, steps, id, i, n)
    ensures id < |states[n].rows| && Evolves(states[i].rows[id], states[n].rows[id])
    decreases n
  {
    if i < n {
      CleanRowAdvances(states, steps, id, i, n - 1);
      var s, step := states[n - 1], steps[n - 1];
      RowStep(s, step, id);
      assert CleanStep(s, step, id);
      if Writes(s, step, id) {
        var l := s.calls[step.pid];
        WriteAdvancesIff(s.rows[id], l.copy.rec.row, l.call.approve, l.call.who, l.now);
      }
      EvolvesTransitive(states[i].rows[id], s.rows[id], states[n].rows[id]);
    }
  }

  /** Over any stretch of any run, whatever the clocks and the interleaving: the status of an approval moves only
      forward, signatures are only added while it is pending, and it never changes once it is consumed, exactly if
      every decision that writes on it does so cleanly. */
  lemma RowOnlyAdvancesIff(states: seq<State>, steps: seq<Step>, id: nat, i: nat, n: nat)
    requires Run(states, steps) && i <= n < |states| && id < |states[i].rows|
    ensures forall k :: i <= k <= n ==> id < |states[k].rows|
    ensures (forall j, k :: i <= j <= k <= n ==> Evolves(states[j].rows[id], states[k].rows[id]))
            <==> CleanBetween(states, steps, id, i, n)
  {
    hide Next, Enabled, Evolves, Clean;
    forall k | i <= k <= n ensures id < |states[k].rows| { ApprovalsDescend(states, steps, i, k); }
    if CleanBetween(states, steps, id, i, n) {
      forall j, k | i <= j <= k <= n ensures Evolves(states[j].rows[id], states[k].rows[id]) {
        CleanRowAdvances(states, steps, id, j, k);
      }
    }
    if forall j, k :: i <= j <= k <= n ==> Evolves(states[j].rows[id], states[k].rows[id]) {
      forall j | i <= j < n ensures CleanStep(states[j], steps[j], id) {
        assert Evolves(states[j].rows[id], states[j + 1].rows[id]);
        RowStep(states[j], steps[j], id);
        if Writes(states[j], steps[j], id) {
          var l := states[j].calls[steps[j].pid];
          WriteAdvancesIff(states[j].rows[id], l.copy.rec.row, l.call.approve, l.call.who, l.now);
        }
      }
    }
  }

  // ---------------------------------------------------------------- signatures in time

  /** The call waits to read again, or is about to write although the window was closed at its check. */
  predicate Late(l: Local) {
    l.Rereading? || (l.Ready? && l.copy.rec.row.status == Pending && l.now >= l.copy.rec.row.expiresAt)
  }

  lemma LateStep(s: State, step: Step, pid: nat)
    requires Enabled(s, step) && pid in Next(s, step).calls && Late(Next(s, step).calls[pid])
    ensures var l := Next(s, step).calls[pid];
            || (pid in s.calls && s.calls[pid] == l)
            || (l.Rereading? && l.copy.rec.id < |s.rows| && !Expirable(s.rows[l.copy.rec.id]))
            || (l.Ready? && pid in s.calls && s.calls[pid].Rereading? && s.calls[pid].copy.rec.id == l.copy.rec.id
                && l.copy.readAt == s.clock)
  {
    hide Written, IsActive, Required, Expire;
  }

  /** Its check met a row that could not expire. */
  lemma {:induction false} LateCheck(states: seq<State>, steps: seq<Step>, k: nat, pid: nat) returns (u: nat)
    requires Run(states, steps) && k < |states| && pid in states[k].calls && Late(states[k].calls[pid])
    ensures var l := states[k].calls[pid];
            && u <= (if l.Ready? then l.copy.readAt else k) && u < |states| && l.copy.rec.id < |states[u].rows|
            && !Expirable(states[u].rows[l.copy.rec.id])
  {
    hide Enabled, Next;
    var s, l := states[k - 1], states[k].calls[pid];
    LateStep(s, steps[k - 1], pid);
    ClockIsIndex(states, steps, k - 1);
    if pid in s.calls && (s.calls[pid] == l || l.Ready?) {
      u := LateCheck(states, steps, k - 1, pid);
    } else {
      u := k - 1;
    }
  }

  /** If every write so far was clean: a pending row is not consumed, and every signature is in time. */
  lemma {:induction false} CleanRowIsTidy(states: seq<State>, steps: seq<Step>, id: nat, n: nat)
    requires Run(states, steps) && n < |states| && id < |states[n].rows| && CleanBetween(states, steps, id, 0, n)
    ensures states[n].rows[id].status == Pending ==> states[n].rows[id].consumedBy.None?
    ensures Timely(states[n].rows[id])
    decreases n, 1
  {
    hide Next;
    var s, step, t := states[n - 1], steps[n - 1], states[n];
    GrowStep(s, step);
    if id < |s.rows| {
      CleanRowIsTidy(states, steps, id, n - 1);
      RowStep(s, step, id);
      assert CleanStep(s, step, id);
      if Writes(s, step, id) {
        var l := s.calls[step.pid];
        CopiesAreVersions(states, steps, n - 1, step.pid);
        CleanDecisionIsInTime(states, steps, n - 1, step.pid);
        CleanRowIsTidy(states, steps, id, l.copy.readAt);
        ApprovalsDescend(states, steps, l.copy.readAt, n - 1);
        WrittenIsTidy(s.rows[id], l);
      } else if t.rows[id] != s.rows[id] && t.rows[id] != ExpireRow(s.rows[id]) {
        ConsumedIsSettled(states, steps, id, n - 1);
      }
    }
  }

  lemma WrittenIsTidy(row: Row, l: Local)
    requires l.Ready? && l.call.Decision? && Clean(row, l.copy.rec.row, l.call.approve, l.call.who, l.now)
    requires row.status == Pending ==> row.consumedBy.None?
    requires Timely(row) && Timely(l.copy.rec.row) && l.now < row.expiresAt == l.copy.rec.row.expiresAt
    ensures Timely(Written(row, l)) && (Written(row, l).status == Pending ==> Written(row, l).consumedBy.None?)
  {
  }

  /** A call consumes only what it read as settled. */
  lemma {:induction false} ConsumedIsSettled(states: seq<State>, steps: seq<Step>, id: nat, k: nat)
    requires Run(states, steps) && k < |steps| && id < |states[k].rows| && CleanBetween(states, steps, id, 0, k)
    requires steps[k].ConsumeStep? && states[k].calls[steps[k].pid].copy.rec.id == id
    ensures states[k].rows[id].status != Pending
  {
    var s, pid := states[k], steps[k].pid;
    RunKeeps(states, steps, k);
    assert LocalOk(s, pid, s.calls[pid]);
    CopiesAreVersions(states, steps, k, pid);
    CleanRowAdvances(states, steps, id, s.calls[pid].copy.readAt, k);
  }

  /** If every write so far was clean, a decision that is about to write made its check before the window closed. */
  lemma {:induction false} CleanDecisionIsInTime(states: seq<State>, steps: seq<Step>, k: nat, pid: nat)
    requires Run(states, steps) && k < |states| && pid in states[k].calls && states[k].calls[pid].Ready?
    requires CleanBetween(states, steps, states[k].calls[pid].copy.rec.id, 0, k)
    ensures states[k].calls[pid].now < states[k].calls[pid].copy.rec.row.expiresAt
    decreases k, 2
  {
    var l := states[k].calls[pid];
    var id := l.copy.rec.id;
    RunKeeps(states, steps, k);
    assert LocalOk(states[k], pid, l);
    if l.now >= l.copy.rec.row.expiresAt {
      var u := LateCheck(states, steps, k, pid);
      CopiesAreVersions(states, steps, k, pid);
      CleanRowIsTidy(states, steps, id, u);
      CleanRowAdvances(states, steps, id, u, l.copy.readAt);
      assert false;
    }
  }

  // ---------------------------------------------------------------- signatures

  /** Step `j` is the decision by which `who` signed, with the clock reading `at`. */
  predicate Signs(states: seq<State>, steps: seq<Step>, j: nat, id: nat, who: string, at: int) {
    && j < |steps| && j < |states| && Writes(states[j], steps[j], id)
    && var l := states[j].calls[steps[j].pid];
       l.call.approve && l.call.who == who && l.now == at && who !in l.copy.rec.row.approvedBy
  }

  /** A signature is there already, or it was in the copy of the decision that writes, or it is that decision. */
  lemma SignerStep(s: State, step: Step, id: nat, who: string)
    requires Enabled(s, step) && id < |Next(s, step).rows| && who in Next(s, step).rows[id].approvedBy
    ensures id < |s.rows| &&
            var now := s.rows[id].approvedBy;
            var at := Next(s, step).rows[id].approvedBy[who];
            || (who in now && now[who] == at)
            || (Writes(s, step, id) &&
                var l := s.calls[step.pid];
                if who in l.copy.rec.row.approvedBy then l.copy.rec.row.approvedBy[who] == at
                else l.call.approve && l.call.who == who && l.now == at)
  {
    GrowStep(s, step);
    assert id < |s.rows|;
    RowStep(s, step, id);
  }

  /** Nobody is among the signers of any version of an approval without having decided to approve it; a signature that
      came late came after a write that was not clean. */
  lemma {:induction false} SignersDecided(states: seq<State>, steps: seq<Step>, id: nat, n: nat, who: string)
      returns (j: nat)
    requires Run(states, steps) && n < |states| && id < |states[n].rows| && who in states[n].rows[id].approvedBy
    ensures j < n && Signs(states, steps, j, id, who, states[n].rows[id].approvedBy[who])
    ensures states[n].rows[id].approvedBy[who] < states[n].rows[id].expiresAt || !CleanBetween(states, steps, id, 0, j)
    decreases n
  {
    hide Enabled, Next, Clean;
    var s, step := states[n - 1], steps[n - 1];
    SignerStep(s, step, id, who);
    ApprovalsDescend(states, steps, n - 1, n);
    assert SameAction(s.rows[id], states[n].rows[id]);
    if who in s.rows[id].approvedBy && s.rows[id].approvedBy[who] == states[n].rows[id].approvedBy[who] {
      j := SignersDecided(states, steps, id, n - 1, who);
    } else {
      var l := s.calls[step.pid];
      CopiesAreVersions(states, steps, n - 1, step.pid);
      ApprovalsDescend(states, steps, l.copy.readAt, n);
      assert SameAction(states[l.copy.readAt].rows[id], states[n].rows[id]);
      if who in l.copy.rec.row.approvedBy {
        j := SignersDecided(states, steps, id, l.copy.readAt, who);
      } else {
        j := n - 1;
        if CleanBetween(states, steps, id, 0, j) { CleanDecisionIsInTime(states, steps, j, step.pid); }
      }
    }
  }

  /** Every version of an approval so far carries only signatures in time exactly if every decision that signed it made
      its check before the window closed. */
  lemma TimelyIff(states: seq<State>, steps: seq<Step>, id: nat, n: nat)
    requires Run(states, steps) && n < |states|
    ensures (forall k :: 0 <= k <= n && id < |states[k].rows| ==> Timely(states[k].rows[id]))
            <==> (forall j, who, at ::
                    0 <= j < n && Signs(states, steps, j, id, who, at) ==> at < states[j].rows[id].expiresAt)
  {
    if forall j, who, at :: 0 <= j < n && Signs(states, steps, j, id, who, at) ==> at < states[j].rows[id].expiresAt {
      forall k | 0 <= k <= n && id < |states[k].rows| ensures Timely(states[k].rows[id]) {
        forall who | who in states[k].rows[id].approvedBy
          ensures states[k].rows[id].approvedBy[who] < states[k].rows[id].expiresAt
        {
          var j := SignersDecided(states, steps, id, k, who);
          ApprovalsDescend(states, steps, j, k);
          assert SameAction(states[j].rows[id], states[k].rows[id]);
        }
      }
    }
    if forall k :: 0 <= k <= n && id < |states[k].rows| ==> Timely(states[k].rows[id]) {
      forall j, who, at | 0 <= j < n && Signs(states, steps, j, id, who, at)
        ensures at < states[j].rows[id].expiresAt
      {
        RowStep(states[j], steps[j], id);
        assert Timely(states[j + 1].rows[id]);
        assert who in states[j + 1].rows[id].approvedBy;
      }
    }
  }

  /** Every allowance through people: the call read a version of its approval that was approved, with exactly as many
      distinct signers as the approval requires, each of whom had decided before to approve it; and when every write on
      the approval was clean until then, each of them in time. */
  lemma HumanAllowsRestOnSignatures(states: seq<State>, steps: seq<Step>, n: nat, pid: nat)
    requires Run(states, steps) && n < |states| && pid in states[n].calls && states[n].calls[pid].Answered?
    requires states[n].calls[pid].verdict.Allow? && states[n].calls[pid].verdict.why.ByHumans?
    ensures var copy := states[n].calls[pid].verdict.why.copy;
            var row := copy.rec.row;
            && VersionOf(states, copy, n) && RestsOn(states[n], states[n].calls[pid].call, copy.rec)
            && (forall who <- row.approvedBy ::
                  exists j :: 0 <= j < copy.readAt && Signs(states, steps, j, copy.rec.id, who, row.approvedBy[who]))
            && (CleanBetween(states, steps, copy.rec.id, 0, copy.readAt) ==> Quorum(row))
  {
    RunKeeps(states, steps, n);
    assert LocalOk(states[n], pid, states[n].calls[pid]);
    CopiesAreVersions(states, steps, n, pid);
    var copy := states[n].calls[pid].verdict.why.copy;
    var row := copy.rec.row;
    forall who | who in row.approvedBy
      ensures exists j :: 0 <= j < copy.readAt && Signs(states, steps, j, copy.rec.id, who, row.approvedBy[who])
    {
      var j := SignersDecided(states, steps, copy.rec.id, copy.readAt, who);
    }
    if CleanBetween(states, steps, copy.rec.id, 0, copy.readAt) {
      CleanRowIsTidy(states, steps, copy.rec.id, copy.readAt);
    }
  }

  // ---------------------------------------------------------------- where the quorum comes from

  /** Every approval was inserted by a held call, whose verdict fixed how many people it requires, or by another
      door. */
  lemma {:induction false} RowsAreInserted(states: seq<State>, steps: seq<Step>, id: nat, n: nat) returns (j: nat)
    requires Run(states, steps) && n < |states| && id < |states[n].rows|
    ensures j < n && Inserts(states, steps, j, id) && SameAction(Inserted(states[j], steps[j]), states[n].rows[id])
    decreases n
  {
    hide Next, Written, ExpireRow, Evolves;
    var s, step := states[n - 1], steps[n - 1];
    GrowStep(s, step);
    if id < |s.rows| {
      j := RowsAreInserted(states, steps, id, n - 1);
      RowStep(s, step, id);
    } else {
      j := n - 1;
      RunKeeps(states, steps, j);
      assert LocalOk(s, step.pid, s.calls[step.pid]);
    }
  }

  /** Step `j` inserts the approval: it is a held call of `authorize`, or a call of another door. */
  ghost predicate Inserts(states: seq<State>, steps: seq<Step>, j: nat, id: nat) {
    && j < |steps| && j < |states| && Enabled(states[j], steps[j]) && |states[j].rows| == id
    && (steps[j].CreateStep? || steps[j].InsertStep?)
    && var call := states[j].calls[steps[j].pid].call; if steps[j].CreateStep? then Held(call) else call.Outside?
  }

  /** A call that people allowed was allowed by as many as it demands exactly if the approval was inserted with as many:
      by a held call for the same tenant, tool and arguments that had demanded as many, or by another door. */
  lemma QuorumIsTheCreators(states: seq<State>, steps: seq<Step>, n: nat, pid: nat, copy: Copy, first: bool, until: nat)
      returns (j: nat)
    requires Run(states, steps) && n < |states| && AllowedBy(states[n], pid, copy, first, until)
    ensures j < n && Inserts(states, steps, j, copy.rec.id)
    ensures var call, row := states[n].calls[pid].call, Inserted(states[j], steps[j]);
            && Concerned(row, call.tenant, call.tool, call.argsHash)
            && (|copy.rec.row.approvedBy| >= Required(call.outcome.decision)
                <==> row.required >= Required(call.outcome.decision))
            && (steps[j].CreateStep? ==> row.required == Required(states[j].calls[steps[j].pid].call.outcome.decision))
  {
    RunKeeps(states, steps, n);
    assert LocalOk(states[n], pid, states[n].calls[pid]);
    j := RowsAreInserted(states, steps, copy.rec.id, n);
  }

  // ---------------------------------------------------------------- decisions that nothing disturbs

  /** If it is the write of a decision, the row is still as the decision read it. */
  predicate Undisturbed(s: State, step: Step, id: nat) {
    Writes(s, step, id) && id < |s.rows| ==> s.rows[id] == s.calls[step.pid].copy.rec.row
  }

  ghost predicate UndisturbedUntil(states: seq<State>, steps: seq<Step>, id: nat, n: nat)
    requires n <= |steps| < |states|
  {
    forall j :: 0 <= j < n ==> Undisturbed(states[j], steps[j], id)
  }

  /** When no change of the row falls between the read and the write of a decision, every write is clean. */
  lemma {:induction false} UndisturbedIsClean(states: seq<State>, steps: seq<Step>, id: nat, n: nat)
    requires Run(states, steps) && n < |states| && UndisturbedUntil(states, steps, id, n)
    ensures CleanBetween(states, steps, id, 0, n)
  {
    if n > 0 {
      UndisturbedIsClean(states, steps, id, n - 1);
      var s, step := states[n - 1], steps[n - 1];
      assert Undisturbed(s, step, id);
      if Writes(s, step, id) {
        RunKeeps(states, steps, n - 1);
        assert LocalOk(s, step.pid, s.calls[step.pid]);
        CleanRowIsTidy(states, steps, id, n - 1);
      }
    }
  }

  /** The decisions written on a row, in order. */
  ghost function VotesOn(states: seq<State>, steps: seq<Step>, id: nat, n: nat): seq<Vote>
    requires n <= |steps| < |states|
  {
    if n == 0 then []
    else
      var before := VotesOn(states, steps, id, n - 1);
      if !Writes(states[n - 1], steps[n - 1], id) then before
      else before + [VoteOf(states[n - 1].calls[steps[n - 1].pid])]
  }

  function VoteOf(l: Local): Vote
    requires l.Ready? && l.call.Decision?
  {
    Vote(l.call.who, l.call.approve, l.now)
  }

  /** The row as it was inserted. */
  function Blank(row: Row): Row { row.(status := Pending, approvedBy := map[], decidedBy := None, consumedBy := None) }

  lemma {:induction false} NoVotesBefore(states: seq<State>, steps: seq<Step>, id: nat, n: nat)
    requires Run(states, steps) && n < |states| && id >= |states[n].rows|
    ensures VotesOn(states, steps, id, n) == []
  {
    hide Next;
    if n > 0 {
      GrowStep(states[n - 1], steps[n - 1]);
      NoVotesBefore(states, steps, id, n - 1);
    }
  }

  lemma VoteStep(row: Row, l: Local, votes: seq<Vote>)
    requires l.Ready? && l.call.Decision? && l.copy.rec.row == row && row.status == Pending && row.consumedBy.None?
    requires l.now < row.expiresAt && row == AfterVotes(Blank(row), votes) && InTime(votes, row.expiresAt)
    ensures var w, more := Written(row, l), votes + [VoteOf(l)];
            w == AfterVotes(Blank(w), more) && w.consumedBy.None? && InTime(more, w.expiresAt)
  {
    var w, more := Written(row, l), votes + [VoteOf(l)];
    assert more[..|more| - 1] == votes && Blank(w) == Blank(row);
  }

  /** What the row has come to: it expired, or it is what its decisions make of it, in the order in which they were
      written, and perhaps consumed. */
  predicate Tallied(row: Row, votes: seq<Vote>) {
    && InTime(votes, row.expiresAt)
    && (row.status == Expired || row.(consumedBy := None) == AfterVotes(Blank(row), votes))
  }

  lemma {:induction false} DecisionsAreVotes(states: seq<State>, steps: seq<Step>, id: nat, n: nat)
    requires Run(states, steps) && n < |states| && id < |states[n].rows| && UndisturbedUntil(states, steps, id, n)
    ensures Tallied(states[n].rows[id], VotesOn(states, steps, id, n))
  {
    hide Next, Written, Enabled;
    var s, step, t := states[n - 1], steps[n - 1], states[n];
    GrowStep(s, step);
    if id >= |s.rows| {
      NoVotesBefore(states, steps, id, n - 1);
    } else {
      DecisionsAreVotes(states, steps, id, n - 1);
      RowStep(s, step, id);
      var votes := VotesOn(states, steps, id, n - 1);
      assert Blank(t.rows[id]) == Blank(s.rows[id]);
      assert Undisturbed(s, step, id);
      if Writes(s, step, id) {
        var l := s.calls[step.pid];
        RunKeeps(states, steps, n - 1);
        assert LocalOk(s, step.pid, l);
        UndisturbedIsClean(states, steps, id, n - 1);
        CleanDecisionIsInTime(states, steps, n - 1, step.pid);
        CleanRowIsTidy(states, steps, id, n - 1);
        assert s.rows[id].(consumedBy := None) == s.rows[id];
        VoteStep(s.rows[id], l, votes);
      }
    }
  }

  /** The status of an approval whose decisions nothing disturbs, unless it expired: pending while nobody refused and
      too few distinct people signed, and then what the first decision that settled it says. */
  lemma StatusIsThatOfTheDecisions(states: seq<State>, steps: seq<Step>, id: nat, n: nat, k: nat)
    requires Run(states, steps) && n < |states| && id < |states[n].rows| && UndisturbedUntil(states, steps, id, n)
    requires states[n].rows[id].status != Expired
    ensures var row, votes := states[n].rows[id], VotesOn(states, steps, id, n);
            && (row.status == Pending <==> Undecided(votes, row.required))
            && (k < |votes| && Undecided(votes[..k], row.required) && !Undecided(votes[..k + 1], row.required) ==>
                  row.status == if votes[k].approve then Approved else Denied)
  {
    var row, votes := states[n].rows[id], VotesOn(states, steps, id, n);
    DecisionsAreVotes(states, steps, id, n);
    RunKeeps(states, steps, n);
    assert RowOk(row);
    PendingWhileUndecided(Blank(row), votes);
    if k < |votes| && Undecided(votes[..k], row.required) && !Undecided(votes[..k + 1], row.required) {
      FirstSettlingVoteDecides(Blank(row), votes, k);
    }
  }
}
