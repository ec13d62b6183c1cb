/** Runs of module `ApprovalRuns` in which a property that one would expect of approvals fails. */
module ApprovalCases {

  import opened Basics
  import opened PolicyEngine
  import opened Approvals
  import opened ApprovalRuns

  /** A run and its steps. */
  datatype Trace = Trace(states: seq<State>, steps: seq<Step>)

  ghost predicate Good(tr: Trace) { tr.states != [] && Run(tr.states, tr.steps) }

  function Last(tr: Trace): State
    requires tr.states != []
  {
    tr.states[|tr.states| - 1]
  }

  ghost predicate Continues(a: Trace, b: Trace) { a.states <= b.states && a.steps <= b.steps }

  lemma Go(tr: Trace, step: Step) returns (more: Trace)
    requires Good(tr) && Enabled(Last(tr), step)
    ensures Good(more) && Continues(tr, more) && Last(more) == Next(Last(tr), step)
  {
    Extended(tr.states, tr.steps, step);
    more := Trace(tr.states + [Next(Last(tr), step)], tr.steps + [step]);
  }

  // ---------------------------------------------------------------- stretches of runs

  /** A held call inserts its approval. */
  lemma Opened(call: Call) returns (tr: Trace)
    requires Held(call)
    ensures Good(tr) && Last(tr) == State([HeldRow(call, 0)], map[0 := Created(call)], [0], {}, 3)
  {
    assert Run([INITIAL], []);
    tr := Go(Trace([INITIAL], []), Begin(0, call));
    assert Answers(Last(tr), call, None);
    tr := Go(tr, Lookup(0, None));
    tr := Go(tr, CreateStep(0, 0));
    assert Last(tr).calls == map[0 := Created(call)];
  }

  /** A copy of the only row, read one step after now. */
  function CopyNext(s: State): Copy
    requires |s.rows| == 1
  {
    Copy(Record(0, s.rows[0]), s.clock + 1, s.clock + 1)
  }

  /** A call looks the only row up. */
  lemma Looks(tr: Trace, pid: nat, call: Call) returns (more: Trace)
    requires Good(tr) && |Last(tr).rows| == 1 && pid !in Last(tr).calls && LooksFor(call, Last(tr).rows[0])
    ensures Good(more) && Continues(tr, more)
    ensures var s := Last(tr);
            Last(more) == s.(calls := s.calls[pid := Looked(call, Some(CopyNext(s)))], clock := s.clock + 2)
  {
    var s := Last(tr);
    more := Go(tr, Begin(pid, call));
    assert Answers(Last(more), call, Some(0));
    more := Go(more, Lookup(pid, Some(0)));
    assert Last(more).calls == s.calls[pid := Looked(call, Some(CopyNext(s)))];
  }

  predicate LooksFor(call: Call, row: Row) {
    if call.Authorize? then Held(call) && Matches(row, call.tenant, call.tool, call.argsHash)
    else call.id == 0 && call.tenant == row.tenant
  }

  /** A call reads the only row, whose window is still open, and passes its expiry check. */
  lemma ReadsInTime(tr: Trace, pid: nat, call: Call, now: int) returns (more: Trace)
    requires Good(tr) && |Last(tr).rows| == 1 && pid !in Last(tr).calls && LooksFor(call, Last(tr).rows[0])
    requires now < Last(tr).rows[0].expiresAt
    ensures Good(more) && Continues(tr, more)
    ensures var s := Last(tr);
            Last(more) == s.(calls := s.calls[pid := Refresh(call, CopyNext(s), now)], clock := s.clock + 3)
  {
    hide Run, Answers;
    var s := Last(tr);
    more := Looks(tr, pid, call);
    more := Go(more, ExpireStep(pid, now));
    assert Last(more).calls == s.calls[pid := Refresh(call, CopyNext(s), now)];
  }

  /** A call reads the only row after its window closed; the row is consumed, so it stays as it is and is read again. */
  lemma ReadsLate(tr: Trace, pid: nat, call: Call, now: int) returns (more: Trace)
    requires Good(tr) && |Last(tr).rows| == 1 && pid !in Last(tr).calls && LooksFor(call, Last(tr).rows[0])
    requires now >= Last(tr).rows[0].expiresAt && Last(tr).rows[0].status in {Pending, Approved}
    requires Last(tr).rows[0].consumedBy.Some?
    ensures Good(more) && Continues(tr, more)
    ensures var s := Last(tr);
            Last(more) == s.(calls := s.calls[pid := Refresh(call, CopyLater(s), now)], clock := s.clock + 4)
  {
    hide Run, Answers, Refresh;
    var s := Last(tr);
    more := Looks(tr, pid, call);
    more := Go(more, ExpireStep(pid, now));
    assert Last(more).calls[pid] == Rereading(call, CopyNext(s), now) && Last(more).rows == s.rows;
    more := Go(more, Reread(pid));
    assert Last(more).calls == s.calls[pid := Refresh(call, CopyLater(s), now)];
  }

  /** A copy of the only row, looked up one step after now and read again two steps later. */
  function CopyLater(s: State): Copy
    requires |s.rows| == 1
  {
    CopyNext(s).(readAt := s.clock + 3)
  }

  /** A call that looked the only row up finds its window closed, and expires it. */
  lemma ExpiresIt(tr: Trace, pid: nat, now: int) returns (more: Trace)
    requires Good(tr) && |Last(tr).rows| == 1 && pid in Last(tr).calls && Last(tr).calls[pid].Looked?
    requires Last(tr).calls[pid].found.Some? && Last(tr).calls[pid].found.value.rec.id == 0
    requires Lapsed(Last(tr).calls[pid].found.value.rec, now) && Expirable(Last(tr).rows[0])
    ensures Good(more) && Continues(tr, more)
    ensures Last(more).rows == [Last(tr).rows[0].(status := Expired)]
    ensures Last(more).calls.Keys == Last(tr).calls.Keys
    ensures forall q <- Last(tr).calls :: q != pid ==> Last(more).calls[q] == Last(tr).calls[q]
  {
    hide Run;
    more := Go(tr, ExpireStep(pid, now));
  }

  /** A decision writes on the only row. */
  lemma WritesIt(tr: Trace, pid: nat) returns (more: Trace)
    requires Good(tr) && |Last(tr).rows| == 1 && pid in Last(tr).calls && Last(tr).calls[pid].Ready?
    requires Last(tr).calls[pid].call.Decision? && Last(tr).calls[pid].copy.rec.id == 0
    ensures Good(more) && Continues(tr, more)
    ensures var s := Last(tr);
            Last(more) == s.(rows := [Written(s.rows[0], s.calls[pid])],
                             calls := s.calls[pid := Answered(s.calls[pid].call, Decided)], clock := s.clock + 1)
  {
    more := Go(tr, WriteStep(pid));
  }

  /** A call that resolves an approved record consumes it, or not, and is allowed. */
  lemma ConsumesAndAnswers(tr: Trace, pid: nat) returns (more: Trace)
    requires Good(tr) && |Last(tr).rows| == 1 == |Last(tr).attempts| && pid in Last(tr).calls
    requires Last(tr).calls[pid].Resolving? && Last(tr).calls[pid].copy.rec.id == 0
    requires Last(tr).calls[pid].copy.rec.row.status == Approved && !Last(tr).calls[pid].call.Outside?
    ensures Good(more) && Continues(tr, more) && Last(more).rows == Consume(Last(tr).rows, 0, Use(pid, Last(tr).clock))
    ensures |Last(more).rows| == 1 == |Last(more).attempts|
    ensures var s, l := Last(tr), Last(tr).calls[pid];
            var first := s.rows[0].consumedBy.None?;
            Last(more).calls == s.calls[pid := Answered(l.call, Allow(ByHumans(
                                  l.copy, first, if first then s.clock + 2 else s.clock + 1)))]
  {
    more := Go(tr, ConsumeStep(pid));
    if Last(tr).rows[0].consumedBy.None? { more := Go(more, AuditTerminal(pid)); }
    more := Go(more, Answer(pid));
  }

  /** One person reads and signs, or refuses, with nothing in between. */
  lemma Decides(tr: Trace, pid: nat, d: Call, now: int) returns (more: Trace)
    requires Good(tr) && |Last(tr).rows| == 1 && pid !in Last(tr).calls && now < Last(tr).rows[0].expiresAt
    requires d.Decision? && d.id == 0 && d.tenant == Last(tr).rows[0].tenant && Last(tr).rows[0].status == Pending
    ensures Good(more) && Continues(tr, more)
    ensures var s := Last(tr);
            Last(more) == s.(rows := [DecideRow(s.rows[0], d.approve, d.who, now)],
                             calls := s.calls[pid := Answered(d, Decided)], clock := s.clock + 4)
  {
    hide Run, Next, Enabled;
    var s := Last(tr);
    more := ReadsInTime(tr, pid, d, now);
    more := WritesIt(more, pid);
    assert Last(more).calls == s.calls[pid := Answered(d, Decided)];
  }

  // ---------------------------------------------------------------- one approval, two calls

  /** One signature can let two overlapping calls through: both look, then both consume; the second is told that the
      approval was already spent and is allowed all the same. */
  lemma TwoCallsOneApproval(call: Call, who: string) returns (tr: Trace, a: Copy, b: Copy, u: nat, v: nat)
    requires Held(call) && Required(call.outcome.decision) == 1 && call.timeout > 2
    ensures Good(tr) && AllowedBy(Last(tr), 2, a, true, u) && AllowedBy(Last(tr), 3, b, false, v)
    ensures a.rec.id == b.rec.id
  {
    hide Run, Next, Enabled;
    tr := Opened(call);
    tr := Decides(tr, 1, Decision(call.tenant, 0, true, who), 1);
    tr := ReadsInTime(tr, 2, call, 1);
    tr := ReadsInTime(tr, 3, call, 2);
    tr := ConsumesAndAnswers(tr, 2);
    tr := ConsumesAndAnswers(tr, 3);
    var x, y := Last(tr).calls[2].verdict.why, Last(tr).calls[3].verdict.why;
    a, b, u, v := x.copy, y.copy, x.until, y.until;
  }

  /** The quorum is the one of the approval, fixed by the call that created it: a call that demands two people is let
      through by one signature when an earlier call for the same action had demanded one. */
  lemma QuorumIsThatOfTheRow(call: Call, who: string) returns (tr: Trace, copy: Copy, until: nat)
    requires Held(call) && Required(call.outcome.decision) == 1 && call.timeout > 2
    ensures Good(tr) && AllowedBy(Last(tr), 2, copy, true, until)
    ensures Required(Last(tr).calls[2].call.outcome.decision) == 2 && |copy.rec.row.approvedBy| == 1
  {
    hide Run, Next, Enabled;
    var dual := call.(outcome := call.outcome.(decision := HumanDual));
    tr := Opened(call);
    tr := Decides(tr, 1, Decision(call.tenant, 0, true, who), 1);
    tr := ReadsInTime(tr, 2, dual, 2);
    tr := ConsumesAndAnswers(tr, 2);
    copy, until := Last(tr).calls[2].verdict.why.copy, Last(tr).calls[2].verdict.why.until;
  }

  // ---------------------------------------------------------------- decisions that overwrite each other

  /** A refusal does not stand: a decision that had read the pending row approves it after the refusal was written, and
      the call is allowed. */
  lemma RefusalIsOverwritten(call: Call, p: string, q: string) returns (tr: Trace, m: nat, copy: Copy, until: nat)
    requires Held(call) && Required(call.outcome.decision) == 1 && call.timeout > 2
    ensures Good(tr) && m < |tr.states| && |tr.states[m].rows| == 1 && tr.states[m].rows[0].status == Denied
    ensures AllowedBy(Last(tr), 3, copy, true, until) && copy.rec.id == 0
  {
    hide Run, Next, Enabled;
    tr := Opened(call);
    tr := ReadsInTime(tr, 1, Decision(call.tenant, 0, true, q), 1);
    tr := Decides(tr, 2, Decision(call.tenant, 0, false, p), 1);
    m := |tr.states| - 1;
    tr := WritesIt(tr, 1);
    tr := ReadsInTime(tr, 3, call, 2);
    tr := ConsumesAndAnswers(tr, 3);
    copy, until := Last(tr).calls[3].verdict.why.copy, Last(tr).calls[3].verdict.why.until;
  }

  /** Expiry does not stand either: the window closes between the read of a decision and its write, another call sees to
      it that the approval expires, and the write approves it. */
  lemma ExpiredApprovalRevives(call: Call, q: string) returns (tr: Trace, m: nat)
    requires Held(call) && Required(call.outcome.decision) == 1 && call.timeout > 2
    ensures Good(tr) && m < |tr.states| && |tr.states[m].rows| == 1 == |Last(tr).rows|
    ensures tr.states[m].rows[0].status == Expired && Last(tr).rows[0].status == Approved
  {
    hide Run, Next, Enabled;
    tr := Opened(call);
    tr := ReadsInTime(tr, 1, Decision(call.tenant, 0, true, q), 1);
    tr := Looks(tr, 2, call);
    tr := ExpiresIt(tr, 2, call.timeout);
    m := |tr.states| - 1;
    tr := WritesIt(tr, 1);
  }

  /** A spent approval reopens and loses its signatures: two people sign, the call is allowed and consumes the approval,
      then the write of a third person, who had read it before, leaves it pending with that person's signature alone. */
  lemma SpentApprovalReopens(call: Call, p: string, q: string, r: string) returns (tr: Trace, m: nat)
    requires Held(call) && Required(call.outcome.decision) == 2 && call.timeout > 2 && p != q && q != r && p != r
    ensures Good(tr) && m < |tr.states| && |tr.states[m].rows| == 1
    ensures tr.states[m].rows[0].status == Approved && tr.states[m].rows[0].approvedBy.Keys == {q, r}
    ensures var s := Last(tr);
            && |s.rows| == 1 == |s.attempts| && s.calls.Keys == {0, 1, 2, 3, 4}
            && s.rows[0] == HeldRow(call, 0).(approvedBy := map[p := 1], decidedBy := Some(p),
                                              consumedBy := tr.states[m].rows[0].consumedBy)
            && s.rows[0].consumedBy.Some?
  {
    hide Run, Next, Enabled;
    tr := TwoSign(call, p, q, r);
    tr := ReadsInTime(tr, 4, call, 2);
    tr := ConsumesAndAnswers(tr, 4);
    m := |tr.states| - 1;
    tr := WritesIt(tr, 1);
    assert |map[p := 1]| == 1;
  }

  /** One person reads, then two others sign. */
  lemma TwoSign(call: Call, p: string, q: string, r: string) returns (tr: Trace)
    requires Held(call) && Required(call.outcome.decision) == 2 && call.timeout > 2 && q != r
    ensures Good(tr) && |Last(tr).rows| == 1 == |Last(tr).attempts| && Last(tr).calls.Keys == {0, 1, 2, 3}
    ensures Last(tr).rows[0] == HeldRow(call, 0).(status := Approved, approvedBy := map[q := 1, r := 1],
                                                  decidedBy := Some(r))
    ensures Last(tr).calls[1].Ready? && Last(tr).calls[1].call == Decision(call.tenant, 0, true, p)
    ensures Last(tr).calls[1].copy.rec == Record(0, HeldRow(call, 0)) && Last(tr).calls[1].now == 1
  {
    hide Run, Next, Enabled;
    tr := Opened(call);
    tr := ReadsInTime(tr, 1, Decision(call.tenant, 0, true, p), 1);
    tr := Decides(tr, 2, Decision(call.tenant, 0, true, q), 1);
    assert |map[q := 1]| == 1;
    assert Last(tr).rows[0] == HeldRow(call, 0).(approvedBy := map[q := 1], decidedBy := Some(q));
    tr := Decides(tr, 3, Decision(call.tenant, 0, true, r), 1);
    assert |map[q := 1, r := 1]| == |map[q := 1, r := 1].Keys| == |{q, r}| == 2;
    assert Last(tr).rows[0].approvedBy == map[q := 1, r := 1];
  }

  /** Then a signature counts after the window has closed: the reopened approval is consumed, so it does not expire, a
      fourth person completes the quorum too late, and `poll` answers allow. */
  lemma LateSignatureCounts(call: Call, p: string, q: string, r: string, d: string)
      returns (tr: Trace, copy: Copy, until: nat)
    requires Held(call) && Required(call.outcome.decision) == 2 && call.timeout > 2
    requires p != q && q != r && p != r && d != p
    ensures Good(tr) && 6 in Last(tr).calls
    ensures Last(tr).calls[6] == Answered(Poll(call.tenant, 0), Allow(ByHumans(copy, false, until)))
    ensures d in copy.rec.row.approvedBy && copy.rec.row.approvedBy[d] >= copy.rec.row.expiresAt
  {
    hide Run, Next, Enabled;
    var m: nat;
    tr, m := SpentApprovalReopens(call, p, q, r);
    tr := ReadsLate(tr, 5, Decision(call.tenant, 0, true, d), call.timeout);
    tr := WritesIt(tr, 5);
    assert |map[p := 1, d := call.timeout]| == |map[p := 1, d := call.timeout].Keys| == |{p, d}| == 2;
    assert Last(tr).rows[0].approvedBy == map[p := 1, d := call.timeout];
    tr := ReadsLate(tr, 6, Poll(call.tenant, 0), call.timeout);
    tr := ConsumesAndAnswers(tr, 6);
    copy, until := Last(tr).calls[6].verdict.why.copy, Last(tr).calls[6].verdict.why.until;
  }
}
