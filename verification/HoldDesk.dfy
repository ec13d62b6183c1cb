/** `_hold_for_humans`, `poll` and `_resolve_terminal` of `core/decision.py` as they run, and the proof that each of
    them, and each decision of a person, is one of the runs of module `ApprovalRuns` when nobody interrupts it. */
module HoldDesk {

  import opened Basics
  import opened PolicyEngine
  import opened Approvals
  import opened ApprovalRuns

  /** What the caller is told. */
  datatype Told = ToldHold | ToldAllow | ToldRefuse | ToldAbsent

  function Resolution(rec: Record): Told { if rec.row.status == Approved then ToldAllow else ToldRefuse }

  /** The record after `expire_if_needed`, and what becomes of the table and of the caller. */
  function Settle(rows: seq<Row>, id: nat, now: int, use: Use): (seq<Row>, Told)
    requires id < |rows|
  {
    var rec := Record(id, rows[id]);
    var after, current := Expire(rows, rec, now), Refreshed(rows, rec, now);
    if current.row.status == Pending then (after, ToldHold) else (Consume(after, id, use), Resolution(current))
  }

  /** The effect of `_hold_for_humans` when `find_active` answers `found`. */
  function HoldEffect(rows: seq<Row>, call: Call, found: Option<nat>, now: int, use: Use): (seq<Row>, Told)
    requires call.Authorize? && (found.Some? ==> found.value < |rows|)
  {
    if found.None? then (rows + [HeldRow(call, now)], ToldHold) else Settle(rows, found.value, now, use)
  }

  /** What `poll` does to the table and tells its caller. */
  function PollEffect(rows: seq<Row>, tenant: string, id: nat, now: int, use: Use): (seq<Row>, Told) {
    if Fetch(rows, tenant, id).None? then (rows, ToldAbsent) else Settle(rows, id, now, use)
  }

  class Desk {
    const store: ApprovalStore
    /** The approvals whose terminal audit row this desk tried to write. */
    var audited: seq<nat>

    constructor (store: ApprovalStore)
      ensures this.store == store && audited == []
    {
      this.store := store;
      audited := [];
    }

    /** `_resolve_terminal`: the verdict is that of the record, whoever consumed it; only the first consumer audits. */
    method ResolveTerminal(rec: Record, use: Use) returns (told: Told)
      requires rec.id < |store.rows| && rec.row.status != Pending
      modifies this, store
      ensures store.rows == Consume(old(store.rows), rec.id, use) && told == Resolution(rec)
      ensures told == ToldAllow <==> rec.row.status == Approved
      ensures told == ToldRefuse <==> rec.row.status in {Denied, Expired}
      ensures audited == if old(store.rows)[rec.id].consumedBy.None? then old(audited) + [rec.id] else old(audited)
    {
      var first := store.ConsumeOnce(rec.id, use);
      if first { audited := audited + [rec.id]; }
      match rec.row.status
      case Approved => told := ToldAllow;
      case Denied => told := ToldRefuse;
      case Expired => told := ToldRefuse;
    }

    /** `_hold_for_humans` */
    method HoldForHumans(call: Call, now: int, use: Use) returns (told: Told, ghost found: Option<nat>)
      requires Held(call)
      modifies this, store
      ensures IsActive(old(store.rows), call.tenant, call.tool, call.argsHash, found)
      ensures found.Some? ==> found.value < |old(store.rows)|
      ensures (store.rows, told) == HoldEffect(old(store.rows), call, found, now, use)
    {
      var active := store.FindActive(call.tenant, call.tool, call.argsHash);
      found := if active.Some? then Some(active.value.id) else None;
      if active.None? {
        var created := store.Create(HeldRow(call, now));
        return ToldHold, found;
      }
      var rec := store.ExpireIfNeeded(active.value, now);
      if rec.row.status == Pending { return ToldHold, found; }
      told := ResolveTerminal(rec, use);
    }

    /** `poll` */
    method PollOnce(tenant: string, id: nat, now: int, use: Use) returns (told: Told)
      modifies this, store
      ensures (store.rows, told) == PollEffect(old(store.rows), tenant, id, now, use)
    {
      var found := store.Get(tenant, id);
      if found.None? { return ToldAbsent; }
      var rec := store.ExpireIfNeeded(found.value, now);
      if rec.row.status == Pending { return ToldHold; }
      told := ResolveTerminal(rec, use);
    }
  }

  // ---------------------------------------------------------------- what the caller is told, on the row itself

  /** What becomes of a row that is looked up and resolved: it expires if its window is closed and nobody consumed it;
      the caller holds while it is pending, is allowed if it is approved and refused otherwise, and then it is
      consumed unless it was before. */
  ghost predicate SettledAs(rows: seq<Row>, id: nat, now: int, use: Use, after: seq<Row>, told: Told)
    requires id < |rows|
  {
    var r := rows[id];
    var status := if r.status in {Pending, Approved} && r.expiresAt <= now && r.consumedBy.None? then Expired
                  else r.status;
    && told == (match status
                case Pending => ToldHold
                case Approved => ToldAllow
                case Denied => ToldRefuse
                case Expired => ToldRefuse)
    && after == rows[id := r.(status := status,
                              consumedBy := if status == Pending || r.consumedBy.Some? then r.consumedBy
                                            else Some(use))]
  }

  lemma SettleIsExact(rows: seq<Row>, id: nat, now: int, use: Use)
    requires id < |rows|
    ensures var (after, told) := Settle(rows, id, now, use); SettledAs(rows, id, now, use, after, told)
  {
    var (after, told) := Settle(rows, id, now, use);
    var r := rows[id];
    assert r == r.(status := r.status, consumedBy := r.consumedBy);
    assert rows == rows[id := r];
  }

  /** A held call that nobody interrupts: it inserts an approval for as many people as its verdict demands, and holds,
      when there is no unconsumed one for the action; otherwise it settles the one it found. */
  lemma HoldIsExact(rows: seq<Row>, call: Call, found: Option<nat>, now: int, use: Use)
    requires Held(call) && IsActive(rows, call.tenant, call.tool, call.argsHash, found)
    ensures (found.Some? ==> found.value < |rows|) &&
            var (after, told) := HoldEffect(rows, call, found, now, use);
            if found.Some? then SettledAs(rows, found.value, now, use, after, told)
            else
              && told == ToldHold
              && after == rows + [Row(call.tenant, call.tool, call.argsHash, call.outcome.actionClass,
                                      if call.outcome.decision == HumanInTheLoop then 1 else 2,
                                      now, now + call.timeout, Pending, map[], None, None)]
  {
    if found.Some? { SettleIsExact(rows, found.value, now, use); }
  }

  /** A poll that nobody interrupts: an approval that is not the tenant's is absent; another is settled. */
  lemma PollIsExact(rows: seq<Row>, tenant: string, id: nat, now: int, use: Use)
    ensures var (after, told) := PollEffect(rows, tenant, id, now, use);
            if id < |rows| && rows[id].tenant == tenant then SettledAs(rows, id, now, use, after, told)
            else told == ToldAbsent && after == rows
  {
    if id < |rows| { SettleIsExact(rows, id, now, use); }
  }

  // ---------------------------------------------------------------- the uninterrupted call is a run

  predicate Tells(v: Verdict, told: Told) {
    match told
    case ToldHold => v == Hold
    case ToldAllow => v.Allow? && v.why.ByHumans?
    case ToldRefuse => v == Refuse
    case ToldAbsent => v == Absent
  }

  /** From the moment a call has its record: the expiry, and the read that may follow it. */
  lemma ExpiryIsARun(s: State, pid: nat, now: int) returns (t: State, copy: Copy)
    requires Reachable(s) && pid in s.calls && s.calls[pid].Looked? && s.calls[pid].found.Some?
    requires var rec := s.calls[pid].found.value.rec;
             rec.id < |s.rows| == |s.attempts| && rec.row == s.rows[rec.id]
    ensures var rec := s.calls[pid].found.value.rec;
            && Reachable(t) && t.rows == Expire(s.rows, rec, now) && t.attempts == s.attempts
            && copy.rec == Refreshed(s.rows, rec, now)
            && t.calls == s.calls[pid := Refresh(s.calls[pid].call, copy, now)]
            && s.clock + 1 <= t.clock <= s.clock + 2
            && (t.clock != s.clock + 1 ==> !Expirable(s.rows[rec.id]) && t.rows == s.rows)
            && (!Lapsed(rec, now) ==> t.clock == s.clock + 1)
  {
    var l := s.calls[pid];
    var rec := l.found.value.rec;
    NextReachable(s, ExpireStep(pid, now));
    t := Next(s, ExpireStep(pid, now));
    if t.calls[pid].Rereading? {
      NextReachable(t, Reread(pid));
      copy := Found(t, rec.id, l.found.value.since);
      var u := Next(t, Reread(pid));
      assert u.calls == s.calls[pid := Refresh(l.call, copy, now)];
      t := u;
    } else {
      copy := if Lapsed(rec, now) then Copy(Record(rec.id, ExpireRow(s.rows[rec.id])), l.found.value.since, s.clock + 1)
              else l.found.value;
    }
  }

  /** Then the answer, or the consumption. */
  lemma SettleIsARun(s: State, pid: nat, now: int) returns (t: State)
    requires Reachable(s) && pid in s.calls && s.calls[pid].Looked? && s.calls[pid].found.Some?
    requires var rec := s.calls[pid].found.value.rec; rec.id < |s.rows| == |s.attempts| && rec.row == s.rows[rec.id]
    requires s.calls[pid].call.Authorize? || s.calls[pid].call.Poll?
    ensures Reachable(t) && pid in t.calls && t.calls[pid].Answered? && t.calls[pid].call == s.calls[pid].call
    ensures var (rows, told) := Settle(s.rows, s.calls[pid].found.value.rec.id, now, Use(pid, s.clock + 1));
            t.rows == rows && Tells(t.calls[pid].verdict, told)
  {
    var id := s.calls[pid].found.value.rec.id;
    var copy: Copy;
    t, copy := ExpiryIsARun(s, pid, now);
    if t.calls[pid].Resolving? {
      var first := t.rows[id].consumedBy.None?;
      assert t.clock != s.clock + 1 ==> !first;
      NextReachable(t, ConsumeStep(pid));
      t := Next(t, ConsumeStep(pid));
      if first {
        NextReachable(t, AuditTerminal(pid));
        t := Next(t, AuditTerminal(pid));
      }
      NextReachable(t, Answer(pid));
      t := Next(t, Answer(pid));
    }
  }

  /** A call of `authorize` that nobody interrupts: what the method does is what the machine does, so everything that is
      proved of every run holds of it. */
  lemma HoldIsARun(s: State, pid: nat, call: Call, found: Option<nat>, now: int) returns (t: State)
    requires Reachable(s) && pid !in s.calls && Held(call)
    requires IsActive(s.rows, call.tenant, call.tool, call.argsHash, found)
    ensures Reachable(t) && pid in t.calls && t.calls[pid].Answered? && t.calls[pid].call == call
    ensures (found.Some? ==> found.value < |s.rows|) &&
            var (rows, told) := HoldEffect(s.rows, call, found, now, Use(pid, s.clock + 3));
            t.rows == rows && Tells(t.calls[pid].verdict, told)
  {
    ReachableOk(s);
    NextReachable(s, Begin(pid, call));
    t := Next(s, Begin(pid, call));
    NextReachable(t, Lookup(pid, found));
    t := Next(t, Lookup(pid, found));
    if found.None? {
      NextReachable(t, CreateStep(pid, now));
      t := Next(t, CreateStep(pid, now));
      NextReachable(t, AfterCreate(pid));
      t := Next(t, AfterCreate(pid));
    } else {
      t := SettleIsARun(t, pid, now);
    }
  }

  /** A call by identifier reads its row, or is told that there is none. */
  lemma LookupIsARun(s: State, pid: nat, call: Call) returns (t: State)
    requires Reachable(s) && pid !in s.calls && !call.Authorize?
    ensures Reachable(t) && t.rows == s.rows && t.attempts == s.attempts && t.clock == s.clock + 2
    ensures var found := Fetch(s.rows, call.tenant, call.id);
            t.calls == s.calls[pid := if found.None? then Answered(call, Absent)
                                      else Looked(call, Some(Copy(found.value, s.clock + 1, s.clock + 1)))]
  {
    var found := if Fetch(s.rows, call.tenant, call.id).Some? then Some(call.id) else None;
    NextReachable(s, Begin(pid, call));
    t := Next(s, Begin(pid, call));
    NextReachable(t, Lookup(pid, found));
    var u := Next(t, Lookup(pid, found));
    assert u.calls == s.calls[pid := u.calls[pid]];
    t := u;
  }

  /** A `poll` that nobody interrupts. */
  lemma PollIsARun(s: State, pid: nat, tenant: string, id: nat, now: int) returns (t: State)
    requires Reachable(s) && pid !in s.calls
    ensures Reachable(t) && pid in t.calls && t.calls[pid].Answered? && t.calls[pid].call == Poll(tenant, id)
    ensures var (rows, told) := PollEffect(s.rows, tenant, id, now, Use(pid, s.clock + 3));
            t.rows == rows && Tells(t.calls[pid].verdict, told)
  {
    ReachableOk(s);
    t := LookupIsARun(s, pid, Poll(tenant, id));
    if t.calls[pid].Looked? { t := SettleIsARun(t, pid, now); }
  }

  /** A decision that nobody interrupts is `Approvals.Decide`, and it is answered as such exactly when it read a pending
      row. */
  lemma SignIsARun(s: State, pid: nat, d: Call, now: int) returns (t: State)
    requires Reachable(s) && pid !in s.calls && d.Decision?
    ensures Reachable(t) && pid in t.calls && t.calls[pid].Answered? && t.calls[pid].call == d
    ensures t.rows == Decide(s.rows, d.tenant, d.id, d.approve, d.who, now)
    ensures var found := Fetch(s.rows, d.tenant, d.id);
            t.calls[pid].verdict == if found.None? then Absent
                                    else if Refreshed(s.rows, found.value, now).row.status == Pending then Decided
                                    else Conflict
  {
    ReachableOk(s);
    t := LookupIsARun(s, pid, d);
    if t.calls[pid].Looked? {
      var copy: Copy;
      t, copy := ExpiryIsARun(t, pid, now);
      if t.calls[pid].Ready? {
        NextReachable(t, WriteStep(pid));
        t := Next(t, WriteStep(pid));
      }
    }
  }
}
