/** `request` and `consume_if_approved` of `core/developer_approvals.py` as they run, and the proof that a call that
    nobody interrupts is one of the runs of module `DeveloperRuns`. */
module DeveloperDesk {

  import opened Basics
  import opened PolicyEngine
  import opened Approvals
  import opened DeveloperRuns

  /** The table: rows and the tags of those that belong to a workstation. */
  datatype Table = Table(rows: seq<Row>, tags: seq<Option<Tag>>)

  predicate Aligned(t: Table) { |t.rows| == |t.tags| }

  /** The first row of a request. */
  function FindRequest(t: Table, tenant: string, tag: Tag, upTo: nat): Option<nat>
    requires Aligned(t) && upTo <= |t.rows|
  {
    if upTo == 0 then None
    else
      var before := FindRequest(t, tenant, tag, upTo - 1);
      if before.Some? then before
      else if IsRequest(t.rows[upTo - 1], t.tags[upTo - 1], tenant, tag.device, tag.requestId) then Some(upTo - 1)
      else None
  }

  function RequestEffect(t: Table, call: Call, inForce: bool, now: int): (Table, Reply)
    requires Aligned(t) && call.Request?
  {
    if !inForce then (t, NotAssigned)
    else
      match FindRequest(t, call.tenant, call.tag, |t.rows|)
      case None => (Table(t.rows + [RequestRow(call, now)], t.tags + [Some(call.tag)]), View(|t.rows|, Pending))
      case Some(id) =>
        if id < |t.rows| && t.tags[id].Some?
            && SameBinding(t.tags[id].value, call.tag.policyId, call.tag.version, call.tag.action)
        then
          var rec := Record(id, t.rows[id]);
          (t.(rows := Expire(t.rows, rec, now)), View(id, Refreshed(t.rows, rec, now).row.status))
        else (t, BindingConflict)
  }

  function ConsumeEffect(t: Table, call: Call, now: int, later: int, use: Use): (Table, Reply)
    requires Aligned(t) && call.ConsumeIfApproved?
  {
    if !MayConsume(t.rows, t.tags, call, call.id) then (t, NotFound)
    else
      var rec := Record(call.id, t.rows[call.id]);
      var current := Refreshed(t.rows, rec, now);
      var after := t.(rows := Expire(t.rows, rec, now));
      var row := after.rows[call.id];
      if current.row.status == Approved && row.status == Approved && row.expiresAt > later && row.consumedBy.None?
      then (after.(rows := Consume(after.rows, call.id, use)), Consumed(call.id, later, row))
      else (after, View(call.id, current.row.status))
  }

  class Desk {
    const store: ApprovalStore
    var tags: seq<Option<Tag>>

    constructor (store: ApprovalStore)
      requires store.rows == []
      ensures this.store == store && tags == []
    {
      this.store := store;
      tags := [];
    }

    ghost function Now(): Table
      reads this, store
    {
      Table(store.rows, tags)
    }

    /** `request` */
    method Ask(call: Call, inForce: bool, now: int) returns (reply: Reply)
      requires Aligned(Now()) && call.Request?
      modifies this, store
      ensures Aligned(Now()) && (Now(), reply) == RequestEffect(old(Now()), call, inForce, now)
    {
      if !inForce { return NotAssigned; }
      var found: Option<nat> := None;
      for k := 0 to |store.rows|
        invariant Now() == old(Now())
        invariant found == FindRequest(Now(), call.tenant, call.tag, k)
        invariant found.Some? ==> found.value < k
      {
        if found.None? && IsRequest(store.rows[k], tags[k], call.tenant, call.tag.device, call.tag.requestId) {
          found := Some(k);
        }
      }
      if found.None? {
        var rec := store.Create(RequestRow(call, now));
        tags := tags + [Some(call.tag)];
        return View(rec.id, rec.row.status);
      }
      var id := found.value;
      if tags[id].None? || !SameBinding(tags[id].value, call.tag.policyId, call.tag.version, call.tag.action) {
        return BindingConflict;
      }
      var current := store.ExpireIfNeeded(Record(id, store.rows[id]), now);
      reply := View(id, current.row.status);
    }

    /** `consume_if_approved` */
    method Spend(call: Call, now: int, later: int, use: Use) returns (reply: Reply)
      requires Aligned(Now()) && call.ConsumeIfApproved?
      modifies this, store
      ensures Aligned(Now()) && (Now(), reply) == ConsumeEffect(old(Now()), call, now, later, use)
    {
      if !MayConsume(store.rows, tags, call, call.id) { return NotFound; }
      var id := call.id;
      var current := store.ExpireIfNeeded(Record(id, store.rows[id]), now);
      var row := store.rows[id];
      if current.row.status == Approved && row.status == Approved && row.expiresAt > later && row.consumedBy.None? {
        store.rows := store.rows[id := row.(consumedBy := Some(use))];
        return Consumed(id, later, row);
      }
      reply := View(id, current.row.status);
    }
  }

  lemma {:induction false} FoundIsRequest(t: Table, tenant: string, tag: Tag, upTo: nat)
    requires Aligned(t) && upTo <= |t.rows|
    ensures match FindRequest(t, tenant, tag, upTo)
            case None =>
              forall i :: 0 <= i < upTo ==> !IsRequest(t.rows[i], t.tags[i], tenant, tag.device, tag.requestId)
            case Some(id) => id < upTo && IsRequest(t.rows[id], t.tags[id], tenant, tag.device, tag.requestId)
  {
    if upTo > 0 { FoundIsRequest(t, tenant, tag, upTo - 1); }
  }

  /** The same request finds the same row in a table whose rows kept their action. */
  lemma {:induction false} FoundAgain(t: Table, u: Table, tenant: string, tag: Tag, upTo: nat)
    requires Aligned(t) && Aligned(u) && upTo <= |t.rows| && TableDescends(t.rows, u.rows) && t.tags <= u.tags
    ensures FindRequest(u, tenant, tag, upTo) == FindRequest(t, tenant, tag, upTo)
  {
    if upTo > 0 {
      FoundAgain(t, u, tenant, tag, upTo - 1);
      assert t.tags[upTo - 1] == u.tags[upTo - 1] && SameAction(t.rows[upTo - 1], u.rows[upTo - 1]);
    }
  }

  lemma {:induction false} FoundStays(t: Table, tenant: string, tag: Tag, upTo: nat, more: nat)
    requires Aligned(t) && upTo <= more <= |t.rows| && FindRequest(t, tenant, tag, upTo).Some?
    ensures FindRequest(t, tenant, tag, more) == FindRequest(t, tenant, tag, upTo)
    decreases more
  {
    if upTo < more { FoundStays(t, tenant, tag, upTo, more - 1); }
  }

  /** A request that was answered with an approval is answered with the same one whatever was decided since, and the
      same request identifier with another policy, version or action is refused and changes nothing. */
  lemma RetryFindsTheSameApproval(t: Table, call: Call, now: int, u: Table, retry: Call, later: int)
    requires Aligned(t) && TableOk(t.rows) && call.Request? && retry.Request?
    requires RequestEffect(t, call, true, now).1.View? && retry.tenant == call.tenant
    requires retry.tag.device == call.tag.device && retry.tag.requestId == call.tag.requestId
    requires var after := RequestEffect(t, call, true, now).0;
             Aligned(u) && TableDescends(after.rows, u.rows) && after.tags <= u.tags
    ensures var id := RequestEffect(t, call, true, now).1.id;
            var (v, reply) := RequestEffect(u, retry, true, later);
            if SameBinding(call.tag, retry.tag.policyId, retry.tag.version, retry.tag.action)
            then reply.View? && reply.id == id
            else reply == BindingConflict && v == u
  {
    var (after, reply) := RequestEffect(t, call, true, now);
    var n := |t.rows|;
    FoundIsRequest(t, call.tenant, call.tag, n);
    var found := FindRequest(t, call.tenant, call.tag, n);
    if found.Some? { ExpireKeeps(t.rows, Record(found.value, t.rows[found.value]), now); }
    FirstAnswer(t, call, now);
    FoundAgain(after, u, call.tenant, call.tag, |after.rows|);
    FoundStays(u, call.tenant, call.tag, |after.rows|, |u.rows|);
    SameKeySameRow(u, call.tenant, call.tag, retry.tag, |u.rows|);
  }

  /** After the first answer the request is found, under its own binding. */
  lemma FirstAnswer(t: Table, call: Call, now: int)
    requires Aligned(t) && TableOk(t.rows) && call.Request? && RequestEffect(t, call, true, now).1.View?
    ensures var (after, reply) := RequestEffect(t, call, true, now);
            && Aligned(after) && FindRequest(after, call.tenant, call.tag, |after.rows|) == Some(reply.id)
            && reply.id < |after.rows| && after.tags[reply.id].Some?
            && SameBinding(after.tags[reply.id].value, call.tag.policyId, call.tag.version, call.tag.action)
  {
    var (after, reply) := RequestEffect(t, call, true, now);
    var n := |t.rows|;
    FoundIsRequest(t, call.tenant, call.tag, n);
    match FindRequest(t, call.tenant, call.tag, n)
    case None =>
      CreateKeeps(t.rows, RequestRow(call, now));
      FoundAgain(t, after, call.tenant, call.tag, n);
    case Some(id) =>
      ExpireKeeps(t.rows, Record(id, t.rows[id]), now);
      FoundAgain(t, after, call.tenant, call.tag, n);
  }

  lemma {:induction false} SameKeySameRow(t: Table, tenant: string, a: Tag, b: Tag, upTo: nat)
    requires Aligned(t) && upTo <= |t.rows| && a.device == b.device && a.requestId == b.requestId
    ensures FindRequest(t, tenant, a, upTo) == FindRequest(t, tenant, b, upTo)
  {
    if upTo > 0 { SameKeySameRow(t, tenant, a, b, upTo - 1); }
  }

  /** What the answer `consumed` takes, and that no later consumption gets it again, whatever was decided since. */
  lemma SpentOnce(t: Table, call: Call, now: int, later: int, use: Use, u: Table, again: Call, now': int, later': int,
      use': Use)
    requires Aligned(t) && TableOk(t.rows) && call.ConsumeIfApproved? && again.ConsumeIfApproved? && again.id == call.id
    requires ConsumeEffect(t, call, now, later, use).1.Consumed?
    requires var after := ConsumeEffect(t, call, now, later, use).0;
             Aligned(u) && TableDescends(after.rows, u.rows) && after.tags <= u.tags
    ensures MayConsume(t.rows, t.tags, call, call.id) && t.rows[call.id].status == Approved
    ensures |t.rows[call.id].approvedBy| == t.rows[call.id].required
    ensures now < t.rows[call.id].expiresAt && later < t.rows[call.id].expiresAt
    ensures !ConsumeEffect(u, again, now', later', use').1.Consumed?
  {
    var after := ConsumeEffect(t, call, now, later, use).0;
    assert RowOk(t.rows[call.id]);
    assert Descends(after.rows[call.id], u.rows[call.id]) && after.rows[call.id].consumedBy.Some?;
  }

  // ---------------------------------------------------------------- what is answered, on the row itself

  /** The status of a row after its expiry check. */
  function StatusAt(r: Row, now: int): Status {
    if r.status in {Pending, Approved} && r.expiresAt <= now && r.consumedBy.None? then Status.Expired else r.status
  }

  /** The approval is the tenant's and was requested by this device under this policy version for this action. */
  predicate IsBoundTo(r: Row, tag: Option<Tag>, call: Call)
    requires call.ConsumeIfApproved?
  {
    && r.tenant == call.tenant && tag.Some? && tag.value.device == call.device && tag.value.policyId == call.policyId
    && tag.value.version == call.version && tag.value.action == call.action
  }

  /** `consume_if_approved` that nobody interrupts: `consumed` exactly for an approval bound to the caller that is
      approved, unconsumed, and unexpired at both clock readings; an approval that is not bound to the caller is not
      found and left alone; of any other the status after the expiry check is shown. */
  lemma SpendIsExact(t: Table, call: Call, now: int, later: int, use: Use)
    requires Aligned(t) && call.ConsumeIfApproved?
    ensures var (after, reply) := ConsumeEffect(t, call, now, later, use);
            if !(call.id < |t.rows| && IsBoundTo(t.rows[call.id], t.tags[call.id], call))
            then reply == NotFound && after == t
            else
              var r := t.rows[call.id];
              var spent := r.status == Approved && r.consumedBy.None? && now < r.expiresAt && later < r.expiresAt;
              && reply == (if spent then Consumed(call.id, later, r) else View(call.id, StatusAt(r, now)))
              && after == Table(t.rows[call.id := r.(status := StatusAt(r, now),
                                                      consumedBy := if spent then Some(use) else r.consumedBy)], t.tags)
  {
    var (after, reply) := ConsumeEffect(t, call, now, later, use);
    if call.id < |t.rows| && IsBoundTo(t.rows[call.id], t.tags[call.id], call) {
      var r := t.rows[call.id];
      assert r == r.(status := r.status, consumedBy := r.consumedBy);
      assert t.rows == t.rows[call.id := r];
    }
  }

  /** `request` that nobody interrupts, when the policy is in force: the first request of a device with this
      identifier inserts an approval for one person and five minutes; a repetition under the same policy version and
      action is shown the status of that approval; another binding is a conflict. */
  lemma AskIsExact(t: Table, call: Call, inForce: bool, now: int)
    requires Aligned(t) && call.Request?
    ensures var (after, reply) := RequestEffect(t, call, inForce, now);
            var n := |t.rows|;
            if !inForce then reply == NotAssigned && after == t
            else if forall i :: 0 <= i < n ==>
                      !IsRequest(t.rows[i], t.tags[i], call.tenant, call.tag.device, call.tag.requestId)
            then
              && reply == View(n, Pending)
              && after == Table(t.rows + [Row(call.tenant, "developer-guard." + call.tool, call.tag.action,
                                              Some(call.actionClass), 1, now, now + 300, Pending, map[], None, None)],
                                t.tags + [Some(call.tag)])
            else
              exists i :: 0 <= i < n
                          && IsRequest(t.rows[i], t.tags[i], call.tenant, call.tag.device, call.tag.requestId)
                && var tag, r := t.tags[i].value, t.rows[i];
                   if tag.policyId == call.tag.policyId && tag.version == call.tag.version
                      && tag.action == call.tag.action
                   then
                     && reply == View(i, StatusAt(r, now))
                     && after == Table(t.rows[i := r.(status := StatusAt(r, now))], t.tags)
                   else reply == BindingConflict && after == t
  {
    FoundIsRequest(t, call.tenant, call.tag, |t.rows|);
    var found := FindRequest(t, call.tenant, call.tag, |t.rows|);
    if found.Some? {
      var r := t.rows[found.value];
      assert r == r.(status := r.status);
      assert t.rows == t.rows[found.value := r];
    }
  }

  // ---------------------------------------------------------------- the uninterrupted call is a run

  ghost predicate Stands(s: State, t: Table) { s.rows == t.rows && s.tags == t.tags }

  /** No approval was consumed under this identifier before the call begins. */
  predicate Unused(rows: seq<Row>, pid: nat) {
    forall id :: 0 <= id < |rows| && rows[id].consumedBy.Some? ==> rows[id].consumedBy.value.call != pid
  }

  /** From the moment a call has its record: the expiry, and the read that may follow it. */
  lemma ExpiryIsARun(s: State, pid: nat, now: int) returns (u: State)
    requires Reachable(s) && pid in s.calls && s.calls[pid].Found?
    requires s.calls[pid].rec.id < |s.rows| && s.calls[pid].rec.row == s.rows[s.calls[pid].rec.id]
    ensures var l := s.calls[pid];
            && Reachable(u) && u.rows == Expire(s.rows, l.rec, now) && u.tags == s.tags && pid in u.calls
            && u.calls[pid] == Refresh(l.call, Refreshed(s.rows, l.rec, now))
            && (u.clock == s.clock + 1 || s.rows[l.rec.id].consumedBy.Some?)
  {
    NextReachable(s, ExpireStep(pid, now));
    u := Next(s, ExpireStep(pid, now));
    if u.calls[pid].Rereading? {
      NextReachable(u, Reread(pid));
      u := Next(u, Reread(pid));
    }
  }

  /** A `request` that nobody interrupts. */
  lemma AskIsARun(s: State, t: Table, pid: nat, call: Call, inForce: bool, now: int) returns (u: State)
    requires Reachable(s) && Stands(s, t) && pid !in s.calls && Unused(s.rows, pid) && call.Request?
    ensures Reachable(u) && Aligned(t) && Stands(u, RequestEffect(t, call, inForce, now).0)
    ensures pid in u.calls && u.calls[pid] == Replied(call, RequestEffect(t, call, inForce, now).1)
  {
    assert Aligned(t) by { ReachableOk(s); }
    var found := FindRequest(t, call.tenant, call.tag, |t.rows|);
    FoundIsRequest(t, call.tenant, call.tag, |t.rows|);
    NextReachable(s, Begin(pid, call));
    u := Next(s, Begin(pid, call));
    NextReachable(u, LookupRequest(pid, inForce, found));
    u := Next(u, LookupRequest(pid, inForce, found));
    if u.calls[pid].Missing? {
      NextReachable(u, Insert(pid, now));
      u := Next(u, Insert(pid, now));
    } else if u.calls[pid].Found? {
      u := ExpiryIsARun(u, pid, now);
    }
  }

  /** The guarded update, and the answer. */
  lemma UpdateIsARun(s: State, pid: nat, later: int) returns (u: State)
    requires Reachable(s) && pid in s.calls && s.calls[pid].Checked? && s.calls[pid].rec.id < |s.rows|
    requires MayConsume(s.rows, s.tags, s.calls[pid].call, s.calls[pid].rec.id)
    ensures Reachable(u) && u.tags == s.tags && pid in u.calls
    ensures var l := s.calls[pid];
            var id, row := l.rec.id, s.rows[l.rec.id];
            if l.rec.row.status == Approved && row.status == Approved && row.expiresAt > later && row.consumedBy.None?
            then
              && u.rows == Consume(s.rows, id, Use(pid, s.clock))
              && u.calls[pid] == Replied(l.call, Consumed(id, later, row))
            else u.rows == s.rows && u.calls[pid] == Replied(l.call, View(id, l.rec.row.status))
  {
    NextReachable(s, GuardedUpdate(pid, later));
    u := Next(s, GuardedUpdate(pid, later));
  }

  /** From the lookup on. */
  lemma FoundIsSpent(s: State, t: Table, pid: nat, now: int, later: int) returns (u: State)
    requires Reachable(s) && Stands(s, t) && Aligned(t) && pid in s.calls && s.calls[pid].Found?
    requires var call := s.calls[pid].call;
             && call.ConsumeIfApproved? && MayConsume(t.rows, t.tags, call, call.id)
             && s.calls[pid].rec == Record(call.id, t.rows[call.id])
    ensures var call, use := s.calls[pid].call, Use(pid, s.clock + 1);
            && Reachable(u) && Stands(u, ConsumeEffect(t, call, now, later, use).0)
            && pid in u.calls && u.calls[pid] == Replied(call, ConsumeEffect(t, call, now, later, use).1)
  {
    hide Reachable, Enabled, Next;
    u := ExpiryIsARun(s, pid, now);
    u := UpdateIsARun(u, pid, later);
  }

  /** A `consume_if_approved` that nobody interrupts. */
  lemma SpendIsARun(s: State, t: Table, pid: nat, call: Call, now: int, later: int) returns (u: State)
    requires Reachable(s) && Stands(s, t) && pid !in s.calls && Unused(s.rows, pid) && call.ConsumeIfApproved?
    ensures var use := Use(pid, s.clock + 3);
            && Reachable(u) && Aligned(t) && Stands(u, ConsumeEffect(t, call, now, later, use).0)
            && pid in u.calls && u.calls[pid] == Replied(call, ConsumeEffect(t, call, now, later, use).1)
  {
    assert Aligned(t) by { ReachableOk(s); }
    NextReachable(s, Begin(pid, call));
    u := Next(s, Begin(pid, call));
    NextReachable(u, LookupConsume(pid));
    u := Next(u, LookupConsume(pid));
    if MayConsume(t.rows, t.tags, call, call.id) { u := FoundIsSpent(u, t, pid, now, later); }
  }
}
