/** The approval records of `core/approvals.py`.  A table is a sequence of rows, which are never deleted, and the
    identifier of a row is its position.  Every statement reads or writes one version of one row; a decision reads a
    row, refreshes it, and later writes from its copy without a guard, so other steps may fall in between. */
module Approvals {

  import opened Basics
  import opened PolicyEngine

  datatype Status = Pending | Approved | Denied | Expired

  /** `approvedBy` maps each signer to the clock reading of the signature; `consumedBy` holds the call that set
      `consumed_at` and when. */
  datatype Row = Row(
    tenant: string,
    tool: string,
    argsHash: string,
    actionClass: Option<ActionClass>,
    required: nat,
    createdAt: int,
    expiresAt: int,
    status: Status,
    approvedBy: map<string, int>,
    decidedBy: Option<string>,
    consumedBy: Option<Use>)

  datatype Use = Use(call: nat, at: nat)

  /** What a caller holds: a copy of a row as it was read. */
  datatype Record = Record(id: nat, row: Row)

  // ---------------------------------------------------------------- the data-access functions

  predicate Matches(row: Row, tenant: string, tool: string, argsHash: string) {
    row.tenant == tenant && row.tool == tool && row.argsHash == argsHash && row.consumedBy.None?
  }

  /** An approval of the action that nobody consumed. */
  predicate Unspent(row: Row, tenant: string, tool: string, argsHash: string) {
    (row.tenant, row.tool, row.argsHash, row.consumedBy) == (tenant, tool, argsHash, None)
  }

  /** `find_active`: the most recent unconsumed row of the action, if there is one. */
  ghost predicate IsActive(rows: seq<Row>, tenant: string, tool: string, argsHash: string, found: Option<nat>) {
    match found
    case None => forall i :: 0 <= i < |rows| ==> !Matches(rows[i], tenant, tool, argsHash)
    case Some(id) =>
      && id < |rows| && Matches(rows[id], tenant, tool, argsHash)
      && forall i ::
           0 <= i < |rows| && Matches(rows[i], tenant, tool, argsHash) ==> rows[i].createdAt <= rows[id].createdAt
  }

  function Fetch(rows: seq<Row>, tenant: string, id: nat): Option<Record> {
    if id < |rows| && rows[id].tenant == tenant then Some(Record(id, rows[id])) else None
  }

  function NewRow(tenant: string, tool: string, argsHash: string, actionClass: Option<ActionClass>, required: nat,
                  createdAt: int, expiresAt: int): Row {
    Row(tenant, tool, argsHash, actionClass, required, createdAt, expiresAt, Pending, map[], None, None)
  }

  /** A row as `create` inserts it. */
  predicate Fresh(row: Row) {
    row.status == Pending && row.approvedBy == map[] && row.decidedBy.None? && row.consumedBy.None?
  }

  /** The record says that its window may have closed. */
  predicate Lapsed(rec: Record, now: int) { rec.row.status in {Pending, Approved} && rec.row.expiresAt <= now }

  /** The guard of the update in `expire_if_needed`. */
  predicate Expirable(row: Row) { row.status in {Pending, Approved} && row.consumedBy.None? }

  /** That update on the row of a record. */
  function ExpireRow(row: Row): Row { if Expirable(row) then row.(status := Expired) else row }

  function Expire(rows: seq<Row>, rec: Record, now: int): seq<Row>
    requires rec.id < |rows|
  {
    if Lapsed(rec, now) then rows[rec.id := ExpireRow(rows[rec.id])] else rows
  }

  /** What `expire_if_needed` returns: the row read again, or the record as it was. */
  function Refreshed(rows: seq<Row>, rec: Record, now: int): Record
    requires rec.id < |rows|
  {
    if Lapsed(rec, now) then Record(rec.id, ExpireRow(rows[rec.id])) else rec
  }

  /** `consume` */
  function Consume(rows: seq<Row>, id: nat, use: Use): seq<Row>
    requires id < |rows|
  {
    if rows[id].consumedBy.None? then rows[id := rows[id].(consumedBy := Some(use))] else rows
  }

  /** The last statement of `decide`: what it writes on `row`, from the copy `seen` that it read; `now` is the clock
      reading of its expiry check.  The statement names the row and nothing else. */
  function Overwrite(row: Row, seen: Row, approve: bool, who: string, now: int): Row {
    if approve then
      var signed := if who in seen.approvedBy then seen.approvedBy else seen.approvedBy[who := now];
      row.(approvedBy := signed, decidedBy := Some(who),
           status := if |signed| >= seen.required then Approved else Pending)
    else row.(status := Denied, decidedBy := Some(who))
  }

  /** A signature, or a refusal, written on the row as it was read. */
  function DecideRow(row: Row, approve: bool, who: string, now: int): Row { Overwrite(row, row, approve, who, now) }

  /** `decide` when nothing falls between its statements. */
  function Decide(rows: seq<Row>, tenant: string, id: nat, approve: bool, who: string, now: int): seq<Row> {
    if Fetch(rows, tenant, id).None? then rows
    else
      var rec := Record(id, rows[id]);
      var seen, after := Refreshed(rows, rec, now).row, Expire(rows, rec, now);
      if seen.status == Pending then after[id := Overwrite(after[id], seen, approve, who, now)] else after
  }

  class ApprovalStore {
    var rows: seq<Row>

    constructor ()
      ensures rows == []
    {
      rows := [];
    }

    method FindActive(tenant: string, tool: string, argsHash: string) returns (rec: Option<Record>)
      ensures IsActive(rows, tenant, tool, argsHash, if rec.Some? then Some(rec.value.id) else None)
      ensures rec.Some? ==> rec.value.row == rows[rec.value.id]
      ensures rec.None? <==> forall i :: 0 <= i < |rows| ==> !Unspent(rows[i], tenant, tool, argsHash)
      ensures rec.Some? ==>
                && Unspent(rec.value.row, tenant, tool, argsHash)
                && forall i :: 0 <= i < |rows| && Unspent(rows[i], tenant, tool, argsHash) ==>
                     rows[i].createdAt <= rec.value.row.createdAt
    {
      rec := None;
      for i := 0 to |rows|
        invariant rec.None? ==> forall j :: 0 <= j < i ==> !Matches(rows[j], tenant, tool, argsHash)
        invariant rec.Some? ==>
                    && rec.value.id < i && rec.value.row == rows[rec.value.id]
                    && Matches(rec.value.row, tenant, tool, argsHash)
                    && forall j :: 0 <= j < i && Matches(rows[j], tenant, tool, argsHash)
                                   ==> rows[j].createdAt <= rec.value.row.createdAt
      {
        if Matches(rows[i], tenant, tool, argsHash) && (rec.None? || rec.value.row.createdAt <= rows[i].createdAt) {
          rec := Some(Record(i, rows[i]));
        }
      }
    }

    method Get(tenant: string, id: nat) returns (rec: Option<Record>)
      ensures rec == Fetch(rows, tenant, id)
    {
      rec := if id < |rows| && rows[id].tenant == tenant then Some(Record(id, rows[id])) else None;
    }

    method Create(row: Row) returns (rec: Record)
      requires Fresh(row)
      modifies this
      ensures rows == old(rows) + [row] && rec == Record(|old(rows)|, row)
    {
      rec := Record(|rows|, row);
      rows := rows + [row];
    }

    method ExpireIfNeeded(rec: Record, now: int) returns (current: Record)
      requires rec.id < |rows|
      modifies this
      ensures rows == Expire(old(rows), rec, now) && current == Refreshed(old(rows), rec, now)
    {
      if rec.row.status in {Pending, Approved} && rec.row.expiresAt <= now {
        if rows[rec.id].status in {Pending, Approved} && rows[rec.id].consumedBy.None? {
          rows := rows[rec.id := rows[rec.id].(status := Expired)];
        }
        return Record(rec.id, rows[rec.id]);
      }
      current := rec;
    }

    method ConsumeOnce(id: nat, use: Use) returns (first: bool)
      requires id < |rows|
      modifies this
      ensures rows == Consume(old(rows), id, use) && first == old(rows)[id].consumedBy.None?
    {
      first := rows[id].consumedBy.None?;
      if first { rows := rows[id := rows[id].(consumedBy := Some(use))]; }
    }

    method Sign(tenant: string, id: nat, approve: bool, who: string, now: int) returns (rec: Option<Record>)
      modifies this
      ensures rows == Decide(old(rows), tenant, id, approve, who, now)
      ensures rec == Fetch(rows, tenant, id)
    {
      rec := Get(tenant, id);
      if rec.None? { return; }
      var current := ExpireIfNeeded(rec.value, now);
      if current.row.status == Pending {
        var row := rows[id];
        if !approve {
          row := row.(status := Denied, decidedBy := Some(who));
        } else {
          var signed := current.row.approvedBy;
          if who !in signed { signed := signed[who := now]; }
          row := row.(approvedBy := signed, decidedBy := Some(who),
                      status := if |signed| >= current.row.required then Approved else Pending);
        }
        rows := rows[id := row];
      }
      rec := Get(tenant, id);
    }
  }

  // ---------------------------------------------------------------- the life of one row

  /** Every signature was given before the window closed. */
  predicate Timely(row: Row) { forall who <- row.approvedBy :: row.approvedBy[who] < row.expiresAt }

  /** A quorum of distinct signers, each of whom signed before the window closed. */
  predicate Quorum(row: Row) { |row.approvedBy| >= row.required && Timely(row) }

  /** What holds of every version of every row in every run: somebody is required, no version carries more signatures
      than that, and the status says whether the quorum is there. */
  predicate RowOk(row: Row) {
    && 1 <= row.required && |row.approvedBy| <= row.required
    && (row.status == Pending ==> |row.approvedBy| < row.required)
    && (row.status == Approved ==> |row.approvedBy| == row.required)
  }

  predicate SameAction(a: Row, b: Row) {
    && a.tenant == b.tenant && a.tool == b.tool && a.argsHash == b.argsHash && a.actionClass == b.actionClass
    && a.required == b.required && a.createdAt == b.createdAt && a.expiresAt == b.expiresAt
  }

  predicate StatusMoves(a: Status, b: Status) {
    a == b || (a == Pending && b in {Approved, Denied, Expired}) || (a == Approved && b == Expired)
  }

  /** What no interleaving undoes: the action of a row, its quorum, its window, and its consumption. */
  predicate Descends(a: Row, b: Row) { SameAction(a, b) && (a.consumedBy.Some? ==> b.consumedBy == a.consumedBy) }

  /** How a row is meant to change: its action never, its status only forward, its signers only by addition while it is
      pending, and nothing at all once it is consumed. */
  predicate Evolves(a: Row, b: Row) {
    && SameAction(a, b) && StatusMoves(a.status, b.status) && a.approvedBy.Keys <= b.approvedBy.Keys
    && (a.status != Pending ==> a.approvedBy == b.approvedBy && a.decidedBy == b.decidedBy)
    && (a.consumedBy.Some? ==> a == b)
  }

  lemma EvolvesTransitive(a: Row, b: Row, c: Row)
    requires Evolves(a, b) && Evolves(b, c)
    ensures Evolves(a, c)
  {
  }

  ghost predicate TableOk(rows: seq<Row>) { forall i :: 0 <= i < |rows| ==> RowOk(rows[i]) }

  ghost predicate TableDescends(a: seq<Row>, b: seq<Row>) {
    |a| <= |b| && forall i :: 0 <= i < |a| ==> Descends(a[i], b[i])
  }

  lemma ReplaceRow(rows: seq<Row>, id: nat, row: Row)
    requires TableOk(rows) && id < |rows| && RowOk(row) && Descends(rows[id], row)
    ensures TableOk(rows[id := row]) && TableDescends(rows, rows[id := row])
  {
  }

  lemma ExpireRowOk(row: Row)
    requires RowOk(row)
    ensures RowOk(ExpireRow(row)) && Evolves(row, ExpireRow(row))
  {
  }

  lemma ExpireKeeps(rows: seq<Row>, rec: Record, now: int)
    requires TableOk(rows) && rec.id < |rows|
    ensures TableOk(Expire(rows, rec, now)) && TableDescends(rows, Expire(rows, rec, now))
  {
    ExpireRowOk(rows[rec.id]);
    ReplaceRow(rows, rec.id, ExpireRow(rows[rec.id]));
  }

  /** No row is consumed or added. */
  ghost predicate SameUses(a: seq<Row>, b: seq<Row>) {
    |a| == |b| && forall i :: 0 <= i < |a| ==> a[i].consumedBy == b[i].consumedBy
  }

  lemma ExpireKeepsUses(rows: seq<Row>, rec: Record, now: int)
    requires rec.id < |rows|
    ensures SameUses(rows, Expire(rows, rec, now))
  {
  }

  lemma ConsumeKeeps(rows: seq<Row>, id: nat, use: Use)
    requires TableOk(rows) && id < |rows|
    ensures TableOk(Consume(rows, id, use)) && TableDescends(rows, Consume(rows, id, use))
    ensures Evolves(rows[id], Consume(rows, id, use)[id])
  {
    if rows[id].consumedBy.None? { ReplaceRow(rows, id, rows[id].(consumedBy := Some(use))); }
  }

  /** A decision keeps every row well formed, however old the copy it writes from. */
  lemma OverwriteOk(row: Row, seen: Row, approve: bool, who: string, now: int)
    requires RowOk(row) && RowOk(seen) && SameAction(seen, row) && seen.status == Pending
    ensures RowOk(Overwrite(row, seen, approve, who, now)) && Descends(row, Overwrite(row, seen, approve, who, now))
  {
  }

  /** What makes the unguarded write harmless: it repeats what is there, or the row is still pending and unconsumed and
      no other person has signed since it was read. */
  predicate Clean(row: Row, seen: Row, approve: bool, who: string, now: int) {
    || Overwrite(row, seen, approve, who, now) == row
    || (row.status == Pending && row.consumedBy.None?
        && (approve ==> row.approvedBy.Keys <= seen.approvedBy.Keys + {who}))
  }

  lemma SignedKeys(row: Row, seen: Row, who: string, now: int)
    ensures Overwrite(row, seen, true, who, now).approvedBy.Keys == seen.approvedBy.Keys + {who}
  {
  }

  lemma CleanWriteAdvances(row: Row, seen: Row, approve: bool, who: string, now: int)
    requires Clean(row, seen, approve, who, now)
    ensures Evolves(row, Overwrite(row, seen, approve, who, now))
  {
    SignedKeys(row, seen, who, now);
  }

  lemma AdvancingWriteIsClean(row: Row, seen: Row, approve: bool, who: string, now: int)
    requires Evolves(row, Overwrite(row, seen, approve, who, now))
    ensures Clean(row, seen, approve, who, now)
  {
    var w := Overwrite(row, seen, approve, who, now);
    SignedKeys(row, seen, who, now);
    if row.consumedBy.None? && row.status != Pending {
      assert w.status == row.status;
      assert w == row.(status := w.status, approvedBy := w.approvedBy, decidedBy := w.decidedBy);
    }
  }

  /** A write from a copy changes the row as it is meant to change exactly when it is clean. */
  lemma WriteAdvancesIff(row: Row, seen: Row, approve: bool, who: string, now: int)
    ensures Evolves(row, Overwrite(row, seen, approve, who, now)) <==> Clean(row, seen, approve, who, now)
  {
    hide Evolves, Overwrite, Clean;
    if Clean(row, seen, approve, who, now) { CleanWriteAdvances(row, seen, approve, who, now); }
    if Evolves(row, Overwrite(row, seen, approve, who, now)) { AdvancingWriteIsClean(row, seen, approve, who, now); }
  }

  /** A decision that nothing interrupts keeps every row well formed; a row that is not both pending and consumed only
      advances, and its signatures stay in time. */
  lemma DecideKeeps(rows: seq<Row>, tenant: string, id: nat, approve: bool, who: string, now: int)
    requires TableOk(rows)
    ensures TableOk(Decide(rows, tenant, id, approve, who, now))
    ensures TableDescends(rows, Decide(rows, tenant, id, approve, who, now))
    ensures forall i :: 0 <= i < |rows| && (rows[i].status == Pending ==> rows[i].consumedBy.None?) ==>
              var after := Decide(rows, tenant, id, approve, who, now)[i];
              Evolves(rows[i], after) && (Timely(rows[i]) ==> Timely(after))
  {
    if Fetch(rows, tenant, id).Some? {
      var rec := Record(id, rows[id]);
      var seen, after := Refreshed(rows, rec, now).row, Expire(rows, rec, now);
      ExpireRowOk(rows[id]);
      ExpireKeeps(rows, rec, now);
      if seen.status == Pending {
        OverwriteOk(after[id], seen, approve, who, now);
        ReplaceRow(after, id, Overwrite(after[id], seen, approve, who, now));
        WriteAdvancesIff(after[id], seen, approve, who, now);
      }
    }
  }

  /** A decision that nothing interrupts, exactly: of another tenant's approval, or of a settled one, nothing changes;
      one whose window is closed expires unless it was consumed; a refusal denies; a signature joins those of other
      people and approves exactly when there are then as many as required. */
  lemma DecideIsExact(rows: seq<Row>, tenant: string, id: nat, approve: bool, who: string, now: int)
    ensures var after := Decide(rows, tenant, id, approve, who, now);
            if id >= |rows| || rows[id].tenant != tenant then after == rows
            else
              var r := rows[id];
              if r.status in {Pending, Approved} && r.expiresAt <= now && r.consumedBy.None?
              then after == rows[id := r.(status := Expired)]
              else if r.status != Pending then after == rows
              else if !approve then after == rows[id := r.(status := Denied, decidedBy := Some(who))]
              else
                && after == rows[id := r.(approvedBy := after[id].approvedBy, decidedBy := Some(who),
                                          status := if |r.approvedBy.Keys + {who}| >= r.required then Approved
                                                    else Pending)]
                && after[id].approvedBy.Keys == r.approvedBy.Keys + {who}
                && forall p <- r.approvedBy.Keys + {who} ::
                     after[id].approvedBy[p] == if p in r.approvedBy then r.approvedBy[p] else now
  {
    if id < |rows| && rows[id].tenant == tenant {
      var r := rows[id];
      SignedKeys(r, r, who, now);
      assert rows == rows[id := r];
      assert |Overwrite(r, r, true, who, now).approvedBy| == |Overwrite(r, r, true, who, now).approvedBy.Keys|;
    }
  }

  lemma CreateKeeps(rows: seq<Row>, row: Row)
    requires TableOk(rows) && RowOk(row)
    ensures TableOk(rows + [row]) && TableDescends(rows, rows + [row])
  {
  }

  // ---------------------------------------------------------------- what a row of decisions comes to

  datatype Vote = Vote(who: string, approve: bool, now: int)

  /** `decide` on one row. */
  function VoteOn(row: Row, v: Vote): Row {
    var current := Refreshed([row], Record(0, row), v.now).row;
    if current.status == Pending then DecideRow(current, v.approve, v.who, v.now) else current
  }

  function AfterVotes(row: Row, votes: seq<Vote>): Row {
    if votes == [] then row else VoteOn(AfterVotes(row, votes[..|votes| - 1]), votes[|votes| - 1])
  }

  lemma DecideIsVoteOn(rows: seq<Row>, tenant: string, id: nat, v: Vote)
    requires Fetch(rows, tenant, id).Some?
    ensures Decide(rows, tenant, id, v.approve, v.who, v.now) == rows[id := VoteOn(rows[id], v)]
  {
  }

  /** The people who signed. */
  function Signers(votes: seq<Vote>): set<string> {
    if votes == [] then {}
    else Signers(votes[..|votes| - 1]) + (if votes[|votes| - 1].approve then {votes[|votes| - 1].who} else {})
  }

  predicate Unanimous(votes: seq<Vote>) { forall k :: 0 <= k < |votes| ==> votes[k].approve }

  /** Nobody refused, and too few distinct people signed. */
  predicate Undecided(votes: seq<Vote>, required: nat) { Unanimous(votes) && |Signers(votes)| < required }

  predicate InTime(votes: seq<Vote>, expiresAt: int) { forall k :: 0 <= k < |votes| ==> votes[k].now < expiresAt }

  lemma UndecidedFront(votes: seq<Vote>, required: nat)
    requires votes != [] && Undecided(votes, required)
    ensures Undecided(votes[..|votes| - 1], required) && votes[|votes| - 1].approve
  {
    var front, last := votes[..|votes| - 1], votes[|votes| - 1];
    assert Unanimous(front) by {
      forall k | 0 <= k < |front| ensures front[k].approve { assert front[k] == votes[k]; }
    }
    if last.who in Signers(front) {
      assert Signers(votes) == Signers(front);
    } else {
      assert |Signers(votes)| == |Signers(front)| + 1;
    }
  }

  /** A pending row stays pending exactly while nobody refused and the quorum of distinct people is not reached; its
      signers are then exactly those who signed. */
  lemma {:induction false} PendingWhileUndecided(row: Row, votes: seq<Vote>)
    requires row.status == Pending && row.approvedBy == map[] && row.consumedBy.None? && row.required >= 1
    requires InTime(votes, row.expiresAt)
    ensures AfterVotes(row, votes).status == Pending <==> Undecided(votes, row.required)
    ensures AfterVotes(row, votes).status in {Pending, Approved, Denied}
    ensures SameAction(AfterVotes(row, votes), row) && AfterVotes(row, votes).consumedBy.None?
    ensures AfterVotes(row, votes).status == Pending ==> AfterVotes(row, votes).approvedBy.Keys == Signers(votes)
  {
    if votes != [] {
      var front, last := votes[..|votes| - 1], votes[|votes| - 1];
      assert InTime(front, row.expiresAt);
      PendingWhileUndecided(row, front);
      var before := AfterVotes(row, front);
      assert last.now < row.expiresAt;
      if before.status == Pending {
        assert Unanimous(votes) <==> last.approve by {
          forall k | 0 <= k < |front| ensures votes[k].approve { assert votes[k] == front[k]; }
        }
        if last.approve {
          assert AfterVotes(row, votes).approvedBy.Keys == Signers(votes);
        }
      } else if Undecided(votes, row.required) {
        UndecidedFront(votes, row.required);
      }
    }
  }

  /** The first decision that settles the row gives its status: a refusal denies it at once, and the signature that
      completes the quorum of distinct people approves it; signing twice counts once. */
  lemma {:induction false} FirstSettlingVoteDecides(row: Row, votes: seq<Vote>, k: nat)
    requires row.status == Pending && row.approvedBy == map[] && row.consumedBy.None? && row.required >= 1
    requires InTime(votes, row.expiresAt) && k < |votes|
    requires Undecided(votes[..k], row.required) && !Undecided(votes[..k + 1], row.required)
    ensures AfterVotes(row, votes).status == if votes[k].approve then Approved else Denied
    decreases |votes|
  {
    var front := votes[..|votes| - 1];
    assert InTime(front, row.expiresAt);
    if k == |front| {
      assert votes[..k] == front && votes[..k + 1] == votes;
      PendingWhileUndecided(row, front);
      PendingWhileUndecided(row, votes);
    } else {
      assert front[..k] == votes[..k] && front[..k + 1] == votes[..k + 1];
      FirstSettlingVoteDecides(row, front, k);
      PendingWhileUndecided(row, front);
    }
  }
}
