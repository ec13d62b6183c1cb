/** `core/audit.py`: one table of audit rows in which the hash chains of all tenants are interleaved. */
module Journal {
  import opened Basics
  import opened JsonText
  import opened Timestamps
  import opened HashChain

  // ---------------------------------------------------------------- one event

  /** The twelve hashed columns. */
  datatype Entry = Entry(
    ts: Instant,
    tenant: string,
    userId: Option<string>,
    requestId: Option<string>,
    toolName: Option<string>,
    actionClass: Option<string>,
    decision: string,
    policyRuleId: Option<string>,
    judgeUsed: bool,
    argsHash: Option<string>,
    latencyMs: Option<int>,
    error: Option<string>)

  function OptStr(s: Option<string>): Json { if s.None? then Null else Str(s.value) }

  function OptInt(n: Option<int>): Json { if n.None? then Null else Int(n.value) }

  /** The keys of `payload_v1`, sorted. */
  const KEYS := [ "action_class", "args_hash", "decision", "error", "judge_used", "latency_ms",
                  "policy_rule_id", "request_id", "tenant_id", "tool_name", "ts", "user_id" ]

  /** The value printed under the `i`-th key. */
  function Column(e: Entry, i: int): Json {
    match i
    case 0 => OptStr(e.actionClass)
    case 1 => OptStr(e.argsHash)
    case 2 => Str(e.decision)
    case 3 => OptStr(e.error)
    case 4 => Bool(e.judgeUsed)
    case 5 => OptInt(e.latencyMs)
    case 6 => OptStr(e.policyRuleId)
    case 7 => OptStr(e.requestId)
    case 8 => Str(e.tenant)
    case 9 => OptStr(e.toolName)
    case 10 => Str(CanonicalTs(e.ts))
    case _ => OptStr(e.userId)
  }

  function Columns(e: Entry): int -> Json { i => Column(e, i) }

  function PayloadV1(e: Entry): string { Text(Record(KEYS, Columns(e))) }

  predicate SameColumn(d: Entry, e: Entry, i: int) { Column(d, i) == Column(e, i) }

  lemma FirstColumns(d: Entry, e: Entry)
    requires forall i :: 0 <= i < 6 ==> SameColumn(d, e, i)
    ensures d.actionClass == e.actionClass && d.argsHash == e.argsHash && d.decision == e.decision
    ensures d.error == e.error && d.judgeUsed == e.judgeUsed && d.latencyMs == e.latencyMs
  {
    assert SameColumn(d, e, 0) && SameColumn(d, e, 1) && SameColumn(d, e, 2);
    assert SameColumn(d, e, 3) && SameColumn(d, e, 4) && SameColumn(d, e, 5);
  }

  lemma ColumnExact(e: Entry, i: int)
    ensures Exact(Column(e, i))
  {
  }

  lemma ColumnsEqual(d: Entry, e: Entry)
    requires PayloadV1(d) == PayloadV1(e)
    ensures forall i :: 0 <= i < 12 ==> SameColumn(d, e, i)
  {
    forall i ensures Exact(Columns(d)(i)) && Exact(Columns(e)(i)) { ColumnExact(d, i); ColumnExact(e, i); }
    RecordInjective(KEYS, Columns(d), Columns(e));
    forall i | 0 <= i < 12 ensures SameColumn(d, e, i) {
      assert Columns(d)(i) == Columns(e)(i);
    }
  }

  lemma MiddleColumns(d: Entry, e: Entry)
    requires forall i :: 6 <= i < 9 ==> SameColumn(d, e, i)
    ensures d.policyRuleId == e.policyRuleId && d.requestId == e.requestId && d.tenant == e.tenant
  {
    assert SameColumn(d, e, 6) && SameColumn(d, e, 7) && SameColumn(d, e, 8);
  }

  lemma LastColumns(d: Entry, e: Entry)
    requires forall i :: 9 <= i < 12 ==> SameColumn(d, e, i)
    ensures d.toolName == e.toolName && d.ts == e.ts && d.userId == e.userId
  {
    assert SameColumn(d, e, 9) && SameColumn(d, e, 10) && SameColumn(d, e, 11);
    CanonicalTsInjective(d.ts, e.ts);
  }

  /** Two events with the same hashed payload agree on all twelve columns. */
  lemma PayloadInjective(d: Entry, e: Entry)
    requires PayloadV1(d) == PayloadV1(e)
    ensures d == e
  {
    ColumnsEqual(d, e);
    FirstColumns(d, e);
    MiddleColumns(d, e);
    LastColumns(d, e);
  }

  const MAX_FIELD := 200

  /** A field fed from outside: absent, a string, or anything else, given by its `str(...)`. */
  datatype Declared = Missing | Given(s: string) | Coerced(repr: string)

  /** Bound a field before it is hashed: truncate, never raise. */
  function Bounded(v: Declared): (r: Option<string>)
    ensures r.None? <==> v.Missing?
    ensures r.Some? ==> |r.value| <= MAX_FIELD
  {
    match v
    case Missing => None
    case Given(s) => Some(Truncated(s))
    case Coerced(s) => Some(Truncated(s))
  }

  /** What is stored of a field fed from outside: nothing if it is missing; a text of at most 200 characters as it is;
      of a longer one its first 199 characters and an ellipsis. */
  predicate StoredOf(v: Declared, r: Option<string>) {
    if v.Missing? then r == None
    else
      var s := if v.Given? then v.s else v.repr;
      r.Some? && if |s| <= 200 then r.value == s
                 else |r.value| == 200 && r.value[..199] == s[..199] && r.value[199] as int == 0x2026
  }

  lemma BoundedIsExact(v: Declared)
    ensures StoredOf(v, Bounded(v))
  {
    assert v.Missing? || Bounded(v).value == Truncated(if v.Given? then v.s else v.repr);
  }

  /** The arguments of `log_event` that reach the hashed columns. */
  datatype Request = Request(
    ts: Instant,
    tenant: string,
    decision: string,
    userId: Option<string>,
    requestId: Option<string>,
    toolName: Declared,
    actionClass: Option<string>,
    policyRuleId: Declared,
    judgeUsed: bool,
    argsHash: Option<string>,
    latencyMs: Option<int>,
    error: Declared)

  /** The columns that are hashed, and stored. */
  function EntryOf(q: Request): Entry {
    Entry(q.ts, q.tenant, q.userId, q.requestId, Bounded(q.toolName), q.actionClass, q.decision,
          Bounded(q.policyRuleId), q.judgeUsed, q.argsHash, q.latencyMs, Bounded(q.error))
  }

  function Truncated(s: string): string {
    if |s| <= MAX_FIELD then s else s[..MAX_FIELD - 1] + ['\U{2026}']
  }

  // ---------------------------------------------------------------- the table

  datatype Row = Row(id: int, entry: Entry, prevHash: string, entryHash: string)

  function ToLink(r: Row): Link { Link(PayloadV1(r.entry), r.prevHash, r.entryHash) }

  function Links(rows: seq<Row>): seq<Link> { seq(|rows|, i requires 0 <= i < |rows| => ToLink(rows[i])) }

  /** `where tenant_id = t` */
  function OfTenant(rows: seq<Row>, t: string): seq<Row> {
    if rows == [] then []
    else
      var front := OfTenant(rows[..|rows| - 1], t);
      if rows[|rows| - 1].entry.tenant == t then front + [rows[|rows| - 1]] else front
  }

  /** `entry_hash ... where tenant_id = t order by id desc limit 1`, or `GENESIS` */
  function LastHash(rows: seq<Row>, t: string): string {
    if rows == [] then GENESIS
    else if rows[|rows| - 1].entry.tenant == t then rows[|rows| - 1].entryHash
    else LastHash(rows[..|rows| - 1], t)
  }

  /** Both checks of `verify_chain` on the row that follows `before`. */
  predicate RowOk(sha: Sha, before: seq<Row>, r: Row) {
    Follows(sha, LastHash(before, r.entry.tenant), ToLink(r))
  }

  /** The id of the first row that fails, reading the rows in order. */
  function FirstBroken(sha: Sha, rows: seq<Row>): Option<int> {
    if rows == [] then None
    else
      var before, last := rows[..|rows| - 1], rows[|rows| - 1];
      var earlier := FirstBroken(sha, before);
      if earlier.Some? then earlier
      else if RowOk(sha, before, last) then None
      else Some(last.id)
  }

  predicate Intact(sha: Sha, rows: seq<Row>) { FirstBroken(sha, rows).None? }

  predicate Increasing(rows: seq<Row>) { forall i, j :: 0 <= i < j < |rows| ==> rows[i].id < rows[j].id }

  datatype ChainResult = ChainResult(ok: bool, brokenId: Option<int>, count: nat)

  lemma {:induction false} BrokenStays(sha: Sha, rows: seq<Row>, k: nat)
    requires k <= |rows| && FirstBroken(sha, rows[..k]).Some?
    ensures FirstBroken(sha, rows) == FirstBroken(sha, rows[..k])
  {
    if k == |rows| {
      assert rows[..k] == rows;
    } else {
      var before := rows[..|rows| - 1];
      assert before[..k] == rows[..k];
      BrokenStays(sha, before, k);
    }
  }

  lemma PrefixStep(sha: Sha, rows: seq<Row>, k: nat)
    requires k < |rows|
    ensures FirstBroken(sha, rows[..k + 1])
            == if FirstBroken(sha, rows[..k]).Some? then FirstBroken(sha, rows[..k])
               else if RowOk(sha, rows[..k], rows[k]) then None else Some(rows[k].id)
  {
    assert rows[..k + 1][..k] == rows[..k];
  }

  function Lookup(m: map<string, string>, t: string): string { if t in m then m[t] else GENESIS }

  /** The dictionary of the loop holds every tenant's last hash. */
  ghost predicate Tracks(m: map<string, string>, rows: seq<Row>) {
    forall t: string :: Lookup(m, t) == LastHash(rows, t)
  }

  lemma TracksStep(m: map<string, string>, rows: seq<Row>, k: nat)
    requires k < |rows| && Tracks(m, rows[..k])
    ensures Tracks(m[rows[k].entry.tenant := rows[k].entryHash], rows[..k + 1])
  {
    var m', upTo := m[rows[k].entry.tenant := rows[k].entryHash], rows[..k + 1];
    assert upTo[..k] == rows[..k];
    forall t: string
      ensures Lookup(m', t) == LastHash(upTo, t)
    {
      assert Lookup(m, t) == LastHash(rows[..k], t);
    }
  }

  /** `verify_chain` on the rows that its query returned, in id order. */
  method VerifyChain(sha: Sha, rows: seq<Row>) returns (r: ChainResult)
    ensures r.count == |rows|
    ensures r.ok <==> Intact(sha, rows)
    ensures r.brokenId == FirstBroken(sha, rows)
  {
    var lastHashByTenant: map<string, string> := map[];
    for k := 0 to |rows|
      invariant FirstBroken(sha, rows[..k]).None?
      invariant Tracks(lastHashByTenant, rows[..k])
    {
      var row := rows[k];
      var expectedPrev := Lookup(lastHashByTenant, row.entry.tenant);
      PrefixStep(sha, rows, k);
      TracksStep(lastHashByTenant, rows, k);
      if row.prevHash != expectedPrev {
        BrokenStays(sha, rows, k + 1);
        return ChainResult(false, Some(row.id), |rows|);
      }
      if sha(row.prevHash + PayloadV1(row.entry)) != row.entryHash {
        BrokenStays(sha, rows, k + 1);
        return ChainResult(false, Some(row.id), |rows|);
      }
      lastHashByTenant := lastHashByTenant[row.entry.tenant := row.entryHash];
    }
    assert rows[..|rows|] == rows;
    r := ChainResult(true, None, |rows|);
  }

  // ---------------------------------------------------------------- tenants and links

  lemma {:induction false} OfTenantProperties(rows: seq<Row>, t: string)
    ensures forall r <- OfTenant(rows, t) :: r in rows && r.entry.tenant == t
    ensures LastHash(rows, t) == Tip(Links(OfTenant(rows, t)))
    ensures Increasing(rows) ==> Increasing(OfTenant(rows, t))
  {
    if rows != [] { OfTenantProperties(rows[..|rows| - 1], t); }
  }

  /** On the rows of one tenant, `verify_chain` checks exactly the hash chain of its payloads. */
  lemma {:induction false} IntactIsChained(sha: Sha, rows: seq<Row>, t: string)
    requires forall r <- rows :: r.entry.tenant == t
    ensures Intact(sha, rows) <==> Chained(sha, Links(rows))
    ensures LastHash(rows, t) == Tip(Links(rows))
  {
    if rows != [] {
      IntactIsChained(sha, rows[..|rows| - 1], t);
      assert Links(rows)[..|rows| - 1] == Links(rows[..|rows| - 1]);
    }
  }

  /** The hash of the last row of the tenant before position `k`, or the literal that starts every chain. */
  predicate LastOf(rows: seq<Row>, k: nat, t: string, h: string)
    requires k <= |rows|
  {
    || (h == "GENESIS" && forall j :: 0 <= j < k ==> rows[j].entry.tenant != t)
    || (exists j :: 0 <= j < k && rows[j].entry.tenant == t && rows[j].entryHash == h
                    && forall i :: j < i < k ==> rows[i].entry.tenant != t)
  }

  /** The row names the last hash of its tenant, and its own hash is that of the name followed by its payload. */
  predicate RowFits(sha: Sha, rows: seq<Row>, k: nat)
    requires k < |rows|
  {
    && LastOf(rows, k, rows[k].entry.tenant, rows[k].prevHash)
    && rows[k].entryHash == sha(rows[k].prevHash + PayloadV1(rows[k].entry))
  }

  lemma {:induction false} LastHashIsLast(rows: seq<Row>, k: nat, t: string)
    requires k <= |rows|
    ensures LastOf(rows, k, t, LastHash(rows[..k], t))
  {
    if k > 0 {
      assert rows[..k][..k - 1] == rows[..k - 1];
      if rows[k - 1].entry.tenant != t { LastHashIsLast(rows, k - 1, t); }
    }
  }

  lemma LastIsUnique(rows: seq<Row>, k: nat, t: string, g: string, h: string)
    requires k <= |rows| && LastOf(rows, k, t, g) && LastOf(rows, k, t, h)
    ensures g == h
  {
    if i :| 0 <= i < k && rows[i].entry.tenant == t && rows[i].entryHash == g
            && forall m :: i < m < k ==> rows[m].entry.tenant != t {
      var j :| 0 <= j < k && rows[j].entry.tenant == t && rows[j].entryHash == h
               && forall m :: j < m < k ==> rows[m].entry.tenant != t;
      assert i == j;
    }
  }

  lemma FitsIff(sha: Sha, rows: seq<Row>, k: nat)
    requires k < |rows|
    ensures RowOk(sha, rows[..k], rows[k]) <==> RowFits(sha, rows, k)
  {
    hide LastOf, LastHash, PayloadV1;
    var t := rows[k].entry.tenant;
    LastHashIsLast(rows, k, t);
    if LastOf(rows, k, t, rows[k].prevHash) { LastIsUnique(rows, k, t, LastHash(rows[..k], t), rows[k].prevHash); }
  }

  lemma FitsFront(sha: Sha, rows: seq<Row>, k: nat)
    requires k + 1 < |rows|
    ensures RowFits(sha, rows[..|rows| - 1], k) <==> RowFits(sha, rows, k)
  {
    hide PayloadV1;
  }

  /** `verify_chain`, row by row: no id is reported exactly if every row fits, and otherwise the id of the first that
      does not. */
  lemma {:induction false} FirstBrokenIsFirst(sha: Sha, rows: seq<Row>)
    ensures FirstBroken(sha, rows).None? <==> forall k :: 0 <= k < |rows| ==> RowFits(sha, rows, k)
    ensures FirstBroken(sha, rows).Some? ==>
              exists k :: 0 <= k < |rows| && FirstMisfit(sha, rows, k) && rows[k].id == FirstBroken(sha, rows).value
  {
    if rows != [] {
      hide RowOk, RowFits;
      var front, n := rows[..|rows| - 1], |rows| - 1;
      FirstBrokenIsFirst(sha, front);
      FitsIff(sha, rows, n);
      forall k | 0 <= k < n ensures RowFits(sha, front, k) <==> RowFits(sha, rows, k) { FitsFront(sha, rows, k); }
      if FirstBroken(sha, front).Some? {
        var k :| 0 <= k < |front| && FirstMisfit(sha, front, k) && front[k].id == FirstBroken(sha, front).value;
        assert FirstMisfit(sha, rows, k);
      } else if FirstBroken(sha, rows).Some? {
        assert FirstMisfit(sha, rows, n);
      }
    }
  }

  ghost predicate FirstMisfit(sha: Sha, rows: seq<Row>, k: nat)
    requires k < |rows|
  {
    !RowFits(sha, rows, k) && forall j :: 0 <= j < k ==> RowFits(sha, rows, j)
  }

  /** A row is checked against the same hash whether or not the other tenants are in the way. */
  lemma RowOkInTenant(sha: Sha, before: seq<Row>, r: Row)
    ensures RowOk(sha, before, r) <==> RowOk(sha, OfTenant(before, r.entry.tenant), r)
  {
    var t := r.entry.tenant;
    OfTenantProperties(before, t);
    IntactIsChained(sha, OfTenant(before, t), t);
  }

  lemma OfTenantStep(before: seq<Row>, r: Row, t: string)
    ensures OfTenant(before + [r], t) == if r.entry.tenant == t then OfTenant(before, t) + [r] else OfTenant(before, t)
  {
    assert (before + [r])[..|before|] == before;
  }

  lemma FirstBrokenAppend(sha: Sha, before: seq<Row>, r: Row)
    ensures FirstBroken(sha, before + [r])
            == if FirstBroken(sha, before).Some? then FirstBroken(sha, before)
               else if RowOk(sha, before, r) then None else Some(r.id)
  {
    assert (before + [r])[..|before|] == before;
  }

  /** What a tenant's own verification says, one row at a time. */
  lemma FirstBrokenStep(sha: Sha, before: seq<Row>, r: Row, t: string)
    ensures var mine := FirstBroken(sha, OfTenant(before, t));
            FirstBroken(sha, OfTenant(before + [r], t))
            == if mine.Some? || r.entry.tenant != t || RowOk(sha, before, r) then mine else Some(r.id)
  {
    RowOkInTenant(sha, before, r);
    OfTenantStep(before, r, t);
    FirstBrokenAppend(sha, OfTenant(before, t), r);
  }

  /** `b` is the smallest of the ids that the tenants' own verifications report, or there is none. */
  ghost predicate SmallestReport(sha: Sha, rows: seq<Row>, b: Option<int>) {
    && (forall t: string :: Intact(sha, OfTenant(rows, t))
                            || (b.Some? && b.value <= FirstBroken(sha, OfTenant(rows, t)).value))
    && (b.Some? ==> exists t: string :: FirstBroken(sha, OfTenant(rows, t)) == b)
  }

  lemma {:induction false} BrokenIdIsARow(sha: Sha, rows: seq<Row>)
    requires FirstBroken(sha, rows).Some?
    ensures exists r <- rows :: r.id == FirstBroken(sha, rows).value
  {
    if FirstBroken(sha, rows[..|rows| - 1]).Some? {
      BrokenIdIsARow(sha, rows[..|rows| - 1]);
    } else {
      assert rows[|rows| - 1] in rows;
    }
  }

  /** Verification of the whole table decomposes: it fails exactly when some tenant's own chain fails, and it
      reports the smallest of the ids that the tenants' own verifications report. */
  lemma {:induction false} VerificationDecomposes(sha: Sha, rows: seq<Row>)
    requires Increasing(rows)
    ensures Intact(sha, rows) <==> forall t: string :: Intact(sha, OfTenant(rows, t))
    ensures SmallestReport(sha, rows, FirstBroken(sha, rows))
  {
    if rows == [] {
      assert forall t: string :: OfTenant(rows, t) == [];
    } else {
      var before, r := rows[..|rows| - 1], rows[|rows| - 1];
      assert rows == before + [r];
      VerificationDecomposes(sha, before);
      FirstBrokenAppend(sha, before, r);
      if FirstBroken(sha, before).Some? { BrokenIdIsARow(sha, before); }
      forall t: string
        ensures Intact(sha, OfTenant(rows, t))
                || (FirstBroken(sha, rows).Some?
                     && FirstBroken(sha, rows).value <= FirstBroken(sha, OfTenant(rows, t)).value)
      {
        FirstBrokenStep(sha, before, r, t);
      }
      if FirstBroken(sha, rows).Some? {
        var t: string :|
          FirstBroken(sha, before).None? || FirstBroken(sha, OfTenant(before, t)) == FirstBroken(sha, before);
        FirstBrokenStep(sha, before, r, t);
        FirstBrokenStep(sha, before, r, r.entry.tenant);
      }
    }
  }

  // ---------------------------------------------------------------- writing

  /** The row that `log_event` inserts after `rows`. */
  function NewRow(sha: Sha, rows: seq<Row>, id: int, e: Entry): Row {
    var prev := LastHash(rows, e.tenant);
    Row(id, e, prev, sha(prev + PayloadV1(e)))
  }

  /** A write extends the chain of its own tenant by one valid link and leaves every other chain alone. */
  lemma AppendKeepsChains(sha: Sha, rows: seq<Row>, id: int, e: Entry, t: string)
    ensures var after := rows + [NewRow(sha, rows, id, e)];
            OfTenant(after, t)
            == if e.tenant == t then OfTenant(rows, t) + [NewRow(sha, rows, id, e)] else OfTenant(rows, t)
    ensures Intact(sha, OfTenant(rows, t)) ==> Intact(sha, OfTenant(rows + [NewRow(sha, rows, id, e)], t))
  {
    var r := NewRow(sha, rows, id, e);
    OfTenantStep(rows, r, t);
    FirstBrokenStep(sha, rows, r, t);
  }

  /** The table `audit_log`, in commit order. */
  class AuditLog {
    var rows: seq<Row>

    constructor ()
      ensures rows == []
    {
      rows := [];
    }

    /** `log_event`: bound the declared fields, chain under the tenant's lock, insert.  `id` is the value of
        the identity column: larger than every id this tenant already has. */
    method LogEvent(sha: Sha, id: int, q: Request) returns (entryHash: string)
      requires forall r <- OfTenant(rows, q.tenant) :: r.id < id
      modifies this
      ensures rows == old(rows) + [NewRow(sha, old(rows), id, EntryOf(q))]
      ensures var e := rows[|old(rows)|].entry;
              && e.ts == q.ts && e.tenant == q.tenant && e.decision == q.decision && e.userId == q.userId
              && e.requestId == q.requestId && e.actionClass == q.actionClass && e.judgeUsed == q.judgeUsed
              && e.argsHash == q.argsHash && e.latencyMs == q.latencyMs
              && StoredOf(q.toolName, e.toolName) && StoredOf(q.policyRuleId, e.policyRuleId)
              && StoredOf(q.error, e.error)
      ensures entryHash == LastHash(rows, q.tenant)
      ensures forall t: string :: old(Intact(sha, OfTenant(rows, t))) ==> Intact(sha, OfTenant(rows, t))
      ensures forall t: string :: t != q.tenant ==> OfTenant(rows, t) == old(OfTenant(rows, t))
      ensures old(Increasing(OfTenant(rows, q.tenant))) ==> Increasing(OfTenant(rows, q.tenant))
    {
      var tool, rule, err := Bounded(q.toolName), Bounded(q.policyRuleId), Bounded(q.error);
      var prevHash := LastHash(rows, q.tenant);
      var e := Entry(q.ts, q.tenant, q.userId, q.requestId, tool, q.actionClass, q.decision, rule, q.judgeUsed,
                     q.argsHash, q.latencyMs, err);
      entryHash := sha(prevHash + PayloadV1(e));
      AppendKeepsChains(sha, rows, id, e, q.tenant);
      BoundedIsExact(q.toolName);
      BoundedIsExact(q.policyRuleId);
      BoundedIsExact(q.error);
      hide StoredOf, Bounded;
      forall t: string
        ensures Intact(sha, OfTenant(rows, t)) ==> Intact(sha, OfTenant(rows + [NewRow(sha, rows, id, e)], t))
        ensures t != q.tenant ==> OfTenant(rows + [NewRow(sha, rows, id, e)], t) == OfTenant(rows, t)
      {
        AppendKeepsChains(sha, rows, id, e, t);
      }
      rows := rows + [Row(id, e, prevHash, entryHash)];
    }
  }
}
