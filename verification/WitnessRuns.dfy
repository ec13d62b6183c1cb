/** Honest concurrent runs of `log_event`, `checkpoints.record` and `checkpoints.verify`.

    Each statement of `record` and of `verify` reads its own snapshot: `record` does not take the writers'
    lock, so writes of any tenant land between its statements.  A run is any sequence of actions; an
    action that is not enabled leaves the state as it is. */
module WitnessRuns {
  import opened Basics
  import opened Timestamps
  import opened HashChain
  import opened Journal
  import opened Checkpoints

  datatype Signer = Signer(keyId: string, publicKey: string, sign: string -> string)

  datatype Config = Config(sha: Sha, valid: SignatureCheck)

  ghost predicate Honest(cfg: Config, signer: Signer) {
    forall m :: cfg.valid(signer.publicKey, m, signer.sign(m))
  }

  // ---------------------------------------------------------------- states and actions

  /** How far a call of `record` has got, with what it has read. */
  datatype Stage =
    | Locked
    | Checked
    | Counted(entries: int, lastId: Option<int>)
    | HashRead(entries: int, lastId: Option<int>, hash: string)
    | Linked(entries: int, lastId: Option<int>, hash: string, prev: string)

  datatype Proc =
    | Idle
    | Recording(tenant: string, signer: Signer, at: Instant, stage: Stage)
    | Refused(brokenId: Option<int>)
    | Listed(tenant: string, cps: seq<Checkpoint>)
    | PresentRead(tenant: string, cps: seq<Checkpoint>, present: nat)
    | Answered(verdict: Verification)

  datatype State = State(rows: seq<Row>, witnesses: map<string, seq<Checkpoint>>, procs: map<int, Proc>)

  datatype Action =
    | Log(id: int, q: Request)
    | RecordBegin(p: int, tenant: string, signer: Signer, at: Instant)
    | RecordStep(p: int, id: int)
    | VerifyBegin(p: int, tenant: string)
    | VerifyStep(p: int)
    | Leave(p: int)

  const Init := State([], map[], map[])

  function Own(s: State, t: string): seq<Row> { OfTenant(s.rows, t) }

  function Witnesses(s: State, t: string): seq<Checkpoint> { if t in s.witnesses then s.witnesses[t] else [] }

  function ProcOf(s: State, p: int): Proc { if p in s.procs then s.procs[p] else Idle }

  function Put(s: State, p: int, x: Proc): State { s.(procs := s.procs[p := x]) }

  /** The advisory lock `checkpoint:<tenant>` is free. */
  predicate LockFree(s: State, t: string) {
    forall p <- s.procs :: !(s.procs[p].Recording? && s.procs[p].tenant == t)
  }

  function LastId(own: seq<Row>): Option<int> { if own == [] then None else Some(own[|own| - 1].id) }

  /** The row that `record` inserts. */
  function NewCheckpoint(cfg: Config, r: Proc, id: int): Checkpoint
    requires r.Recording? && r.stage.Linked?
  {
    var x := r.stage;
    var claim := Claim(r.tenant, x.entries, x.lastId, x.hash, r.at, ALGORITHM, r.signer.keyId, r.signer.publicKey);
    var digest := EntryDigest(cfg.sha, claim);
    Checkpoint(id, x.entries, x.lastId, x.hash, r.at, ALGORITHM, r.signer.keyId, r.signer.publicKey,
               r.signer.sign(digest), digest, x.prev, cfg.sha(x.prev + digest))
  }

  /** One statement of `record`, under the lock. */
  function RecordNext(cfg: Config, s: State, p: int, id: int): State
    requires ProcOf(s, p).Recording?
  {
    var r := ProcOf(s, p);
    var own := Own(s, r.tenant);
    match r.stage
    case Locked =>
      if Intact(cfg.sha, own) then Put(s, p, r.(stage := Checked)) else Put(s, p, Refused(FirstBroken(cfg.sha, own)))
    case Checked => Put(s, p, r.(stage := Counted(|own|, LastId(own))))
    case Counted(n, lastId) =>
      var hash := if lastId.None? then Some(GENESIS) else HashAt(s.rows, lastId.value);
      Put(s, p, r.(stage := HashRead(n, lastId, if hash.Some? then hash.value else GENESIS)))
    case HashRead(n, lastId, hash) =>
      Put(s, p, r.(stage := Linked(n, lastId, hash, WitnessTip(Witnesses(s, r.tenant)))))
    case Linked(_, _, _, _) =>
      var t := r.tenant;
      Put(s.(witnesses := s.witnesses[t := Witnesses(s, t) + [NewCheckpoint(cfg, r, id)]]), p, Idle)
  }

  /** The first statement of `verify`, with the checks of its loop. */
  function VerifyFirst(cfg: Config, s: State, t: string): Proc {
    var cps := Witnesses(s, t);
    if cps == [] then Answered(Verification(0, true, false, None))
    else
      var fault := WitnessFault(cfg.sha, cfg.valid, t, cps);
      if fault.Some? then Answered(Verification(|cps|, false, false, fault))
      else if cps[|cps| - 1].lastAuditId.None? then Answered(Confront(cps, 0, None))
      else Listed(t, cps)
  }

  /** Its second and third statements. */
  function VerifyNext(s: State, x: Proc): Proc
    requires x.Listed? || x.PresentRead?
  {
    var own := Own(s, x.tenant);
    if x.cps == [] || x.cps[|x.cps| - 1].lastAuditId.None? then x
    else
      var id := x.cps[|x.cps| - 1].lastAuditId.value;
      if x.Listed? then PresentRead(x.tenant, x.cps, CountUpTo(own, id))
      else Answered(Confront(x.cps, x.present, HashAt(own, id)))
  }

  ghost predicate Enabled(cfg: Config, s: State, a: Action) {
    match a
    case Log(id, q) => (forall r <- s.rows :: r.id != id) && (forall r <- Own(s, q.tenant) :: r.id < id)
    case RecordBegin(p, t, signer, at) => ProcOf(s, p).Idle? && LockFree(s, t) && Honest(cfg, signer)
    case RecordStep(p, id) => ProcOf(s, p).Recording?
    case VerifyBegin(p, t) => ProcOf(s, p).Idle?
    case VerifyStep(p) => ProcOf(s, p).Listed? || ProcOf(s, p).PresentRead?
    case Leave(p) => true
  }

  ghost function Step(cfg: Config, s: State, a: Action): State {
    if !Enabled(cfg, s, a) then s
    else
      match a
      case Log(id, q) => s.(rows := s.rows + [NewRow(cfg.sha, s.rows, id, EntryOf(q))])
      case RecordBegin(p, t, signer, at) => Put(s, p, Recording(t, signer, at, Locked))
      case RecordStep(p, id) => RecordNext(cfg, s, p, id)
      case VerifyBegin(p, t) => Put(s, p, VerifyFirst(cfg, s, t))
      case VerifyStep(p) => Put(s, p, VerifyNext(s, ProcOf(s, p)))
      case Leave(p) => Put(s, p, Idle)  // it is done, or it crashed: the open transaction and its lock are gone
  }

  ghost function Run(cfg: Config, acts: seq<Action>): State {
    if acts == [] then Init else Step(cfg, Run(cfg, acts[..|acts| - 1]), acts[|acts| - 1])
  }

  // ---------------------------------------------------------------- the invariant

  /** `entries` and `lastId` describe a prefix of the chain. */
  predicate IsPrefix(own: seq<Row>, entries: int, lastId: Option<int>) {
    0 <= entries <= |own| && lastId == LastId(own[..entries])
  }

  predicate IsPrefixHash(own: seq<Row>, entries: int, lastId: Option<int>, hash: string) {
    IsPrefix(own, entries, lastId) && hash == Tip(Links(own[..entries]))
  }

  predicate Attested(own: seq<Row>, c: Checkpoint) { IsPrefixHash(own, c.entries, c.lastAuditId, c.lastEntryHash) }

  function LastCount(cps: seq<Checkpoint>): int { if cps == [] then 0 else cps[|cps| - 1].entries }

  /** The witnesses of a tenant agree among themselves and each attests a prefix of its chain. */
  ghost predicate SoundWitnesses(cfg: Config, t: string, cps: seq<Checkpoint>, own: seq<Row>) {
    WitnessFault(cfg.sha, cfg.valid, t, cps).None? && forall c <- cps :: Attested(own, c)
  }

  ghost predicate SoundProc(cfg: Config, s: State, x: Proc) {
    match x
    case Idle => true
    case Recording(t, signer, at, stage) =>
      && Honest(cfg, signer)
      && match stage {
           case Locked => true
           case Checked => true
           case Counted(n, lastId) => IsPrefix(Own(s, t), n, lastId) && LastCount(Witnesses(s, t)) <= n
           case HashRead(n, lastId, hash) => IsPrefixHash(Own(s, t), n, lastId, hash) && LastCount(Witnesses(s, t)) <= n
           case Linked(n, lastId, hash, prev) =>
             IsPrefixHash(Own(s, t), n, lastId, hash) && LastCount(Witnesses(s, t)) <= n
                 && prev == WitnessTip(Witnesses(s, t))
         }
    case Refused(_) => false
    case Listed(t, cps) => SoundWitnesses(cfg, t, cps, Own(s, t)) && cps != [] && cps[|cps| - 1].lastAuditId.Some?
    case PresentRead(t, cps, present) =>
      && SoundWitnesses(cfg, t, cps, Own(s, t)) && cps != [] && cps[|cps| - 1].lastAuditId.Some?
      && present == cps[|cps| - 1].entries
    case Answered(v) => v.ok
  }

  ghost predicate DistinctIds(rows: seq<Row>) { forall i, j :: 0 <= i < j < |rows| ==> rows[i].id != rows[j].id }

  ghost predicate Inv(cfg: Config, s: State) {
    && DistinctIds(s.rows)
    && (forall t: string :: Increasing(Own(s, t)) && Intact(cfg.sha, Own(s, t)))
    && (forall t: string :: SoundWitnesses(cfg, t, Witnesses(s, t), Own(s, t)))
    && (forall p <- s.procs :: SoundProc(cfg, s, s.procs[p]))
    && (forall p, q :: p in s.procs && q in s.procs && p != q && s.procs[p].Recording? && s.procs[q].Recording?
                       ==> s.procs[p].tenant != s.procs[q].tenant)
  }

  // ---------------------------------------------------------------- facts about one chain

  lemma {:induction false} HashOfRow(rows: seq<Row>, k: nat)
    requires DistinctIds(rows) && k < |rows|
    ensures HashAt(rows, rows[k].id) == Some(rows[k].entryHash)
  {
    var front := rows[..|rows| - 1];
    if k < |front| {
      assert front[k] == rows[k];
      HashOfRow(front, k);
    }
  }

  lemma {:induction false} CountOfPrefix(own: seq<Row>, k: nat)
    requires Increasing(own) && k < |own|
    ensures CountUpTo(own, own[k].id) == k + 1
  {
    var front := own[..|own| - 1];
    if k < |front| {
      assert front[k] == own[k];
      CountOfPrefix(front, k);
    } else {
      CountOfAll(own, own[k].id);
    }
  }

  lemma PrefixTip(own: seq<Row>, n: nat)
    requires n <= |own|
    ensures Tip(Links(own[..n])) == if n == 0 then GENESIS else own[n - 1].entryHash
  {
  }

  /** A prefix stays a prefix while the chain grows. */
  lemma PrefixGrows(own: seq<Row>, more: seq<Row>, n: int)
    requires 0 <= n <= |own|
    ensures (own + more)[..n] == own[..n]
  {
  }

  lemma WitnessesGrow(cfg: Config, t: string, cps: seq<Checkpoint>, own: seq<Row>, more: seq<Row>)
    requires SoundWitnesses(cfg, t, cps, own)
    ensures SoundWitnesses(cfg, t, cps, own + more)
  {
    forall c <- cps ensures Attested(own + more, c) { PrefixGrows(own, more, c.entries); }
  }

  /** What the confrontation answers for a witness of a prefix. */
  lemma PrefixConfronted(own: seq<Row>, cps: seq<Checkpoint>)
    requires Increasing(own) && cps != [] && Attested(own, cps[|cps| - 1]) && cps[|cps| - 1].lastAuditId.Some?
    ensures var c := cps[|cps| - 1];
            && CountUpTo(own, c.lastAuditId.value) == c.entries
            && HashAt(own, c.lastAuditId.value) == Some(c.lastEntryHash)
  {
    var n := cps[|cps| - 1].entries;
    PrefixTip(own, n);
    CountOfPrefix(own, n - 1);
    HashOfRow(own, n - 1);
  }

  // ---------------------------------------------------------------- each action keeps the invariant

  lemma SoundProcGrows(cfg: Config, s: State, s': State, x: Proc)
    requires SoundProc(cfg, s, x) && s'.witnesses == s.witnesses
    requires forall t: string :: Own(s, t) <= Own(s', t)
    ensures SoundProc(cfg, s', x)
  {
    if x.Recording? || x.Listed? || x.PresentRead? {
      var more := Own(s', x.tenant)[|Own(s, x.tenant)|..];
      assert Own(s', x.tenant) == Own(s, x.tenant) + more;
      if x.Recording? {
        if x.stage.Counted? || x.stage.HashRead? || x.stage.Linked? {
          PrefixGrows(Own(s, x.tenant), more, x.stage.entries);
        }
      } else {
        WitnessesGrow(cfg, x.tenant, x.cps, Own(s, x.tenant), more);
      }
    }
  }

  /** What a write does to the chain and the witnesses of one tenant. */
  lemma LogOneTenant(cfg: Config, s: State, id: int, q: Request, t: string) returns (more: seq<Row>)
    requires Enabled(cfg, s, Log(id, q))
    requires Increasing(Own(s, t)) && Intact(cfg.sha, Own(s, t)) && SoundWitnesses(cfg, t, Witnesses(s, t), Own(s, t))
    ensures var s' := Step(cfg, s, Log(id, q));
            && Own(s', t) == Own(s, t) + more
            && Increasing(Own(s', t)) && Intact(cfg.sha, Own(s', t))
            && SoundWitnesses(cfg, t, Witnesses(s', t), Own(s', t))
  {
    hide Intact, SoundWitnesses, LastHash, PayloadV1;
    var r := NewRow(cfg.sha, s.rows, id, EntryOf(q));
    AppendKeepsChains(cfg.sha, s.rows, id, EntryOf(q), t);
    more := if q.tenant == t then [r] else [];
    assert Own(Step(cfg, s, Log(id, q)), t) == Own(s, t) + more;
    WitnessesGrow(cfg, t, Witnesses(s, t), Own(s, t), more);
  }

  lemma LogKeeps(cfg: Config, s: State, id: int, q: Request)
    requires Inv(cfg, s) && Enabled(cfg, s, Log(id, q))
    ensures Inv(cfg, Step(cfg, s, Log(id, q)))
  {
    var s' := Step(cfg, s, Log(id, q));
    forall t: string
      ensures Increasing(Own(s', t)) && Intact(cfg.sha, Own(s', t))
      ensures Own(s, t) <= Own(s', t)
      ensures SoundWitnesses(cfg, t, Witnesses(s', t), Own(s', t))
    {
      assert SoundWitnesses(cfg, t, Witnesses(s, t), Own(s, t));
      var more := LogOneTenant(cfg, s, id, q, t);
    }
    forall p <- s'.procs ensures SoundProc(cfg, s', s'.procs[p]) { SoundProcGrows(cfg, s, s', s.procs[p]); }
  }

  /** Changing one process, and nothing else, keeps the invariant when the new process is sound. */
  lemma PutKeeps(cfg: Config, s: State, p: int, x: Proc)
    requires Inv(cfg, s) && SoundProc(cfg, s, x)
    requires x.Recording? ==> LockFree(s, x.tenant) || (ProcOf(s, p).Recording? && ProcOf(s, p).tenant == x.tenant)
    ensures Inv(cfg, Put(s, p, x))
  {
    var s' := Put(s, p, x);
    assert forall t: string :: Own(s', t) == Own(s, t) && Witnesses(s', t) == Witnesses(s, t);
    forall q <- s'.procs ensures SoundProc(cfg, s', s'.procs[q]) {
      var y := s'.procs[q];
      assert SoundProc(cfg, s, y);
      SameTables(cfg, s, s', y);
    }
  }

  lemma SameTables(cfg: Config, s: State, s': State, x: Proc)
    requires SoundProc(cfg, s, x) && s'.rows == s.rows && s'.witnesses == s.witnesses
    ensures SoundProc(cfg, s', x)
  {
  }

  lemma VerifyBeginKeeps(cfg: Config, s: State, p: int, t: string)
    requires Inv(cfg, s)
    ensures Inv(cfg, Put(s, p, VerifyFirst(cfg, s, t)))
  {
    assert SoundWitnesses(cfg, t, Witnesses(s, t), Own(s, t));
    PutKeeps(cfg, s, p, VerifyFirst(cfg, s, t));
  }

  lemma VerifyStepKeeps(cfg: Config, s: State, p: int)
    requires Inv(cfg, s) && (ProcOf(s, p).Listed? || ProcOf(s, p).PresentRead?)
    ensures Inv(cfg, Put(s, p, VerifyNext(s, ProcOf(s, p))))
  {
    hide Intact, WitnessFault, CountUpTo, HashAt;
    var x := ProcOf(s, p);
    assert SoundProc(cfg, s, x);
    var own := Own(s, x.tenant);
    assert Increasing(own);
    assert Attested(own, x.cps[|x.cps| - 1]);
    PrefixConfronted(own, x.cps);
    PutKeeps(cfg, s, p, VerifyNext(s, x));
  }

  lemma CountIsAbove(cfg: Config, t: string, cps: seq<Checkpoint>, own: seq<Row>)
    requires SoundWitnesses(cfg, t, cps, own)
    ensures LastCount(cps) <= |own|
  {
    if cps != [] { assert Attested(own, cps[|cps| - 1]); }
  }

  /** The reads of `record`. */
  lemma RecordReadKeeps(cfg: Config, s: State, p: int, id: int)
    requires Inv(cfg, s) && ProcOf(s, p).Recording? && !ProcOf(s, p).stage.Linked?
    ensures Inv(cfg, RecordNext(cfg, s, p, id))
  {
    var r := ProcOf(s, p);
    var own := Own(s, r.tenant);
    assert SoundProc(cfg, s, r);
    assert Intact(cfg.sha, own) && SoundWitnesses(cfg, r.tenant, Witnesses(s, r.tenant), own);
    CountIsAbove(cfg, r.tenant, Witnesses(s, r.tenant), own);
    assert own[..|own|] == own;
    if r.stage.Counted? { LastHashRead(s.rows, r.tenant, r.stage.entries, r.stage.lastId); }
    PutKeeps(cfg, s, p, ProcOf(RecordNext(cfg, s, p, id), p));
  }

  /** The hash read by id is the hash of the counted prefix, whatever was written in between. */
  lemma LastHashRead(rows: seq<Row>, t: string, n: int, lastId: Option<int>)
    requires DistinctIds(rows) && IsPrefix(OfTenant(rows, t), n, lastId)
    ensures lastId.None? ==> Tip(Links(OfTenant(rows, t)[..n])) == GENESIS
    ensures lastId.Some? ==> HashAt(rows, lastId.value) == Some(Tip(Links(OfTenant(rows, t)[..n])))
  {
    var own := OfTenant(rows, t);
    PrefixTip(own, n);
    if lastId.Some? {
      OfTenantProperties(rows, t);
      assert own[n - 1] in rows;
      var k :| 0 <= k < |rows| && rows[k] == own[n - 1];
      HashOfRow(rows, k);
    }
  }

  lemma NewCheckpointFits(cfg: Config, s: State, r: Proc, id: int)
    requires r.Recording? && r.stage.Linked? && SoundProc(cfg, s, r)
    requires SoundWitnesses(cfg, r.tenant, Witnesses(s, r.tenant), Own(s, r.tenant))
    ensures SoundWitnesses(cfg, r.tenant, Witnesses(s, r.tenant) + [NewCheckpoint(cfg, r, id)], Own(s, r.tenant))
  {
    var before, c := Witnesses(s, r.tenant), NewCheckpoint(cfg, r, id);
    assert (before + [c])[..|before|] == before;
    assert c.entryDigest == EntryDigest(cfg.sha, ClaimOf(r.tenant, c));
    assert cfg.valid(r.signer.publicKey, c.entryDigest, r.signer.sign(c.entryDigest));
    assert StepFault(cfg.sha, cfg.valid, r.tenant, before, c).None?;
  }

  /** The insert of `record`: no other process records for this tenant, so no other process is disturbed. */
  lemma RecordInsertKeeps(cfg: Config, s: State, p: int, id: int)
    requires Inv(cfg, s) && ProcOf(s, p).Recording? && ProcOf(s, p).stage.Linked?
    ensures Inv(cfg, RecordNext(cfg, s, p, id))
  {
    var r := ProcOf(s, p);
    var s' := RecordNext(cfg, s, p, id);
    NewCheckpointFits(cfg, s, r, id);
    forall t: string
      ensures Own(s', t) == Own(s, t) && (t != r.tenant ==> Witnesses(s', t) == Witnesses(s, t))
      ensures SoundWitnesses(cfg, t, Witnesses(s', t), Own(s', t))
    {
      assert SoundWitnesses(cfg, t, Witnesses(s, t), Own(s, t));
    }
    forall q <- s'.procs ensures SoundProc(cfg, s', s'.procs[q]) {
      if q != p {
        assert SoundProc(cfg, s, s.procs[q]);
        OtherProc(cfg, s, s', s.procs[q], r.tenant);
      }
    }
  }

  lemma OtherProc(cfg: Config, s: State, s': State, x: Proc, t: string)
    requires SoundProc(cfg, s, x) && s'.rows == s.rows && (x.Recording? ==> x.tenant != t)
    requires forall u: string :: u != t ==> Witnesses(s', u) == Witnesses(s, u)
    ensures SoundProc(cfg, s', x)
  {
  }

  lemma StepKeeps(cfg: Config, s: State, a: Action)
    requires Inv(cfg, s)
    ensures Inv(cfg, Step(cfg, s, a))
  {
    if Enabled(cfg, s, a) {
      match a
      case Log(id, q) => LogKeeps(cfg, s, id, q);
      case RecordBegin(p, t, signer, at) => PutKeeps(cfg, s, p, Recording(t, signer, at, Locked));
      case RecordStep(p, id) =>
        if ProcOf(s, p).stage.Linked? { RecordInsertKeeps(cfg, s, p, id); } else { RecordReadKeeps(cfg, s, p, id); }
      case VerifyBegin(p, t) => VerifyBeginKeeps(cfg, s, p, t);
      case VerifyStep(p) => VerifyStepKeeps(cfg, s, p);
      case Leave(p) => PutKeeps(cfg, s, p, Idle);
    }
  }

  lemma {:induction false} RunKeeps(cfg: Config, acts: seq<Action>)
    ensures Inv(cfg, Run(cfg, acts))
  {
    if acts == [] {
      assert forall t: string :: Own(Init, t) == [] && Witnesses(Init, t) == [];
    } else {
      RunKeeps(cfg, acts[..|acts| - 1]);
      StepKeeps(cfg, Run(cfg, acts[..|acts| - 1]), acts[|acts| - 1]);
    }
  }

  // ---------------------------------------------------------------- main results

  lemma {:induction false} CountsNeverDecrease(cfg: Config, t: string, cps: seq<Checkpoint>, i: nat, j: nat)
    requires WitnessFault(cfg.sha, cfg.valid, t, cps).None? && i <= j < |cps|
    ensures cps[i].entries <= cps[j].entries
  {
    var before := cps[..|cps| - 1];
    if j < |before| {
      CountsNeverDecrease(cfg, t, before, i, j);
    } else if i < j {
      CountsNeverDecrease(cfg, t, before, i, j - 1);
    }
  }

  /** No false alarm: in every honest run every chain verifies, no `record` is refused, every answer of
      `verify` is ok, and the counts of a tenant's witnesses never decrease. */
  lemma NoFalseAlarm(cfg: Config, acts: seq<Action>)
    ensures var s := Run(cfg, acts);
            && (forall t: string :: Intact(cfg.sha, OfTenant(s.rows, t)))
            && (forall p <- s.procs :: !s.procs[p].Refused? && (s.procs[p].Answered? ==> s.procs[p].verdict.ok))
            && (forall t: string, i, j :: 0 <= i <= j < |Witnesses(s, t)|
                 ==> Witnesses(s, t)[i].entries <= Witnesses(s, t)[j].entries)
  {
    RunKeeps(cfg, acts);
    var s := Run(cfg, acts);
    forall t: string ensures Intact(cfg.sha, OfTenant(s.rows, t)) { assert Intact(cfg.sha, Own(s, t)); }
    forall p <- s.procs ensures !s.procs[p].Refused? && (s.procs[p].Answered? ==> s.procs[p].verdict.ok) {
      assert SoundProc(cfg, s, s.procs[p]);
    }
    forall t: string, i, j | 0 <= i <= j < |Witnesses(s, t)|
      ensures Witnesses(s, t)[i].entries <= Witnesses(s, t)[j].entries
    {
      assert SoundWitnesses(cfg, t, Witnesses(s, t), Own(s, t));
      CountsNeverDecrease(cfg, t, Witnesses(s, t), i, j);
    }
  }

  lemma {:induction false} PrefixIntact(sha: Sha, own: seq<Row>, n: nat)
    requires Intact(sha, own) && n <= |own|
    ensures Intact(sha, own[..n])
  {
    if n < |own| {
      PrefixIntact(sha, own[..|own| - 1], n);
      assert own[..|own| - 1][..n] == own[..n];
    } else {
      assert own[..n] == own;
    }
  }

  lemma AttestedPrefix(cfg: Config, t: string, own: seq<Row>, c: Checkpoint)
    requires Increasing(own) && Intact(cfg.sha, own) && Attested(own, c) && forall r <- own :: r.entry.tenant == t
    ensures 0 <= c.entries <= |own| && Attests(cfg.sha, ClaimOf(t, c), own[..c.entries])
  {
    PrefixIntact(cfg.sha, own, c.entries);
    assert forall r <- own[..c.entries] :: r in own;
  }

  /** Every witness of an honest run attests a verified prefix of its tenant's chain, at every later moment:
      what the binding theorem assumes of the uses of the signing key. */
  lemma HonestWitnessesAttest(cfg: Config, acts: seq<Action>, t: string, c: Checkpoint)
    requires c in Witnesses(Run(cfg, acts), t)
    ensures var own := OfTenant(Run(cfg, acts).rows, t);
            0 <= c.entries <= |own| && Attests(cfg.sha, ClaimOf(t, c), own[..c.entries])
  {
    hide Attests, Attested;
    RunKeeps(cfg, acts);
    var s := Run(cfg, acts);
    assert SoundWitnesses(cfg, t, Witnesses(s, t), Own(s, t));
    OfTenantProperties(s.rows, t);
    AttestedPrefix(cfg, t, Own(s, t), c);
  }
}
