/** The two halves of `core/checkpoints.py` put together: what honest runs sign (module `WitnessRuns`), and what the
    verification of any later table says of it (module `Checkpoints`). */
module TamperEvidence {

  import opened Basics
  import opened Timestamps
  import opened HashChain
  import opened Journal
  import opened Checkpoints
  import opened WitnessRuns
  import opened WitnessDesk

  /** The action inserts a witness signed with the key. */
  ghost predicate SignsWith(cfg: Config, s: State, a: Action, key: string) {
    && a.RecordStep? && Enabled(cfg, s, a) && ProcOf(s, a.p).stage.Linked? && ProcOf(s, a.p).signer.publicKey == key
  }

  /** The uses of the key in a run, in order: each claim, with the rows that it counts. */
  ghost function Signings(cfg: Config, acts: seq<Action>, key: string): seq<Signing> {
    if acts == [] then []
    else
      var s, a := Run(cfg, acts[..|acts| - 1]), acts[|acts| - 1];
      var before := Signings(cfg, acts[..|acts| - 1], key);
      if !SignsWith(cfg, s, a, key) then before
      else
        var r := ProcOf(s, a.p);
        var own, n := Own(s, r.tenant), r.stage.entries;
        before + [Signing(ClaimOf(r.tenant, NewCheckpoint(cfg, r, a.id)), if 0 <= n <= |own| then own[..n] else own)]
  }

  lemma OwnGrows(cfg: Config, s: State, a: Action, t: string)
    ensures Own(s, t) <= Own(Step(cfg, s, a), t)
  {
    if a.Log? && Enabled(cfg, s, a) { OfTenantStep(s.rows, NewRow(cfg.sha, s.rows, a.id, EntryOf(a.q)), t); }
  }

  /** The signing is of rows that the tenant's chain starts with. */
  ghost predicate Genuine(cfg: Config, s: State, g: Signing) {
    Attests(cfg.sha, g.claim, g.own) && g.own <= Own(s, g.claim.tenant)
  }

  lemma {:induction false} SigningsAreGenuine(cfg: Config, acts: seq<Action>, key: string)
    ensures forall g <- Signings(cfg, acts, key) :: Genuine(cfg, Run(cfg, acts), g)
  {
    if acts != [] {
      var front, a := acts[..|acts| - 1], acts[|acts| - 1];
      var s, s' := Run(cfg, front), Run(cfg, acts);
      SigningsAreGenuine(cfg, front, key);
      forall g <- Signings(cfg, acts, key) ensures Genuine(cfg, s', g) {
        OwnGrows(cfg, s, a, g.claim.tenant);
        if g !in Signings(cfg, front, key) {
          assert SignsWith(cfg, s, a, key);
          var r := ProcOf(s, a.p);
          var c := NewCheckpoint(cfg, r, a.id);
          assert c in Witnesses(s', r.tenant);
          HonestWitnessesAttest(cfg, acts, r.tenant, c);
        }
      }
    }
  }

  /** The signature that the witness presents is no forgery under the run's key: if it verifies, the run signed its
      digest. */
  ghost predicate Unforged(cfg: Config, acts: seq<Action>, key: string, c: Checkpoint) {
    && c.publicKey == key
    && (cfg.valid(key, c.entryDigest, c.signature) ==>
          exists g <- Signings(cfg, acts, key) :: EntryDigest(cfg.sha, g.claim) == c.entryDigest)
  }

  /** From an honest run to any table whatever: if the last witness is under the run's key and both verifications pass,
      that witness is a claim of the run, and the table still starts with the very rows that the run had counted. */
  lemma HonestHistoryIsPinned(cfg: Config, acts: seq<Action>, key: string, tenant: string, cps: seq<Checkpoint>,
                              rows: seq<Row>, texts: set<string>)
    requires Digests(cfg.sha) && cps != [] && Unforged(cfg, acts, key, cps[|cps| - 1])
    requires Separates(cfg.sha, texts, ClaimOf(tenant, cps[|cps| - 1]), OfTenant(rows, tenant),
                       Signings(cfg, acts, key))
    ensures || !Intact(cfg.sha, OfTenant(rows, tenant))
            || !Verdict(cfg.sha, cfg.valid, tenant, cps, OfTenant(rows, tenant)).ok
            || exists g <- Signings(cfg, acts, key) ::
                 && g.claim == ClaimOf(tenant, cps[|cps| - 1]) && g.own <= OfTenant(Run(cfg, acts).rows, tenant)
                 && Pins(g.claim, g.own, OfTenant(rows, tenant))
  {
    SigningsAreGenuine(cfg, acts, key);
    if Intact(cfg.sha, OfTenant(rows, tenant)) && Verdict(cfg.sha, cfg.valid, tenant, cps, OfTenant(rows, tenant)).ok {
      var signings := Signings(cfg, acts, key);
      assert forall g <- signings :: Attests(cfg.sha, g.claim, g.own) by {
        assert forall g <- signings :: Genuine(cfg, Run(cfg, acts), g);
      }
      var g := WitnessBinding(cfg.sha, cfg.valid, tenant, cps, rows, signings, texts);
      assert Genuine(cfg, Run(cfg, acts), g);
    }
  }

  // ---------------------------------------------------------------- honest witnesses pass

  lemma NextAct(cfg: Config, acts: seq<Action>, a: Action, key: string)
    ensures Run(cfg, acts + [a]) == Step(cfg, Run(cfg, acts), a)
    ensures Signings(cfg, acts, key) <= Signings(cfg, acts + [a], key)
    ensures !SignsWith(cfg, Run(cfg, acts), a, key) ==> Signings(cfg, acts + [a], key) == Signings(cfg, acts, key)
  {
    assert (acts + [a])[..|acts|] == acts;
  }

  /** A witness that was not there before was inserted by this step, under its key. */
  lemma NewWitness(cfg: Config, s: State, a: Action, t: string, c: Checkpoint)
    requires c in Witnesses(Step(cfg, s, a), t) && c !in Witnesses(s, t)
    ensures SignsWith(cfg, s, a, c.publicKey) && c == NewCheckpoint(cfg, ProcOf(s, a.p), a.id)
    ensures ProcOf(s, a.p).tenant == t
  {
    hide NewCheckpoint, Intact, VerifyFirst, VerifyNext, NewRow;
    var r := ProcOf(s, a.p);
    NewKey(cfg, r, a.id);
  }

  lemma NewKey(cfg: Config, r: Proc, id: int)
    requires r.Recording? && r.stage.Linked?
    ensures NewCheckpoint(cfg, r, id).publicKey == r.signer.publicKey
  {
  }

  /** Every witness that a run stores was signed in it. */
  lemma {:induction false} WitnessIsSigned(cfg: Config, acts: seq<Action>, t: string, c: Checkpoint)
      returns (g: Signing)
    requires c in Witnesses(Run(cfg, acts), t)
    ensures g in Signings(cfg, acts, c.publicKey) && g.claim == ClaimOf(t, c)
  {
    var front, a := acts[..|acts| - 1], acts[|acts| - 1];
    var s := Run(cfg, front);
    NextAct(cfg, front, a, c.publicKey);
    assert acts == front + [a];
    if c in Witnesses(s, t) {
      g := WitnessIsSigned(cfg, front, t, c);
    } else {
      NewWitness(cfg, s, a, t, c);
      hide Step, NewCheckpoint;
      var signings := Signings(cfg, acts, c.publicKey);
      g := signings[|signings| - 1];
    }
  }

  /** The hypotheses of `HonestHistoryIsPinned` are those of honest life: on the run's own witnesses and rows no
      signature is a forgery, and both verifications pass. */
  lemma HonestWitnessesPass(cfg: Config, acts: seq<Action>, t: string)
    requires Witnesses(Run(cfg, acts), t) != []
    ensures var s := Run(cfg, acts);
            var cps := Witnesses(s, t);
            var c := cps[|cps| - 1];
            && Unforged(cfg, acts, c.publicKey, c) && Signings(cfg, acts, c.publicKey) != []
            && Intact(cfg.sha, OfTenant(s.rows, t)) && Verdict(cfg.sha, cfg.valid, t, cps, OfTenant(s.rows, t)).ok
  {
    RunKeeps(cfg, acts);
    var s := Run(cfg, acts);
    var cps := Witnesses(s, t);
    var c := cps[|cps| - 1];
    assert SoundWitnesses(cfg, t, cps, Own(s, t)) && Increasing(Own(s, t)) && Intact(cfg.sha, Own(s, t));
    assert Attested(Own(s, t), c);
    LastWitnessIsSound(cfg.sha, cfg.valid, t, cps);
    var g := WitnessIsSigned(cfg, acts, t, c);
    if c.lastAuditId.Some? { PrefixConfronted(Own(s, t), cps); }
  }

  /** Whoever has a key can witness any chain of any honest run: a `record` that nothing interrupts attests it whole. */
  lemma RecordIsARun(cfg: Config, acts: seq<Action>, p: int, t: string, signer: Signer, at: Instant, id: int)
      returns (more: seq<Action>, c: Checkpoint)
    requires ProcOf(Run(cfg, acts), p).Idle? && LockFree(Run(cfg, acts), t) && Honest(cfg, signer)
    ensures var s, u := Run(cfg, acts), Run(cfg, more);
            && u.rows == s.rows && Witnesses(u, t) == Witnesses(s, t) + [c]
            && ClaimOf(t, c) == Claim(t, |Own(s, t)|, LastId(Own(s, t)), c.lastEntryHash, at, "ed25519", signer.keyId,
                                      signer.publicKey)
            && c.signature == signer.sign(c.entryDigest) && c.id == id
    ensures Signings(cfg, more, signer.publicKey)
            == Signings(cfg, acts, signer.publicKey) + [Signing(ClaimOf(t, c), Own(Run(cfg, acts), t))]
  {
    var own := Own(Run(cfg, acts), t);
    assert Intact(cfg.sha, own) by { RunKeeps(cfg, acts); }
    var r: Proc;
    assert own[..|own|] == own;
    more := acts + [RecordBegin(p, t, signer, at)];
    NextAct(cfg, acts, RecordBegin(p, t, signer, at), signer.publicKey);
    hide Step, Signings, Run, RecordNext, Intact;
    more, r := ReadsOn(cfg, more, p, Locked);
    more, r := ReadsOn(cfg, more, p, Checked);
    more, r := ReadsOn(cfg, more, p, r.stage);
    more, r := ReadsOn(cfg, more, p, r.stage);
    more, c := Stores(cfg, more, p, id, own);
  }

  /** The insert that ends a `record`. */
  lemma Stores(cfg: Config, acts: seq<Action>, p: int, id: int, own: seq<Row>)
      returns (more: seq<Action>, c: Checkpoint)
    requires var r := ProcOf(Run(cfg, acts), p);
             r.Recording? && r.stage.Linked? && r.stage.entries == |own| && own == Own(Run(cfg, acts), r.tenant)
    ensures var s, u, r := Run(cfg, acts), Run(cfg, more), ProcOf(Run(cfg, acts), p);
            && u.rows == s.rows && Witnesses(u, r.tenant) == Witnesses(s, r.tenant) + [c]
            && ClaimOf(r.tenant, c) == Claim(r.tenant, |own|, r.stage.lastId, c.lastEntryHash, r.at, "ed25519",
                                             r.signer.keyId, r.signer.publicKey)
            && c.signature == r.signer.sign(c.entryDigest) && c.id == id
            && Signings(cfg, more, c.publicKey)
               == Signings(cfg, acts, c.publicKey) + [Signing(ClaimOf(r.tenant, c), own)]
  {
    c := NewCheckpoint(cfg, ProcOf(Run(cfg, acts), p), id);
    more := acts + [RecordStep(p, id)];
    NextAct(cfg, acts, RecordStep(p, id), c.publicKey);
    assert more[..|more| - 1] == acts && own[..|own|] == own;
  }

  /** One read of a `record` on an intact chain. */
  lemma ReadsOn(cfg: Config, acts: seq<Action>, p: int, stage: Stage) returns (more: seq<Action>, r: Proc)
    requires var x := ProcOf(Run(cfg, acts), p);
             x.Recording? && x.stage == stage && !stage.Linked? && Intact(cfg.sha, Own(Run(cfg, acts), x.tenant))
    ensures var s, u := Run(cfg, acts), Run(cfg, more);
            && u.rows == s.rows && u.witnesses == s.witnesses
            && ProcOf(u, p) == r == ProcOf(RecordNext(cfg, s, p, 0), p)
            && r.Recording? && r == ProcOf(s, p).(stage := r.stage)
            && (stage.Locked? ==> r.stage.Checked?)
            && (stage.Checked? ==> r.stage == Counted(|Own(s, r.tenant)|, LastId(Own(s, r.tenant))))
            && (stage.Counted? ==>
                  r.stage.HashRead? && r.stage.entries == stage.entries && r.stage.lastId == stage.lastId)
            && (stage.HashRead? ==>
                  r.stage.Linked? && r.stage.entries == stage.entries && r.stage.lastId == stage.lastId)
    ensures forall key :: Signings(cfg, more, key) == Signings(cfg, acts, key)
  {
    more := acts + [RecordStep(p, 0)];
    r := ProcOf(RecordNext(cfg, Run(cfg, acts), p, 0), p);
    forall key ensures Signings(cfg, more, key) == Signings(cfg, acts, key) {
      NextAct(cfg, acts, RecordStep(p, 0), key);
    }
    NextAct(cfg, acts, RecordStep(p, 0), "");
  }

  /** The statements of `verify`, on one state of the tables. */
  lemma VerifyStatements(cfg: Config, s: State, t: string)
    ensures var x := VerifyFirst(cfg, s, t);
            var v := Verdict(cfg.sha, cfg.valid, t, Witnesses(s, t), OfTenant(s.rows, t));
            && (x.Answered? || x.Listed?) && (x.Answered? ==> x == Answered(v))
            && (x.Listed? ==>
                  && VerifyNext(s, x).PresentRead? && VerifyNext(s, VerifyNext(s, x)) == Answered(v)
                  && forall u: State :: u.rows == s.rows ==>
                       VerifyNext(u, x) == VerifyNext(s, x)
                       && VerifyNext(u, VerifyNext(s, x)) == VerifyNext(s, VerifyNext(s, x)))
  {
    hide WitnessFault, Confront, CountUpTo, HashAt, OfTenant;
  }

  /** A `verify` that nothing interrupts answers what `Checkpoints.Verdict` says of the tables. */
  lemma VerifyIsARun(cfg: Config, acts: seq<Action>, p: int, t: string) returns (more: seq<Action>)
    requires ProcOf(Run(cfg, acts), p).Idle?
    ensures var s, u := Run(cfg, acts), Run(cfg, more);
            && u.rows == s.rows && u.witnesses == s.witnesses
            && ProcOf(u, p) == Answered(Verdict(cfg.sha, cfg.valid, t, Witnesses(s, t), OfTenant(s.rows, t)))
  {
    var s := Run(cfg, acts);
    more := acts + [VerifyBegin(p, t)];
    NextAct(cfg, acts, VerifyBegin(p, t), "");
    VerifyStatements(cfg, s, t);
    hide VerifyFirst, VerifyNext, Verdict, OfTenant;
    if ProcOf(Run(cfg, more), p).Listed? {
      NextAct(cfg, more, VerifyStep(p), "");
      more := more + [VerifyStep(p)];
      NextAct(cfg, more, VerifyStep(p), "");
      more := more + [VerifyStep(p)];
    }
  }

  // ---------------------------------------------------------------- a run that meets every hypothesis

  /** A hash that tells the texts of one row and one witness apart: the text of a claim starts with a brace. */
  const TwoDigests: Sha := (s: string) => seq(64, (i: int) => if s != "" && s[0] == '{' then 'a' else 'b')

  /** The texts hashed for a witness, a table and the signings. */
  ghost function TextsOf(claim: Claim, own: seq<Row>, signings: seq<Signing>): set<string> {
    {ClaimText(claim)} + Hashed(Links(own)) + (set g <- signings :: ClaimText(g.claim))
    + (set g, text | g in signings && text in Hashed(Links(g.own)) :: text)
  }

  lemma TextsOfSeparate(sha: Sha, claim: Claim, own: seq<Row>, signings: seq<Signing>)
    requires NoCollision(sha, TextsOf(claim, own, signings))
    ensures Separates(sha, TextsOf(claim, own, signings), claim, own, signings)
  {
    hide NoCollision, ClaimText;
    var texts := TextsOf(claim, own, signings);
    forall g <- signings ensures ClaimText(g.claim) in texts && Hashed(Links(g.own)) <= texts {
      forall text | text in Hashed(Links(g.own)) ensures text in texts {}
    }
  }

  /** All the hypotheses of `HonestHistoryIsPinned` hold together, for a key that signed, a table that is not empty and
      witnesses that pass: it says something of honest tables, and so of those that differ from them. */
  lemma HypothesesAreMet(q: Request, at: Instant, key: string)
      returns (cfg: Config, acts: seq<Action>, cps: seq<Checkpoint>, rows: seq<Row>, texts: set<string>)
    ensures Digests(cfg.sha) && cps != [] && Unforged(cfg, acts, key, cps[|cps| - 1])
    ensures Separates(cfg.sha, texts, ClaimOf(q.tenant, cps[|cps| - 1]), OfTenant(rows, q.tenant),
                      Signings(cfg, acts, key))
    ensures Signings(cfg, acts, key) != [] && cps[|cps| - 1].entries == |OfTenant(rows, q.tenant)| == 1
    ensures Intact(cfg.sha, OfTenant(rows, q.tenant))
    ensures Verdict(cfg.sha, cfg.valid, q.tenant, cps, OfTenant(rows, q.tenant)).ok
  {
    cfg := Config(TwoDigests, (k, m, s) => s == m);
    var signer := Signer("", key, m => m);
    var row := NewRow(cfg.sha, [], 0, EntryOf(q));
    NextAct(cfg, [], Log(0, q), key);
    OfTenantStep([], row, q.tenant);
    var one: seq<Action> := [] + [Log(0, q)];
    assert Run(cfg, one) == State([row], map[], map[]);
    var c: Checkpoint;
    acts, c := RecordIsARun(cfg, one, 0, q.tenant, signer, at, 0);
    cps, rows := Witnesses(Run(cfg, acts), q.tenant), Run(cfg, acts).rows;
    HonestWitnessesPass(cfg, acts, q.tenant);
    assert !SignsWith(cfg, Init, Log(0, q), key);
    assert Signings(cfg, [], key) == [];
    var signings := [Signing(ClaimOf(q.tenant, c), [row])];
    assert Signings(cfg, acts, key) == signings;
    texts := TextsOf(ClaimOf(q.tenant, c), [row], signings);
    OneOfEach(ClaimOf(q.tenant, c), row);
    TextsOfSeparate(cfg.sha, ClaimOf(q.tenant, c), [row], signings);
  }

  lemma OneOfEach(claim: Claim, row: Row)
    requires row.prevHash == GENESIS
    ensures Digests(TwoDigests) && NoCollision(TwoDigests, TextsOf(claim, [row], [Signing(claim, [row])]))
  {
    var texts := TextsOf(claim, [row], [Signing(claim, [row])]);
    var link := ToLink(row);
    assert Links([row]) == [link];
    assert forall s | s in texts :: s == ClaimText(claim) || s == link.prev + link.body;
    assert ClaimText(claim)[0] == '{' && (link.prev + link.body)[0] == 'G';
    assert TwoDigests(ClaimText(claim))[0] == 'a' && TwoDigests(link.prev + link.body)[0] == 'b';
  }

  /** The key has to be checked by the reader: `verify` takes it from the witness, so for every intact journal, however
      little it has to do with what was signed before, and every key pair whatever, there are witnesses under that key
      that pass. */
  lemma AnyKeyPasses(cfg: Config, tenant: string, rows: seq<Row>, signer: Signer, at: Instant, id: int)
      returns (cps: seq<Checkpoint>)
    requires DistinctIds(rows) && Increasing(OfTenant(rows, tenant)) && Intact(cfg.sha, OfTenant(rows, tenant))
    requires Honest(cfg, signer)
    ensures cps != [] && cps[|cps| - 1].publicKey == signer.publicKey
    ensures cps[|cps| - 1].entries == |OfTenant(rows, tenant)|
    ensures Verdict(cfg.sha, cfg.valid, tenant, cps, OfTenant(rows, tenant)).ok
  {
    var own := OfTenant(rows, tenant);
    var r := Recording(tenant, signer, at, Linked(|own|, LastId(own), Tip(Links(own)), GENESIS));
    var c := NewCheckpoint(cfg, r, id);
    assert own[..|own|] == own;
    OfTenantProperties(rows, tenant);
    assert Attests(cfg.sha, ClaimOf(tenant, c), own);
    assert cfg.valid(signer.publicKey, c.entryDigest, c.signature);
    NewWitnessPasses(cfg.sha, cfg.valid, tenant, [], c, rows);
    cps := [] + [c];
  }
}
