/** `record` of `core/checkpoints.py` as it runs when nothing is written meanwhile.  Module `WitnessRuns` treats its
    interleavings, and shares the facts about prefixes. */
module WitnessDesk {

  import opened Basics
  import opened Timestamps
  import opened HashChain
  import opened Journal
  import opened Checkpoints
  import opened WitnessRuns

  /** `count(*), max(id)` of a tenant. */
  method CountAndLast(rows: seq<Row>, tenant: string) returns (entries: nat, last: Option<int>)
    requires Increasing(OfTenant(rows, tenant))
    ensures entries == |OfTenant(rows, tenant)| && last == LastId(OfTenant(rows, tenant))
  {
    entries, last := 0, None;
    for k := 0 to |rows|
      invariant entries == |OfTenant(rows[..k], tenant)| && last == LastId(OfTenant(rows[..k], tenant))
    {
      assert rows[..k + 1] == rows[..k] + [rows[k]];
      OfTenantStep(rows[..k], rows[k], tenant);
      if rows[k].entry.tenant == tenant {
        MaxIsLast(rows, tenant, k);
        entries := entries + 1;
        last := if last.None? || last.value < rows[k].id then Some(rows[k].id) else last;
      }
    }
    assert rows[..|rows|] == rows;
  }

  /** A row of the tenant comes after all its earlier rows, and has a larger id. */
  lemma MaxIsLast(rows: seq<Row>, tenant: string, k: nat)
    requires Increasing(OfTenant(rows, tenant)) && k < |rows| && rows[k].entry.tenant == tenant
    ensures forall r <- OfTenant(rows[..k], tenant) :: r.id < rows[k].id
  {
    OfTenantStep(rows[..k], rows[k], tenant);
    assert rows[..k + 1] == rows[..k] + [rows[k]];
    PrefixOfTenant(rows, tenant, k + 1);
    var mine := OfTenant(rows[..k], tenant);
    forall r <- mine ensures r.id < rows[k].id {
      var i :| 0 <= i < |mine| && mine[i] == r;
      assert OfTenant(rows, tenant)[i] == r && OfTenant(rows, tenant)[|mine|] == rows[k];
    }
  }

  lemma {:induction false} PrefixOfTenant(rows: seq<Row>, tenant: string, k: nat)
    requires k <= |rows|
    ensures OfTenant(rows[..k], tenant) <= OfTenant(rows, tenant)
  {
    if k < |rows| {
      assert rows[..|rows| - 1][..k] == rows[..k];
      PrefixOfTenant(rows[..|rows| - 1], tenant, k);
    } else {
      assert rows[..k] == rows;
    }
  }

  /** The rows of `audit_checkpoints` of one tenant. */
  class WitnessTable {
    const tenant: string
    var cps: seq<Checkpoint>

    constructor (tenant: string)
      ensures this.tenant == tenant && cps == []
    {
      this.tenant := tenant;
      cps := [];
    }

    /** `record`: a broken chain is never signed; a verified one is attested whole, its witness continues the chain of
        witnesses, and verification passes right after. */
    method Record(sha: Sha, valid: SignatureCheck, rows: seq<Row>, signer: Signer, at: Instant, id: int)
      returns (r: Result<Checkpoint, Option<int>>)
      requires DistinctIds(rows) && Increasing(OfTenant(rows, tenant)) && Honest(Config(sha, valid), signer)
      modifies this
      ensures r.Err? <==> !Intact(sha, OfTenant(rows, tenant))
      ensures r.Err? ==> cps == old(cps) && r.error == FirstBroken(sha, OfTenant(rows, tenant))
      ensures r.Ok? ==> cps == old(cps) + [r.value] && Attests(sha, ClaimOf(tenant, r.value), OfTenant(rows, tenant))
      ensures r.Ok? ==>
                var c := r.value;
                && c.id == id && c.at == at && c.keyId == signer.keyId && c.publicKey == signer.publicKey
                && c.algorithm == "ed25519" && c.signature == signer.sign(c.entryDigest)
                && DigestOk(sha, tenant, c) && LinkOk(sha, cps, |cps| - 1)
      ensures (r.Ok? && WitnessFault(sha, valid, tenant, old(cps)).None?
               && LastCount(old(cps)) <= |OfTenant(rows, tenant)|) ==>
                Verdict(sha, valid, tenant, cps, OfTenant(rows, tenant)) == Verification(|cps|, true, false, None)
    {
      hide WitnessFault, Verdict, Increasing, DistinctIds, OfTenant, LastId, FirstBroken, ClaimText, Attests, LinkOk;
      var own := OfTenant(rows, tenant);
      var checked := VerifyChain(sha, own);
      if !checked.ok { return Err(checked.brokenId); }
      var entries, last := CountAndLast(rows, tenant);
      var hash := GENESIS;
      if last.Some? {
        var found := HashAt(rows, last.value);
        if found.Some? { hash := found.value; }
      }
      var claim := Claim(tenant, entries, last, hash, at, ALGORITHM, signer.keyId, signer.publicKey);
      var digest := EntryDigest(sha, claim);
      var prev := if cps == [] then GENESIS else cps[|cps| - 1].entryHash;
      var c := Checkpoint(id, entries, last, hash, at, ALGORITHM, signer.keyId, signer.publicKey, signer.sign(digest),
                          digest, prev, sha(prev + digest));
      NewWitnessIsGood(sha, valid, tenant, cps, c, rows, signer);
      cps := cps + [c];
      r := Ok(c);
    }
  }

  /** The three things read describe the whole chain of the tenant. */
  lemma StateIsAttested(sha: Sha, rows: seq<Row>, tenant: string, entries: nat, last: Option<int>, hash: string)
    requires DistinctIds(rows) && entries == |OfTenant(rows, tenant)| && last == LastId(OfTenant(rows, tenant))
    requires hash == if last.Some? && HashAt(rows, last.value).Some? then HashAt(rows, last.value).value else GENESIS
    ensures hash == Tip(Links(OfTenant(rows, tenant))) && forall r <- OfTenant(rows, tenant) :: r.entry.tenant == tenant
  {
    var own := OfTenant(rows, tenant);
    assert own[..|own|] == own;
    LastHashRead(rows, tenant, |own|, last);
    OfTenantProperties(rows, tenant);
  }

  /** The witness that `record` inserts. */
  lemma NewWitnessIsGood(sha: Sha, valid: SignatureCheck, tenant: string, before: seq<Checkpoint>, c: Checkpoint,
      rows: seq<Row>, signer: Signer)
    requires DistinctIds(rows) && Increasing(OfTenant(rows, tenant)) && Intact(sha, OfTenant(rows, tenant))
    requires Honest(Config(sha, valid), signer)
    requires c.entries == |OfTenant(rows, tenant)| && c.lastAuditId == LastId(OfTenant(rows, tenant))
    requires c.lastEntryHash == if c.lastAuditId.Some? && HashAt(rows, c.lastAuditId.value).Some?
                                then HashAt(rows, c.lastAuditId.value).value else GENESIS
    requires c.algorithm == ALGORITHM && c.publicKey == signer.publicKey && c.signature == signer.sign(c.entryDigest)
    requires c.entryDigest == EntryDigest(sha, ClaimOf(tenant, c)) && c.prevHash == WitnessTip(before)
    requires c.entryHash == sha(WitnessTip(before) + c.entryDigest)
    ensures Attests(sha, ClaimOf(tenant, c), OfTenant(rows, tenant))
    ensures DigestOk(sha, tenant, c) && LinkOk(sha, before + [c], |before|)
    ensures WitnessFault(sha, valid, tenant, before).None? && LastCount(before) <= |OfTenant(rows, tenant)| ==>
              Verdict(sha, valid, tenant, before + [c], OfTenant(rows, tenant))
              == Verification(|before| + 1, true, false, None)
  {
    StateIsAttested(sha, rows, tenant, c.entries, c.lastAuditId, c.lastEntryHash);
    hide WitnessFault, Verdict, Increasing, DistinctIds, OfTenant, Intact, HashAt, Tip, Links, ClaimText;
    if WitnessFault(sha, valid, tenant, before).None? && LastCount(before) <= |OfTenant(rows, tenant)| {
      NewWitnessPasses(sha, valid, tenant, before, c, rows);
    }
  }

  lemma NewWitnessPasses(sha: Sha, valid: SignatureCheck, tenant: string, before: seq<Checkpoint>, c: Checkpoint,
      rows: seq<Row>)
    requires DistinctIds(rows) && Increasing(OfTenant(rows, tenant))
    requires WitnessFault(sha, valid, tenant, before).None? && LastCount(before) <= |OfTenant(rows, tenant)|
    requires Attests(sha, ClaimOf(tenant, c), OfTenant(rows, tenant)) && SignatureValid(valid, c)
    requires c.entryDigest == EntryDigest(sha, ClaimOf(tenant, c)) && c.prevHash == WitnessTip(before)
    requires c.entryHash == sha(WitnessTip(before) + c.entryDigest)
    ensures Verdict(sha, valid, tenant, before + [c], OfTenant(rows, tenant))
            == Verification(|before| + 1, true, false, None)
  {
    hide WitnessFault, CountUpTo, HashAt, Intact, Increasing, EntryDigest, SignatureValid, OfTenant;
    var own, cps := OfTenant(rows, tenant), before + [c];
    NewWitnessFits(sha, valid, tenant, before, c, |own|);
    assert cps[|cps| - 1] == c;
    if c.lastAuditId.Some? {
      assert own[..|own|] == own;
      PrefixConfronted(own, cps);
    }
  }

  lemma NewWitnessFits(sha: Sha, valid: SignatureCheck, tenant: string, before: seq<Checkpoint>, c: Checkpoint, n: nat)
    requires WitnessFault(sha, valid, tenant, before).None? && LastCount(before) <= n == c.entries
        && SignatureValid(valid, c)
    requires c.entryDigest == EntryDigest(sha, ClaimOf(tenant, c)) && c.prevHash == WitnessTip(before)
    requires c.entryHash == sha(WitnessTip(before) + c.entryDigest)
    ensures WitnessFault(sha, valid, tenant, before + [c]).None?
  {
    assert (before + [c])[..|before|] == before;
    assert StepFault(sha, valid, tenant, before, c).None?;
  }
}
